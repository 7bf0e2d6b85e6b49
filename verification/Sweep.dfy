/**
 * The concurrency sweep behind the dashboard call charts: events in order, running
 * level, one row per minute, and quiet minutes filled from a carry.
 *
 * Time is whole milliseconds. A call occupies `[start, end)`.
 */
module Sweep {
  import opened Wrappers

  const MINUTE_MS := 60_000
  const DAY_MS := 86_400_000

  datatype Call = Call(start: int, end: int)

  datatype Event = Event(ts: int, delta: int)

  ghost predicate ValidCalls(calls: seq<Call>) {
    forall i | 0 <= i < |calls| :: calls[i].start < calls[i].end
  }

  // ----- what the chart is about

  /** Calls alive at instant `t`. */
  function Occupancy(calls: seq<Call>, t: int): nat {
    if calls == [] then 0
    else (if calls[0].start <= t < calls[0].end then 1 else 0) + Occupancy(calls[1..], t)
  }

  function EndsAt(calls: seq<Call>, t: int): nat {
    if calls == [] then 0 else (if calls[0].end == t then 1 else 0) + EndsAt(calls[1..], t)
  }

  function StartsAt(calls: seq<Call>, t: int): nat {
    if calls == [] then 0 else (if calls[0].start == t then 1 else 0) + StartsAt(calls[1..], t)
  }

  /** The highest occupancy at any instant of `[lo, hi)`. */
  function MaxOccupancy(calls: seq<Call>, lo: int, hi: int): nat
    requires lo < hi
    decreases hi - lo
  {
    if lo + 1 == hi then Occupancy(calls, lo)
    else Max(Occupancy(calls, lo), MaxOccupancy(calls, lo + 1, hi))
  }

  function TrueMaximum(calls: seq<Call>, minute: int): nat {
    MaxOccupancy(calls, minute * MINUTE_MS, (minute + 1) * MINUTE_MS)
  }

  /** What the chart shows for an absolute minute, in terms of the calls alone. */
  function Shown(calls: seq<Call>, minute: int): int {
    var at := minute * MINUTE_MS;
    if EndsAt(calls, at) >= 1 then Max(TrueMaximum(calls, minute), Occupancy(calls, at - 1) - 1)
    else TrueMaximum(calls, minute)
  }

  lemma {:induction false} MaxOccupancyBounds(calls: seq<Call>, lo: int, hi: int)
    requires lo < hi
    ensures forall t | lo <= t < hi :: Occupancy(calls, t) <= MaxOccupancy(calls, lo, hi)
    ensures exists t | lo <= t < hi :: Occupancy(calls, t) == MaxOccupancy(calls, lo, hi)
    decreases hi - lo
  {
    if lo + 1 < hi {
      MaxOccupancyBounds(calls, lo + 1, hi);
      var t :| lo + 1 <= t < hi && Occupancy(calls, t) == MaxOccupancy(calls, lo + 1, hi);
      var busiest := if Occupancy(calls, lo) >= Occupancy(calls, t) then lo else t;
      assert lo <= busiest < hi && Occupancy(calls, busiest) == MaxOccupancy(calls, lo, hi);
    } else {
      assert lo <= lo < hi && Occupancy(calls, lo) == MaxOccupancy(calls, lo, hi);
    }
  }

  // ----- events and their order

  function Starts(calls: seq<Call>): seq<Event> {
    if calls == [] then [] else [Event(calls[0].start, 1)] + Starts(calls[1..])
  }

  function Ends(calls: seq<Call>): seq<Event> {
    if calls == [] then [] else [Event(calls[0].end, -1)] + Ends(calls[1..])
  }

  function Events(calls: seq<Call>): seq<Event> {
    Starts(calls) + Ends(calls)
  }

  function Before(events: seq<Event>, t: int): seq<Event> {
    if events == [] then []
    else (if events[0].ts < t then [events[0]] else []) + Before(events[1..], t)
  }

  function Sum(events: seq<Event>): int {
    if events == [] then 0 else events[0].delta + Sum(events[1..])
  }

  /** `sum(delta) ... WHERE ts < t`, the carry into instant `t`. */
  function SumBefore(events: seq<Event>, t: int): int {
    if events == [] then 0 else (if events[0].ts < t then events[0].delta else 0) + SumBefore(events[1..], t)
  }

  /** `ORDER BY ts ASC, delta ASC`: at one instant ends come before starts. */
  ghost predicate Sorted(order: seq<Event>) {
    forall i, j | 0 <= i < j < |order| ::
      order[i].ts < order[j].ts || (order[i].ts == order[j].ts && order[i].delta <= order[j].delta)
  }

  /** Any order the database may produce for the events before the end of the series. */
  ghost predicate IsRunning(order: seq<Event>, events: seq<Event>, seriesEnd: int) {
    Sorted(order) && multiset(order) == multiset(Before(events, seriesEnd))
  }

  /** The running level after event `i`. */
  function Level(order: seq<Event>, i: nat): int
    requires i < |order|
  {
    Sum(order[..i + 1])
  }

  lemma {:induction false} SumAppend(a: seq<Event>, b: seq<Event>)
    ensures Sum(a + b) == Sum(a) + Sum(b)
  {
    if a == [] {
      assert a + b == b;
    } else {
      assert (a + b)[1..] == a[1..] + b;
      SumAppend(a[1..], b);
    }
  }

  lemma {:induction false} SumBeforeAppend(a: seq<Event>, b: seq<Event>, t: int)
    ensures SumBefore(a + b, t) == SumBefore(a, t) + SumBefore(b, t)
  {
    if a == [] {
      assert a + b == b;
    } else {
      assert (a + b)[1..] == a[1..] + b;
      SumBeforeAppend(a[1..], b, t);
    }
  }

  lemma {:induction false} SumBeforePermutation(a: seq<Event>, b: seq<Event>, t: int)
    requires multiset(a) == multiset(b)
    ensures SumBefore(a, t) == SumBefore(b, t)
    decreases |a|
  {
    if a == [] {
      assert |b| == |multiset(b)| == 0;
    } else {
      assert a[0] in multiset(b);
      var i :| 0 <= i < |b| && b[i] == a[0];
      var restA, restB := a[..0] + a[0 + 1..], b[..i] + b[i + 1..];
      hide SumBefore;
      SumBeforeWithout(a, 0, t);
      SumBeforeWithout(b, i, t);
      assert multiset(restA) == multiset(a) - multiset{a[0]} == multiset(restB);
      SumBeforePermutation(restA, restB, t);
    }
  }

  lemma SumBeforeWithout(s: seq<Event>, i: nat, t: int)
    requires i < |s|
    ensures multiset(s[..i] + s[i + 1..]) == multiset(s) - multiset{s[i]}
    ensures SumBefore(s, t) == SumBefore(s[..i] + s[i + 1..], t) + SumBefore([s[i]], t)
  {
    hide SumBefore;
    assert s == s[..i] + ([s[i]] + s[i + 1..]);
    SumBeforeAppend(s[..i], [s[i]] + s[i + 1..], t);
    SumBeforeAppend([s[i]], s[i + 1..], t);
    SumBeforeAppend(s[..i], s[i + 1..], t);
  }

  lemma {:induction false} SumBeforeCut(events: seq<Event>, seriesEnd: int, t: int)
    requires t <= seriesEnd
    ensures SumBefore(Before(events, seriesEnd), t) == SumBefore(events, t)
  {
    if events != [] {
      SumBeforeCut(events[1..], seriesEnd, t);
      SumBeforeAppend(if events[0].ts < seriesEnd then [events[0]] else [], Before(events[1..], seriesEnd), t);
    }
  }

  lemma {:induction false} SumBeforeIsOccupancy(calls: seq<Call>, t: int)
    requires ValidCalls(calls)
    ensures SumBefore(Events(calls), t) == Occupancy(calls, t - 1)
  {
    SumBeforeAppend(Starts(calls), Ends(calls), t);
    if calls != [] {
      SumBeforeIsOccupancy(calls[1..], t);
      SumBeforeAppend(Starts(calls[1..]), Ends(calls[1..]), t);
    }
  }

  lemma {:induction false} EventMembers(calls: seq<Call>, e: Event)
    ensures e in Starts(calls) <==> e.delta == 1 && exists i | 0 <= i < |calls| :: calls[i].start == e.ts
    ensures e in Ends(calls) <==> e.delta == -1 && EndsAt(calls, e.ts) >= 1
  {
    if calls != [] {
      EventMembers(calls[1..], e);
      if exists i | 0 <= i < |calls[1..]| :: calls[1..][i].start == e.ts {
        var i :| 0 <= i < |calls[1..]| && calls[1..][i].start == e.ts;
        assert calls[i + 1].start == e.ts;
      }
      if exists i | 0 <= i < |calls| :: calls[i].start == e.ts {
        var i :| 0 <= i < |calls| && calls[i].start == e.ts;
        assert i > 0 ==> calls[1..][i - 1].start == e.ts;
      }
    }
  }

  lemma {:induction false} BeforeMembers(events: seq<Event>, t: int, e: Event)
    ensures e in Before(events, t) <==> e in events && e.ts < t
  {
    if events != [] {
      BeforeMembers(events[1..], t, e);
    }
  }

  // ----- levels against occupancy

  /** The facts about one running order that everything below uses. */
  ghost predicate Tracks(order: seq<Event>, calls: seq<Call>, seriesEnd: int) {
    && Sorted(order)
    && (forall t | t <= seriesEnd :: SumBefore(order, t) == Occupancy(calls, t - 1))
    && (forall i | 0 <= i < |order| :: order[i].ts < seriesEnd && order[i].delta in {-1, 1})
    && (forall i | 0 <= i < |order| && order[i].delta == -1 :: EndsAt(calls, order[i].ts) >= 1)
    && (forall t | t < seriesEnd && EndsAt(calls, t) >= 1 :: Event(t, -1) in order)
  }

  lemma RunningTracks(order: seq<Event>, calls: seq<Call>, seriesEnd: int)
    requires ValidCalls(calls) && IsRunning(order, Events(calls), seriesEnd)
    ensures Tracks(order, calls, seriesEnd)
  {
    var events := Events(calls);
    var cut := Before(events, seriesEnd);
    forall t | t <= seriesEnd ensures SumBefore(order, t) == Occupancy(calls, t - 1) {
      SumBeforePermutation(order, cut, t);
      SumBeforeCut(events, seriesEnd, t);
      SumBeforeIsOccupancy(calls, t);
    }
    forall e ensures e in order <==> e in cut {
      assert e in order <==> e in multiset(order);
    }
    forall i | 0 <= i < |order|
      ensures order[i].ts < seriesEnd && order[i].delta in {-1, 1}
      ensures order[i].delta == -1 ==> EndsAt(calls, order[i].ts) >= 1
    {
      assert order[i] in order;
      BeforeMembers(events, seriesEnd, order[i]);
      EventMembers(calls, order[i]);
    }
    forall t | t < seriesEnd && EndsAt(calls, t) >= 1 ensures Event(t, -1) in order {
      BeforeMembers(events, seriesEnd, Event(t, -1));
      EventMembers(calls, Event(t, -1));
    }
  }

  /** In a sorted order the events before `t` are a prefix. */
  lemma {:induction false} PrefixSum(order: seq<Event>, a: nat, t: int)
    requires a <= |order|
    requires forall i | 0 <= i < a :: order[i].ts < t
    requires forall i | a <= i < |order| :: order[i].ts >= t
    ensures Sum(order[..a]) == SumBefore(order, t)
    decreases |order|
  {
    if order != [] {
      if a > 0 {
        PrefixSum(order[1..], a - 1, t);
        assert order[..a][1..] == order[1..][..a - 1];
      } else {
        PrefixSum(order[1..], 0, t);
        assert order[..0] == order[1..][..0] == [];
      }
    }
  }

  function FirstAtLeast(order: seq<Event>, t: int): (a: nat)
    ensures a <= |order|
    ensures forall i | 0 <= i < a :: order[i].ts < t
    ensures a < |order| ==> order[a].ts >= t
  {
    if order == [] || order[0].ts >= t then 0 else 1 + FirstAtLeast(order[1..], t)
  }

  lemma CarryIsPrefix(order: seq<Event>, t: int)
    requires Sorted(order)
    ensures Sum(order[..FirstAtLeast(order, t)]) == SumBefore(order, t)
    ensures forall i | FirstAtLeast(order, t) <= i < |order| :: order[i].ts >= t
  {
    PrefixSum(order, FirstAtLeast(order, t), t);
  }

  lemma {:induction false} SumSigned(events: seq<Event>)
    ensures (forall i | 0 <= i < |events| :: events[i].delta >= 1) ==> Sum(events) >= |events|
    ensures (forall i | 0 <= i < |events| :: events[i].delta <= -1) ==> Sum(events) <= -|events|
  {
    if events != [] {
      SumSigned(events[1..]);
      assert forall i | 0 <= i < |events[1..]| :: events[1..][i] == events[i + 1];
    }
  }

  lemma SumSplit(order: seq<Event>, a: nat, b: nat)
    requires a <= b <= |order|
    ensures Sum(order[..b]) == Sum(order[..a]) + Sum(order[a..b])
  {
    assert order[..b] == order[..a] + order[a..b];
    SumAppend(order[..a], order[a..b]);
  }

  /** After a start, only more starts can follow at the same instant. */
  lemma StartLevel(order: seq<Event>, i: nat)
    requires Sorted(order) && i < |order| && order[i].delta == 1
    ensures Level(order, i) <= SumBefore(order, order[i].ts + 1)
  {
    hide Sum, SumBefore;
    var b := FirstAtLeast(order, order[i].ts + 1);
    CarryIsPrefix(order, order[i].ts + 1);
    SumSplit(order, i + 1, b);
    assert forall k | i + 1 <= k < b :: order[k].delta >= 1;
    SumSigned(order[i + 1..b]);
  }

  lemma EndsBefore(order: seq<Event>, i: nat, k: nat)
    requires Sorted(order) && k <= i < |order| && order[k].ts >= order[i].ts && order[i].delta == -1
    ensures order[k].delta <= -1
  {
  }

  /** Before an end, only other ends can have come at the same instant. */
  lemma EndLevel(order: seq<Event>, i: nat)
    requires Sorted(order) && i < |order| && order[i].delta == -1
    ensures Level(order, i) <= SumBefore(order, order[i].ts) - 1
  {
    hide Sum, SumBefore, Sorted;
    var a := FirstAtLeast(order, order[i].ts);
    CarryIsPrefix(order, order[i].ts);
    forall k | a <= k < i + 1 ensures order[k].delta <= -1 {
      EndsBefore(order, i, k);
    }
    SumSplit(order, a, i + 1);
    SumSigned(order[a..i + 1]);
  }

  /** No running level exceeds what the calls around its instant allow. */
  lemma LevelBound(order: seq<Event>, calls: seq<Call>, seriesEnd: int, i: nat)
    requires Tracks(order, calls, seriesEnd) && i < |order|
    ensures order[i].delta == 1 ==> Level(order, i) <= Occupancy(calls, order[i].ts)
    ensures order[i].delta == -1 ==> Level(order, i) <= Occupancy(calls, order[i].ts - 1) - 1
  {
    if order[i].delta == 1 {
      StartLevel(order, i);
    } else {
      EndLevel(order, i);
    }
  }

  /** After the last event of an instant the level is the occupancy. */
  lemma LevelReaches(order: seq<Event>, calls: seq<Call>, seriesEnd: int, j: nat) returns (i: nat)
    requires Tracks(order, calls, seriesEnd) && j < |order|
    ensures j <= i < |order| && order[i].ts == order[j].ts && Level(order, i) == Occupancy(calls, order[j].ts)
  {
    var b := FirstAtLeast(order, order[j].ts + 1);
    CarryIsPrefix(order, order[j].ts + 1);
    i := b - 1;
  }

  /** The first of the ends at an instant leaves the level one below the carry. */
  lemma LevelAfterFirstEnd(order: seq<Event>, calls: seq<Call>, seriesEnd: int, t: int) returns (i: nat)
    requires Tracks(order, calls, seriesEnd) && t < seriesEnd && EndsAt(calls, t) >= 1
    ensures i < |order| && order[i].ts == t && Level(order, i) == Occupancy(calls, t - 1) - 1
  {
    i := FirstAtLeast(order, t);
    CarryIsPrefix(order, t);
    var k :| 0 <= k < |order| && order[k] == Event(t, -1);
    assert order[i].ts == t && order[i].delta == -1;
    SumSplit(order, i, i + 1);
    assert order[i..i + 1] == [order[i]];
    assert [order[i]][1..] == [];
  }

  /** Between two neighbouring events the occupancy does not move. */
  lemma QuietOccupancy(order: seq<Event>, calls: seq<Call>, seriesEnd: int, s: int, t: int)
    requires Tracks(order, calls, seriesEnd) && s <= t < seriesEnd
    requires forall i | 0 <= i < |order| :: !(s < order[i].ts <= t)
    ensures Occupancy(calls, t) == Occupancy(calls, s)
  {
    var a := FirstAtLeast(order, s + 1);
    CarryIsPrefix(order, s + 1);
    PrefixSum(order, a, t + 1);
  }

  // ----- one row per minute

  datatype MinuteRow = MinuteRow(minute: int, peak: int, levelAtEnd: int, touchesStart: bool)

  function MinuteOf(ts: int): int {
    ts / MINUTE_MS
  }

  /** Event `i` belongs to the group of `minute` in a query that starts at `from`. */
  predicate InGroup(order: seq<Event>, from: int, minute: int, i: int) {
    0 <= i < |order| && order[i].ts >= from && MinuteOf(order[i].ts) == minute
  }

  ghost predicate EmptyGroup(order: seq<Event>, from: int, minute: int) {
    forall i | 0 <= i < |order| :: !InGroup(order, from, minute, i)
  }

  /** Event `i` may be the first of its group in `ORDER BY ts DESC, delta DESC`, which leaves equal events open. */
  ghost predicate LastTied(order: seq<Event>, from: int, minute: int, i: int) {
    && InGroup(order, from, minute, i)
    && forall j | InGroup(order, from, minute, j) ::
         order[j].ts < order[i].ts || (order[j].ts == order[i].ts && order[j].delta <= order[i].delta)
  }

  /** `max(level)`, `(array_agg(level ORDER BY ts DESC, delta DESC))[1]`, `bool_or(ts on the minute)`. */
  ghost predicate IsMinuteRow(order: seq<Event>, from: int, row: MinuteRow) {
    && (forall i | InGroup(order, from, row.minute, i) :: Level(order, i) <= row.peak)
    && (exists i :: InGroup(order, from, row.minute, i) && Level(order, i) == row.peak)
    && (exists i :: LastTied(order, from, row.minute, i) && Level(order, i) == row.levelAtEnd)
    && (row.touchesStart <==> exists i :: InGroup(order, from, row.minute, i) && order[i].ts % MINUTE_MS == 0)
  }

  /** One row for every minute that has an event, in whatever order the groups come. */
  ghost predicate IsMinuteTable(order: seq<Event>, from: int, rows: seq<MinuteRow>) {
    && (forall r | 0 <= r < |rows| :: IsMinuteRow(order, from, rows[r]))
    && (forall r, q | 0 <= r < q < |rows| :: rows[r].minute != rows[q].minute)
    && (forall i | 0 <= i < |order| && order[i].ts >= from :: exists r | 0 <= r < |rows| :: rows[r].minute == MinuteOf(order[i].ts))
  }

  // ----- filling the quiet minutes

  function ClampLevel(value: int): nat {
    if value < 0 then 0 else value
  }

  function ClampCount(minuteCount: int): nat {
    Max(0, Min(1440, minuteCount))
  }

  /** The row a map built in list order keeps for this minute. */
  function LastRow(rows: seq<MinuteRow>, minute: int): Option<MinuteRow> {
    if rows == [] then None
    else if rows[|rows| - 1].minute == minute then Some(rows[|rows| - 1])
    else LastRow(rows[..|rows| - 1], minute)
  }

  function CarryInto(rows: seq<MinuteRow>, carryIn: int, minute: nat): nat {
    if minute == 0 then ClampLevel(carryIn)
    else
      match LastRow(rows, minute - 1)
      case None => CarryInto(rows, carryIn, minute - 1)
      case Some(row) => ClampLevel(row.levelAtEnd)
  }

  function FillMinute(row: Option<MinuteRow>, carry: nat): nat {
    match row
    case None => carry
    case Some(row) => if row.touchesStart then ClampLevel(row.peak) else Max(carry, ClampLevel(row.peak))
  }

  function Filled(rows: seq<MinuteRow>, carryIn: int, minute: nat): nat {
    FillMinute(LastRow(rows, minute), CarryInto(rows, carryIn, minute))
  }

  method FillConcurrencyMinutes(minuteCount: int, carryIn: int, rows: seq<MinuteRow>) returns (series: array<int>)
    ensures fresh(series)
    ensures series.Length == ClampCount(minuteCount)
    ensures forall m | 0 <= m < series.Length :: series[m] == Filled(rows, carryIn, m)
  {
    var count := Max(0, Min(1440, minuteCount));
    var byMinute: map<int, MinuteRow> := map[];
    for k := 0 to |rows|
      invariant forall m | 0 <= m < count ::
        LastRow(rows[..k], m) == if m in byMinute then Some(byMinute[m]) else None
    {
      assert rows[..k + 1][..k] == rows[..k];
      if 0 <= rows[k].minute < count {
        byMinute := byMinute[rows[k].minute := rows[k]];
      }
    }
    assert rows[..|rows|] == rows;
    series := new int[count];
    var carry := ClampLevel(carryIn);
    for minute := 0 to count
      invariant carry == CarryInto(rows, carryIn, minute)
      invariant forall m | 0 <= m < minute :: series[m] == Filled(rows, carryIn, m)
    {
      if minute !in byMinute {
        series[minute] := carry;
      } else {
        var row := byMinute[minute];
        var afterEvents := ClampLevel(row.peak);
        series[minute] := if row.touchesStart then afterEvents else Max(carry, afterEvents);
        carry := ClampLevel(row.levelAtEnd);
      }
    }
  }

  // ----- the filled series is the shown level

  /** `parseMinuteEvents`: absolute minute keys become minutes since an origin. */
  function Rebased(rows: seq<MinuteRow>, origin: int): (r: seq<MinuteRow>)
    ensures |r| == |rows|
    ensures forall i | 0 <= i < |rows| :: r[i] == rows[i].(minute := rows[i].minute - origin)
  {
    seq(|rows|, i requires 0 <= i < |rows| => rows[i].(minute := rows[i].minute - origin))
  }

  lemma {:induction false} LastRowFound(rows: seq<MinuteRow>, minute: int)
    ensures LastRow(rows, minute).None? ==> forall r | 0 <= r < |rows| :: rows[r].minute != minute
    ensures LastRow(rows, minute).Some? ==>
      exists r | 0 <= r < |rows| :: rows[r] == LastRow(rows, minute).value && rows[r].minute == minute
  {
    if rows != [] {
      var last := |rows| - 1;
      LastRowFound(rows[..last], minute);
      if rows[last].minute == minute {
        assert rows[last] == LastRow(rows, minute).value;
      }
    }
  }

  /** The table read at an origin: a minute without a row has no event, a row is its group's row. */
  lemma RowOfMinute(order: seq<Event>, from: int, rows: seq<MinuteRow>, origin: int, m: int)
    requires IsMinuteTable(order, from, rows)
    ensures LastRow(Rebased(rows, origin), m).None? ==> EmptyGroup(order, from, origin + m)
    ensures LastRow(Rebased(rows, origin), m).Some? ==>
      IsMinuteRow(order, from, LastRow(Rebased(rows, origin), m).value.(minute := origin + m))
  {
    hide IsMinuteRow;
    var based := Rebased(rows, origin);
    LastRowFound(based, m);
    if LastRow(based, m).Some? {
      var r :| 0 <= r < |rows| && based[r] == LastRow(based, m).value && based[r].minute == m;
      assert based[r].(minute := origin + m) == rows[r];
    } else {
      assert forall r | 0 <= r < |rows| :: rows[r].minute == based[r].minute + origin != origin + m;
    }
  }

  lemma MinuteSpan(ts: int, minute: int)
    ensures MinuteOf(ts) == minute <==> minute * MINUTE_MS <= ts < (minute + 1) * MINUTE_MS
    ensures MinuteOf(ts) == minute && ts % MINUTE_MS == 0 <==> ts == minute * MINUTE_MS
  {
  }

  lemma GroupSpan(order: seq<Event>, origin: int, m: nat, i: int)
    ensures InGroup(order, origin * MINUTE_MS, origin + m, i) <==>
            0 <= i < |order| && (origin + m) * MINUTE_MS <= order[i].ts < (origin + m + 1) * MINUTE_MS
  {
    if 0 <= i < |order| {
      MinuteSpan(order[i].ts, origin + m);
    }
  }

  // ----- events that the aggregate cannot tell apart

  predicate Changes(calls: seq<Call>, t: int) {
    StartsAt(calls, t) > 0 || EndsAt(calls, t) > 0
  }

  /** The last instant of `[lo, hi)` at which a call starts or ends. */
  function LastChange(calls: seq<Call>, lo: int, hi: int): (t: Option<int>)
    ensures t.Some? ==> lo <= t.value < hi && Changes(calls, t.value)
    ensures forall u | (if t.Some? then t.value + 1 else lo) <= u < hi :: !Changes(calls, u)
    decreases if hi > lo then hi - lo else 0
  {
    if hi <= lo then None
    else if Changes(calls, hi - 1) then Some(hi - 1)
    else LastChange(calls, lo, hi - 1)
  }

  /** How far the level kept at `hi` can be below the occupancy: all but one of the calls that start last. */
  function Under(calls: seq<Call>, lo: int, hi: int): nat {
    match LastChange(calls, lo, hi)
    case None => 0
    case Some(t) => if StartsAt(calls, t) > 0 then StartsAt(calls, t) - 1 else 0
  }

  /** How far it can be above: all but one of the calls that end last, if none starts then. */
  function Over(calls: seq<Call>, lo: int, hi: int): nat {
    match LastChange(calls, lo, hi)
    case None => 0
    case Some(t) => if StartsAt(calls, t) == 0 then EndsAt(calls, t) - 1 else 0
  }

  /** The running order has each start and each end as often as the calls have it. */
  ghost predicate Counts(order: seq<Event>, calls: seq<Call>, seriesEnd: int) {
    forall t | t < seriesEnd ::
      && multiset(order)[Event(t, 1)] == StartsAt(calls, t)
      && multiset(order)[Event(t, -1)] == EndsAt(calls, t)
  }

  lemma {:induction false} StartsCounted(calls: seq<Call>, t: int)
    ensures multiset(Starts(calls))[Event(t, 1)] == StartsAt(calls, t) && multiset(Starts(calls))[Event(t, -1)] == 0
    ensures multiset(Ends(calls))[Event(t, -1)] == EndsAt(calls, t) && multiset(Ends(calls))[Event(t, 1)] == 0
  {
    if calls != [] {
      StartsCounted(calls[1..], t);
    }
  }

  lemma {:induction false} BeforeCounted(events: seq<Event>, end: int, e: Event)
    requires e.ts < end
    ensures multiset(Before(events, end))[e] == multiset(events)[e]
  {
    if events != [] {
      BeforeCounted(events[1..], end, e);
      assert events == [events[0]] + events[1..];
    }
  }

  lemma RunningCounts(order: seq<Event>, calls: seq<Call>, seriesEnd: int)
    requires IsRunning(order, Events(calls), seriesEnd)
    ensures Counts(order, calls, seriesEnd)
  {
    forall t | t < seriesEnd
      ensures multiset(order)[Event(t, 1)] == StartsAt(calls, t) && multiset(order)[Event(t, -1)] == EndsAt(calls, t)
    {
      StartsCounted(calls, t);
      BeforeCounted(Events(calls), seriesEnd, Event(t, 1));
      BeforeCounted(Events(calls), seriesEnd, Event(t, -1));
    }
  }

  lemma {:induction false} TiedLevels(order: seq<Event>, i: nat, j: nat)
    requires i <= j < |order| && forall k | i <= k <= j :: order[k] == order[j]
    ensures order[j].delta == 1 ==> Level(order, i) == Level(order, j) - (j - i)
    ensures order[j].delta == -1 ==> Level(order, i) == Level(order, j) + (j - i)
    ensures j - i + 1 <= multiset(order[i..])[order[j]]
    decreases j - i
  {
    var rest := order[i + 1..];
    assert order[i..] == [order[i]] + rest;
    if i < j {
      TiedLevels(order, i + 1, j);
      SumSplit(order, i + 1, i + 2);
      assert order[i + 1..i + 2] == [order[i + 1]] && [order[i + 1]][1..] == [];
    }
  }

  lemma CountFrom(order: seq<Event>, i: nat, e: Event)
    requires i <= |order|
    ensures multiset(order)[e] == multiset(order[..i])[e] + multiset(order[i..])[e]
  {
    assert order == order[..i] + order[i..];
  }

  /** The last event of a minute: its index, what it says of the calls, and what else could be taken for it. */
  lemma LastOfMinute(order: seq<Event>, calls: seq<Call>, seriesEnd: int, origin: int, m: nat, i: int) returns (b: nat)
    requires Tracks(order, calls, seriesEnd) && (origin + m + 1) * MINUTE_MS <= seriesEnd
    requires LastTied(order, origin * MINUTE_MS, origin + m, i)
    ensures i <= b < |order| && (origin + m) * MINUTE_MS <= order[b].ts < (origin + m + 1) * MINUTE_MS
    ensures Level(order, b) == Occupancy(calls, (origin + m + 1) * MINUTE_MS - 1)
    ensures forall k | i <= k <= b :: order[k] == order[b]
    ensures forall k | b < k < |order| :: order[k].ts >= (origin + m + 1) * MINUTE_MS
  {
    hide Level, SumBefore, Occupancy, EndsAt;
    var t := (origin + m + 1) * MINUTE_MS;
    GroupSpan(order, origin, m, i);
    b := FirstAtLeast(order, t) - 1;
    CarryIsPrefix(order, t);
    LevelIsSum(order, b);
    forall k | i <= k <= b ensures order[k] == order[i] {
      assert order[i].ts <= order[k].ts;
      GroupSpan(order, origin, m, k);
    }
  }

  lemma LevelIsSum(order: seq<Event>, i: nat)
    requires i < |order|
    ensures Level(order, i) == Sum(order[..i + 1])
  {
  }

  /** Nothing starts or ends after the last event of the minute. */
  lemma LastEventIsLastChange(order: seq<Event>, calls: seq<Call>, seriesEnd: int, lo: int, hi: int, b: nat)
    requires Sorted(order) && Counts(order, calls, seriesEnd) && hi <= seriesEnd
    requires b < |order| && lo <= order[b].ts < hi && order[b].delta in {-1, 1}
    requires forall k | b < k < |order| :: order[k].ts >= hi
    ensures LastChange(calls, lo, hi) == Some(order[b].ts)
  {
    var t := order[b].ts;
    assert order[b] in multiset(order);
    assert order[b] == Event(t, order[b].delta);
    assert multiset(order)[Event(t, 1)] == StartsAt(calls, t) && multiset(order)[Event(t, -1)] == EndsAt(calls, t);
    forall u | t < u < hi ensures !Changes(calls, u) {
      assert multiset(order)[Event(u, 1)] == StartsAt(calls, u) && multiset(order)[Event(u, -1)] == EndsAt(calls, u);
      forall k | 0 <= k < |order| ensures order[k].ts != u {
        assert k < b ==> order[k].ts <= t;
      }
      assert Event(u, 1) !in order && Event(u, -1) !in order;
    }
    assert Changes(calls, t);
    hide Changes;
  }

  /** Whichever of the tied rows the aggregate takes, its level is that close to the occupancy. */
  lemma TiedWithin(order: seq<Event>, calls: seq<Call>, seriesEnd: int, origin: int, m: nat, i: int)
    requires Tracks(order, calls, seriesEnd) && Counts(order, calls, seriesEnd) && (origin + m + 1) * MINUTE_MS <= seriesEnd
    requires LastTied(order, origin * MINUTE_MS, origin + m, i)
    ensures
      var lo, hi := origin * MINUTE_MS, (origin + m + 1) * MINUTE_MS;
      var c := Occupancy(calls, hi - 1);
      c - Under(calls, lo, hi) <= Level(order, i) <= c + Over(calls, lo, hi)
  {
    var lo, hi := origin * MINUTE_MS, (origin + m + 1) * MINUTE_MS;
    var b := LastOfMinute(order, calls, seriesEnd, origin, m, i);
    LastEventIsLastChange(order, calls, seriesEnd, lo, hi, b);
    TiedLevels(order, i, b);
    CountFrom(order, i, order[b]);
    var t := order[b].ts;
    assert order[b] == Event(t, order[b].delta);
    assert multiset(order)[Event(t, 1)] == StartsAt(calls, t) && multiset(order)[Event(t, -1)] == EndsAt(calls, t);
    if order[b].delta == -1 {
      GroupSpan(order, origin, m, b);
      forall k | 0 <= k < |order| ensures order[k] != Event(t, 1) {
        GroupSpan(order, origin, m, k);
      }
    }
    hide Tracks, Counts, Level, Occupancy, LastTied, StartsAt, EndsAt, Sorted;
  }

  lemma QuietChange(order: seq<Event>, calls: seq<Call>, seriesEnd: int, lo: int, s: int, hi: int)
    requires Counts(order, calls, seriesEnd) && lo <= s <= hi <= seriesEnd
    requires forall i | 0 <= i < |order| :: !(s <= order[i].ts < hi)
    ensures LastChange(calls, lo, hi) == LastChange(calls, lo, s)
    ensures Under(calls, lo, hi) == Under(calls, lo, s) && Over(calls, lo, hi) == Over(calls, lo, s)
  {
    forall u | s <= u < hi ensures !Changes(calls, u) {
      assert multiset(order)[Event(u, 1)] == StartsAt(calls, u) && multiset(order)[Event(u, -1)] == EndsAt(calls, u);
      assert Event(u, 1) !in order && Event(u, -1) !in order;
    }
    hide Changes;
    var a, b := LastChange(calls, lo, hi), LastChange(calls, lo, s);
    assert a.Some? ==> a.value < s;
  }

  /** The chained carry is the occupancy just before the minute, but for what ties leave open. */
  lemma {:induction false} CarryWithin(order: seq<Event>, calls: seq<Call>, seriesEnd: int,
                                       rows: seq<MinuteRow>, origin: int, m: nat)
    requires Tracks(order, calls, seriesEnd) && Counts(order, calls, seriesEnd) && IsMinuteTable(order, origin * MINUTE_MS, rows)
    requires (origin + m) * MINUTE_MS <= seriesEnd
    ensures
      var lo, at := origin * MINUTE_MS, (origin + m) * MINUTE_MS;
      var c, carry := Occupancy(calls, at - 1), CarryInto(Rebased(rows, origin), Occupancy(calls, lo - 1), m);
      c - Under(calls, lo, at) <= carry <= c + Over(calls, lo, at)
  {
    hide IsMinuteTable, Tracks, Counts, Level, MinuteOf, Occupancy, Rebased, Under, Over;
    if m > 0 {
      var from, s, t := origin * MINUTE_MS, (origin + m - 1) * MINUTE_MS, (origin + m) * MINUTE_MS;
      RowOfMinute(order, from, rows, origin, m - 1);
      match LastRow(Rebased(rows, origin), m - 1)
      case None =>
        CarryWithin(order, calls, seriesEnd, rows, origin, m - 1);
        forall i | 0 <= i < |order| ensures !(s <= order[i].ts < t) {
          GroupSpan(order, origin, m - 1, i);
        }
        QuietOccupancy(order, calls, seriesEnd, s - 1, t - 1);
        QuietChange(order, calls, seriesEnd, from, s, t);
      case Some(row) =>
        var i :| LastTied(order, from, origin + m - 1, i) && Level(order, i) == row.levelAtEnd;
        TiedWithin(order, calls, seriesEnd, origin, m - 1, i);
    }
  }

  /**
   * From the exact carry every filled minute is exactly `Shown`: the true maximum, except
   * that calls ending on the opening instant let the level `carry - 1` in.
   */
  lemma ExactCarryIsShown(order: seq<Event>, calls: seq<Call>, seriesEnd: int, rows: seq<MinuteRow>, origin: int, m: nat)
    requires Tracks(order, calls, seriesEnd) && IsMinuteTable(order, origin * MINUTE_MS, rows)
    requires (origin + m + 1) * MINUTE_MS <= seriesEnd
    ensures FillMinute(LastRow(Rebased(rows, origin), m), Occupancy(calls, (origin + m) * MINUTE_MS - 1)) == Shown(calls, origin + m)
  {
    hide IsMinuteTable, Tracks, Level, IsMinuteRow, EmptyGroup;
    var from, at := origin * MINUTE_MS, (origin + m) * MINUTE_MS;
    RowOfMinute(order, from, rows, origin, m);
    MaxOccupancyBounds(calls, at, at + MINUTE_MS);
    match LastRow(Rebased(rows, origin), m)
    case None => QuietMinute(order, calls, seriesEnd, origin, m);
    case Some(row) =>
      PeakUpper(order, calls, seriesEnd, origin, m, row);
      PeakLower(order, calls, seriesEnd, origin, m, row);
  }

  /** A value is the shown one, but for what ties before the minute leave open. */
  ghost predicate Within(value: int, calls: seq<Call>, origin: int, m: nat) {
    var lo, at := origin * MINUTE_MS, (origin + m) * MINUTE_MS;
    Shown(calls, origin + m) - Under(calls, lo, at) <= value <= Shown(calls, origin + m) + Over(calls, lo, at)
  }

  /** Every table the query may return fills every minute with the shown level, but for what ties leave open. */
  lemma FilledWithin(order: seq<Event>, calls: seq<Call>, seriesEnd: int, rows: seq<MinuteRow>, origin: int, m: nat)
    requires Tracks(order, calls, seriesEnd) && Counts(order, calls, seriesEnd) && IsMinuteTable(order, origin * MINUTE_MS, rows)
    requires (origin + m + 1) * MINUTE_MS <= seriesEnd
    ensures Within(Filled(Rebased(rows, origin), Occupancy(calls, origin * MINUTE_MS - 1), m), calls, origin, m)
  {
    hide IsMinuteTable, Tracks, Counts, Shown, Under, Over, Rebased, Occupancy, CarryInto, LastRow;
    CarryWithin(order, calls, seriesEnd, rows, origin, m);
    ExactCarryIsShown(order, calls, seriesEnd, rows, origin, m);
  }

  // ----- exactly when ties cannot matter

  /** With this row and this carry no choice among tied rows changes the minute. */
  predicate Settled(row: Option<MinuteRow>, carry: nat, under: nat, over: nat) {
    match row
    case None => under == 0 && over == 0
    case Some(row) =>
      row.touchesStart || ((under == 0 || carry <= row.peak) && (over == 0 || carry + over <= row.peak))
  }

  function FirstTied(order: seq<Event>, b: nat): (f: nat)
    requires b < |order|
    ensures f <= b && forall k | f <= k <= b :: order[k] == order[b]
    ensures f > 0 ==> order[f - 1] != order[b]
  {
    if b > 0 && order[b - 1] == order[b] then FirstTied(order, b - 1) else b
  }

  /** What the calls say of the last event before `hi`. */
  lemma SlackOfLast(order: seq<Event>, calls: seq<Call>, seriesEnd: int, lo: int, hi: int, b: nat)
    requires Sorted(order) && Counts(order, calls, seriesEnd) && hi <= seriesEnd
    requires b < |order| && lo <= order[b].ts < hi && order[b].delta in {-1, 1}
    requires forall k | b < k < |order| :: order[k].ts >= hi
    ensures order[b].delta == 1 ==>
      Under(calls, lo, hi) + 1 == multiset(order)[order[b]] && Over(calls, lo, hi) == 0
    ensures order[b].delta == -1 ==>
      Over(calls, lo, hi) + 1 == multiset(order)[order[b]] && Under(calls, lo, hi) == 0
  {
    var e := order[b];
    LastEventIsLastChange(order, calls, seriesEnd, lo, hi, b);
    assert e == Event(e.ts, e.delta) && e in multiset(order);
    assert multiset(order)[Event(e.ts, 1)] == StartsAt(calls, e.ts) && multiset(order)[Event(e.ts, -1)] == EndsAt(calls, e.ts);
    if e.delta == -1 {
      forall k | 0 <= k < |order| ensures order[k] != Event(e.ts, 1) {
      }
      assert Event(e.ts, 1) !in order;
    }
    hide Sorted, Counts, StartsAt, EndsAt;
  }

  /** The first of the tied events is as far from the last as the bounds allow. */
  lemma FarthestLevel(order: seq<Event>, calls: seq<Call>, seriesEnd: int, lo: int, hi: int, b: nat)
    requires Sorted(order) && Counts(order, calls, seriesEnd) && hi <= seriesEnd
    requires b < |order| && lo <= order[b].ts < hi && order[b].delta in {-1, 1}
    requires forall k | b < k < |order| :: order[k].ts >= hi
    ensures Level(order, FirstTied(order, b)) == Level(order, b) - Under(calls, lo, hi) + Over(calls, lo, hi)
  {
    var f := FirstTied(order, b);
    hide Level, Counts, FirstTied, Under, Over, StartsAt, EndsAt;
    TiedLevels(order, f, b);
    TiedCount(order, f, b);
    SlackOfLast(order, calls, seriesEnd, lo, hi, b);
  }

  lemma NoneBefore(order: seq<Event>, f: nat, e: Event)
    requires Sorted(order) && f < |order| && order[f] == e && (f > 0 ==> order[f - 1] != e)
    ensures multiset(order[..f])[e] == 0
  {
    forall k | 0 <= k < f ensures order[k] != e {
      assert order[k] == order[f - 1] || order[k].ts < order[f].ts || order[k].delta < order[f].delta;
    }
    assert e !in order[..f];
  }

  lemma NoneAfter(order: seq<Event>, b: nat)
    requires b < |order| && forall k | b < k < |order| :: order[k].ts > order[b].ts
    ensures multiset(order[b + 1..])[order[b]] == 0
  {
    assert order[b] !in order[b + 1..];
  }

  lemma TiedCount(order: seq<Event>, f: nat, b: nat)
    requires Sorted(order) && f <= b < |order| && forall k | f <= k <= b :: order[k] == order[b]
    requires f > 0 ==> order[f - 1] != order[b]
    requires forall k | b < k < |order| :: order[k].ts > order[b].ts
    ensures multiset(order)[order[b]] == b - f + 1
  {
    hide Sorted;
    var e := order[b];
    NoneBefore(order, f, e);
    AllEqual(order[f..b + 1], e);
    NoneAfter(order, b);
    CountFrom(order, f, e);
    CountFrom(order[f..], b + 1 - f, e);
    assert order[f..][..b + 1 - f] == order[f..b + 1] && order[f..][b + 1 - f..] == order[b + 1..];
  }

  lemma {:induction false} AllEqual(s: seq<Event>, e: Event)
    requires forall k | 0 <= k < |s| :: s[k] == e
    ensures multiset(s)[e] == |s|
  {
    if s != [] {
      AllEqual(s[1..], e);
      assert s == [s[0]] + s[1..];
    }
  }

  lemma {:induction false} StartsAlive(calls: seq<Call>, t: int)
    requires ValidCalls(calls)
    ensures StartsAt(calls, t) <= Occupancy(calls, t)
  {
    if calls != [] {
      StartsAlive(calls[1..], t);
    }
  }

  /** Minutes without a row pass the carry on. */
  lemma {:induction false} CarrySkips(rows: seq<MinuteRow>, carryIn: int, q: nat, m: nat)
    requires q <= m && forall k: nat | q <= k < m :: LastRow(rows, k).None?
    ensures CarryInto(rows, carryIn, m) == CarryInto(rows, carryIn, q)
    decreases m - q
  {
    if q < m {
      CarrySkips(rows, carryIn, q, m - 1);
    }
  }

  lemma {:induction false} LastRowIs(rows: seq<MinuteRow>, r: nat)
    requires r < |rows| && forall k | r < k < |rows| :: rows[k].minute != rows[r].minute
    ensures LastRow(rows, rows[r].minute) == Some(rows[r])
  {
    if r < |rows| - 1 {
      LastRowIs(rows[..|rows| - 1], r);
    }
  }

  lemma {:induction false} LastRowElsewhere(rows: seq<MinuteRow>, r: nat, x: MinuteRow, minute: int)
    requires r < |rows| && x.minute == rows[r].minute != minute
    ensures LastRow(rows[r := x], minute) == LastRow(rows, minute)
  {
    var last := |rows| - 1;
    if r < last {
      assert rows[r := x][..last] == rows[..last][r := x];
      LastRowElsewhere(rows[..last], r, x, minute);
    } else {
      assert rows[r := x][..last] == rows[..last];
    }
  }
  lemma ChangeSeen(order: seq<Event>, calls: seq<Call>, seriesEnd: int, t: int)
    requires Tracks(order, calls, seriesEnd) && Counts(order, calls, seriesEnd) && t < seriesEnd
    ensures Changes(calls, t) <==> exists k :: 0 <= k < |order| && order[k].ts == t
  {
    assert multiset(order)[Event(t, 1)] == StartsAt(calls, t) && multiset(order)[Event(t, -1)] == EndsAt(calls, t);
    if Changes(calls, t) {
      assert Event(t, 1) in order || Event(t, -1) in order;
    }
    if exists k :: 0 <= k < |order| && order[k].ts == t {
      var k :| 0 <= k < |order| && order[k].ts == t;
      assert order[k] == Event(t, order[k].delta) && order[k] in multiset(order);
    }
  }

  /** After the last change no event comes and the occupancy stays. */
  lemma QuietAfter(order: seq<Event>, calls: seq<Call>, seriesEnd: int, lo: int, at: int, t: int)
    requires Tracks(order, calls, seriesEnd) && Counts(order, calls, seriesEnd) && at <= seriesEnd
    requires LastChange(calls, lo, at) == Some(t)
    ensures forall k | 0 <= k < |order| :: !(t < order[k].ts < at)
    ensures Occupancy(calls, at - 1) == Occupancy(calls, t)
  {
    forall k | 0 <= k < |order| ensures !(t < order[k].ts < at) {
      if t < order[k].ts < at {
        ChangeSeen(order, calls, seriesEnd, order[k].ts);
      }
    }
    QuietOccupancy(order, calls, seriesEnd, t, at - 1);
  }

  lemma RowWithLevel(order: seq<Event>, from: int, row: MinuteRow, f: nat)
    requires IsMinuteRow(order, from, row) && LastTied(order, from, row.minute, f) && f < |order|
    ensures IsMinuteRow(order, from, row.(levelAtEnd := Level(order, f)))
  {
    hide Level;
  }

  lemma TableWithRow(order: seq<Event>, from: int, rows: seq<MinuteRow>, r: nat, row: MinuteRow)
    requires IsMinuteTable(order, from, rows) && r < |rows|
    requires IsMinuteRow(order, from, row) && row.minute == rows[r].minute
    ensures IsMinuteTable(order, from, rows[r := row])
  {
    hide IsMinuteRow, MinuteOf;
    var other := rows[r := row];
    assert forall q | 0 <= q < |rows| :: other[q].minute == rows[q].minute;
    forall i | 0 <= i < |order| && order[i].ts >= from
      ensures exists q | 0 <= q < |other| :: other[q].minute == MinuteOf(order[i].ts)
    {
      var q :| 0 <= q < |rows| && rows[q].minute == MinuteOf(order[i].ts);
      assert other[q].minute == MinuteOf(order[i].ts);
    }
  }

  /** The last event of the minute of the last change, and the first one tied with it. */
  lemma FarthestEvent(order: seq<Event>, calls: seq<Call>, seriesEnd: int, origin: int, q: nat, i: int, at: int)
    returns (f: nat)
    requires Tracks(order, calls, seriesEnd) && Counts(order, calls, seriesEnd)
    requires LastTied(order, origin * MINUTE_MS, origin + q, i) && (origin + q + 1) * MINUTE_MS <= at <= seriesEnd
    requires
      var t := LastChange(calls, origin * MINUTE_MS, at);
      t.Some? && (origin + q) * MINUTE_MS <= t.value < (origin + q + 1) * MINUTE_MS
    ensures LastTied(order, origin * MINUTE_MS, origin + q, f) && f < |order|
    ensures Level(order, f)
         == Occupancy(calls, at - 1) - Under(calls, origin * MINUTE_MS, at) + Over(calls, origin * MINUTE_MS, at)
  {
    hide Level, Occupancy, SumBefore, MinuteOf, StartsAt, EndsAt, Under, Over, Changes;
    var lo := origin * MINUTE_MS;
    var t := LastChange(calls, lo, at).value;
    var b := LastOfMinute(order, calls, seriesEnd, origin, q, i);
    f := FirstTied(order, b);
    TiedFirst(order, lo, origin + q, i, b, f);
    QuietAfter(order, calls, seriesEnd, lo, at, t);
    assert forall k | b < k < |order| :: order[k].ts >= at;
    hide LastTied;
    FarthestLevel(order, calls, seriesEnd, lo, at, b);
    LevelBeforeQuiet(order, calls, seriesEnd, b, at);
  }

  lemma UnderIsAlive(order: seq<Event>, calls: seq<Call>, seriesEnd: int, lo: int, at: int)
    requires ValidCalls(calls) && Tracks(order, calls, seriesEnd) && Counts(order, calls, seriesEnd) && at <= seriesEnd
    ensures Under(calls, lo, at) <= Occupancy(calls, at - 1)
  {
    hide Tracks, Counts;
    var t := LastChange(calls, lo, at);
    if t.Some? {
      QuietAfter(order, calls, seriesEnd, lo, at, t.value);
      StartsAlive(calls, t.value);
    }
  }

  lemma LevelBeforeQuiet(order: seq<Event>, calls: seq<Call>, seriesEnd: int, b: nat, at: int)
    requires Tracks(order, calls, seriesEnd) && at <= seriesEnd && b < |order| && order[b].ts < at
    requires forall k | b < k < |order| :: order[k].ts >= at
    ensures Level(order, b) == Occupancy(calls, at - 1)
  {
    forall k | 0 <= k < b + 1 ensures order[k].ts < at {
      assert k < b ==> order[k].ts <= order[b].ts;
    }
    PrefixSum(order, b + 1, at);
  }

  lemma TiedFirst(order: seq<Event>, from: int, minute: int, i: nat, b: nat, f: nat)
    requires LastTied(order, from, minute, i) && i <= b < |order| && f <= b && order[i] == order[b] == order[f]
    ensures LastTied(order, from, minute, f)
  {
  }

  /** Some table the query may return carries the farthest level into the minute and is the same otherwise. */
  lemma FarthestTable(order: seq<Event>, calls: seq<Call>, seriesEnd: int, rows: seq<MinuteRow>, origin: int, m: nat)
    returns (other: seq<MinuteRow>)
    requires ValidCalls(calls) && Tracks(order, calls, seriesEnd) && Counts(order, calls, seriesEnd)
    requires IsMinuteTable(order, origin * MINUTE_MS, rows) && (origin + m) * MINUTE_MS <= seriesEnd
    requires LastChange(calls, origin * MINUTE_MS, (origin + m) * MINUTE_MS).Some?
    ensures IsMinuteTable(order, origin * MINUTE_MS, other)
    ensures LastRow(Rebased(other, origin), m) == LastRow(Rebased(rows, origin), m)
    ensures
      var lo, at := origin * MINUTE_MS, (origin + m) * MINUTE_MS;
      CarryInto(Rebased(other, origin), Occupancy(calls, lo - 1), m)
        == Occupancy(calls, at - 1) - Under(calls, lo, at) + Over(calls, lo, at)
  {
    hide Tracks, Counts, IsMinuteRow, Occupancy, Under, Over, InGroup;
    var lo, at := origin * MINUTE_MS, (origin + m) * MINUTE_MS;
    var t := LastChange(calls, lo, at).value;
    var q := MinuteOf(t) - origin;
    MinuteSpan(t, origin + q);
    var r := RowOfChange(order, calls, seriesEnd, lo, rows, t);
    var row := FarthestRow(order, calls, seriesEnd, origin, q, rows[r], at);
    UnderIsAlive(order, calls, seriesEnd, lo, at);
    other := rows[r := row];
    TableWithRow(order, lo, rows, r, row);
    hide IsMinuteTable, MinuteOf, Changes;
    var based := Rebased(rows, origin);
    assert Rebased(other, origin) == based[r := row.(minute := q)];
    LastRowElsewhere(based, r, row.(minute := q), m);
    forall k: nat | q + 1 <= k < m ensures LastRow(Rebased(other, origin), k).None? {
      LastRowElsewhere(based, r, row.(minute := q), k);
      NoRowAfter(order, calls, seriesEnd, rows, origin, k, t, at);
    }
    CarrySkips(Rebased(other, origin), Occupancy(calls, lo - 1), q + 1, m);
    LastRowIs(Rebased(other, origin), r);
  }

  lemma FarthestRow(order: seq<Event>, calls: seq<Call>, seriesEnd: int, origin: int, q: nat, row: MinuteRow, at: int)
    returns (far: MinuteRow)
    requires Tracks(order, calls, seriesEnd) && Counts(order, calls, seriesEnd)
    requires IsMinuteRow(order, origin * MINUTE_MS, row) && row.minute == origin + q
    requires (origin + q + 1) * MINUTE_MS <= at <= seriesEnd
    requires
      var t := LastChange(calls, origin * MINUTE_MS, at);
      t.Some? && (origin + q) * MINUTE_MS <= t.value < (origin + q + 1) * MINUTE_MS
    ensures IsMinuteRow(order, origin * MINUTE_MS, far) && far == row.(levelAtEnd := far.levelAtEnd)
    ensures far.levelAtEnd
         == Occupancy(calls, at - 1) - Under(calls, origin * MINUTE_MS, at) + Over(calls, origin * MINUTE_MS, at)
  {
    hide Tracks, Counts, Level, InGroup, LastTied, Under, Over, Occupancy;
    var i :| LastTied(order, origin * MINUTE_MS, origin + q, i);
    var f := FarthestEvent(order, calls, seriesEnd, origin, q, i, at);
    far := row.(levelAtEnd := Level(order, f));
    RowWithLevel(order, origin * MINUTE_MS, row, f);
  }

  lemma RowOfChange(order: seq<Event>, calls: seq<Call>, seriesEnd: int, from: int, rows: seq<MinuteRow>, t: int)
    returns (r: nat)
    requires Tracks(order, calls, seriesEnd) && Counts(order, calls, seriesEnd) && from <= t < seriesEnd
    requires IsMinuteTable(order, from, rows) && Changes(calls, t)
    ensures r < |rows| && rows[r].minute == MinuteOf(t)
  {
    hide IsMinuteRow, Counts, Changes;
    ChangeSeen(order, calls, seriesEnd, t);
    var k :| 0 <= k < |order| && order[k].ts == t;
    r :| 0 <= r < |rows| && rows[r].minute == MinuteOf(order[k].ts);
  }

  lemma NoRowAfter(order: seq<Event>, calls: seq<Call>, seriesEnd: int, rows: seq<MinuteRow>, origin: int, k: nat, t: int, at: int)
    requires Tracks(order, calls, seriesEnd) && Counts(order, calls, seriesEnd) && IsMinuteTable(order, origin * MINUTE_MS, rows)
    requires at <= seriesEnd && LastChange(calls, origin * MINUTE_MS, at) == Some(t)
    requires t < (origin + k) * MINUTE_MS && (origin + k + 1) * MINUTE_MS <= at
    ensures LastRow(Rebased(rows, origin), k).None?
  {
    var lo := origin * MINUTE_MS;
    QuietAfter(order, calls, seriesEnd, lo, at, t);
    var minute := origin + k;
    forall i | 0 <= i < |order| ensures !InGroup(order, lo, minute, i) {
      GroupSpan(order, origin, k, i);
    }
    hide Tracks, Counts, IsMinuteTable, InGroup;
    RowOfMinute(order, lo, rows, origin, k);
    if LastRow(Rebased(rows, origin), k).Some? {
      RowHasEvent(order, lo, LastRow(Rebased(rows, origin), k).value.(minute := origin + k));
    }
  }

  lemma RowHasEvent(order: seq<Event>, from: int, row: MinuteRow)
    ensures EmptyGroup(order, from, row.minute) ==> !IsMinuteRow(order, from, row)
  {
  }

  lemma RowsAgree(order: seq<Event>, from: int, a: MinuteRow, b: MinuteRow)
    requires IsMinuteRow(order, from, a) && IsMinuteRow(order, from, b) && a.minute == b.minute
    ensures a.peak == b.peak && a.touchesStart == b.touchesStart
  {
    hide Level, InGroup, LastTied;
  }


  lemma QuietMinute(order: seq<Event>, calls: seq<Call>, seriesEnd: int, origin: int, m: nat)
    requires Tracks(order, calls, seriesEnd) && (origin + m + 1) * MINUTE_MS <= seriesEnd
    requires EmptyGroup(order, origin * MINUTE_MS, origin + m)
    ensures Occupancy(calls, (origin + m) * MINUTE_MS - 1) == Shown(calls, origin + m)
  {
    var at := (origin + m) * MINUTE_MS;
    MaxOccupancyBounds(calls, at, at + MINUTE_MS);
    var t :| at <= t < at + MINUTE_MS && Occupancy(calls, t) == TrueMaximum(calls, origin + m);
    forall i | 0 <= i < |order| ensures !(at - 1 < order[i].ts <= t) {
      GroupSpan(order, origin, m, i);
    }
    QuietOccupancy(order, calls, seriesEnd, at - 1, t);
    if EndsAt(calls, at) >= 1 {
      var k := LevelAfterFirstEnd(order, calls, seriesEnd, at);
      GroupSpan(order, origin, m, k);
    }
  }

  lemma TouchesOpening(order: seq<Event>, origin: int, m: nat, row: MinuteRow)
    requires IsMinuteRow(order, origin * MINUTE_MS, row.(minute := origin + m))
    ensures row.touchesStart <==> exists i :: 0 <= i < |order| && order[i].ts == (origin + m) * MINUTE_MS
  {
    var at := (origin + m) * MINUTE_MS;
    if row.touchesStart {
      var i :| InGroup(order, origin * MINUTE_MS, origin + m, i) && order[i].ts % MINUTE_MS == 0;
      MinuteSpan(order[i].ts, origin + m);
    }
    if exists i :: 0 <= i < |order| && order[i].ts == at {
      var i :| 0 <= i < |order| && order[i].ts == at;
      MinuteSpan(order[i].ts, origin + m);
      GroupSpan(order, origin, m, i);
    }
  }

  lemma PeakUpper(order: seq<Event>, calls: seq<Call>, seriesEnd: int, origin: int, m: nat, row: MinuteRow)
    requires Tracks(order, calls, seriesEnd) && (origin + m + 1) * MINUTE_MS <= seriesEnd
    requires IsMinuteRow(order, origin * MINUTE_MS, row.(minute := origin + m))
    ensures row.peak <= Shown(calls, origin + m)
    ensures !row.touchesStart ==> Occupancy(calls, (origin + m) * MINUTE_MS - 1) <= Shown(calls, origin + m)
  {
    var at := (origin + m) * MINUTE_MS;
    MaxOccupancyBounds(calls, at, at + MINUTE_MS);
    var i :| InGroup(order, origin * MINUTE_MS, origin + m, i) && Level(order, i) == row.peak;
    GroupSpan(order, origin, m, i);
    LevelBound(order, calls, seriesEnd, i);
    assert order[i].ts > at ==> at <= order[i].ts - 1 < at + MINUTE_MS;
    if !row.touchesStart {
      TouchesOpening(order, origin, m, row);
      QuietOccupancy(order, calls, seriesEnd, at - 1, at);
    }
  }

  /** Some level of the minute, or the carry into it, is as high as the occupancy at any of its instants. */
  lemma OccupancyIsSeen(order: seq<Event>, calls: seq<Call>, seriesEnd: int, at: int, t: int) returns (i: int)
    requires Tracks(order, calls, seriesEnd) && at <= t < seriesEnd
    ensures i < 0 ==> Occupancy(calls, t) == Occupancy(calls, at - 1)
                      && forall k | 0 <= k < |order| :: order[k].ts != at
    ensures i >= 0 ==> i < |order| && at <= order[i].ts <= t && Level(order, i) == Occupancy(calls, t)
  {
    hide Occupancy, SumBefore, EndsAt, Sum;
    var b := FirstAtLeast(order, t + 1);
    CarryIsPrefix(order, t + 1);
    if b > 0 && order[b - 1].ts >= at {
      i := LevelReaches(order, calls, seriesEnd, b - 1);
      QuietOccupancy(order, calls, seriesEnd, order[b - 1].ts, t);
    } else {
      QuietOccupancy(order, calls, seriesEnd, at - 1, t);
      i := -1;
    }
  }

  lemma PeakLower(order: seq<Event>, calls: seq<Call>, seriesEnd: int, origin: int, m: nat, row: MinuteRow)
    requires Tracks(order, calls, seriesEnd) && (origin + m + 1) * MINUTE_MS <= seriesEnd
    requires IsMinuteRow(order, origin * MINUTE_MS, row.(minute := origin + m))
    ensures Shown(calls, origin + m)
            <= if row.touchesStart then row.peak else Max(Occupancy(calls, (origin + m) * MINUTE_MS - 1), row.peak)
  {
    hide Tracks, Level, Occupancy;
    var from, at := origin * MINUTE_MS, (origin + m) * MINUTE_MS;
    TouchesOpening(order, origin, m, row);
    if EndsAt(calls, at) >= 1 {
      var i := LevelAfterFirstEnd(order, calls, seriesEnd, at);
      GroupSpan(order, origin, m, i);
      assert row.touchesStart && Level(order, i) <= row.peak;
    }
    MaxOccupancyBounds(calls, at, at + MINUTE_MS);
    var t :| at <= t < at + MINUTE_MS && Occupancy(calls, t) == TrueMaximum(calls, origin + m);
    var i := OccupancyIsSeen(order, calls, seriesEnd, at, t);
    if i >= 0 {
      GroupSpan(order, origin, m, i);
      assert Level(order, i) <= row.peak;
    }
  }

  /** Tables differ in the level at the end alone. */
  lemma SameRow(order: seq<Event>, from: int, rows: seq<MinuteRow>, other: seq<MinuteRow>, origin: int, m: nat)
    requires IsMinuteTable(order, from, rows) && IsMinuteTable(order, from, other)
    ensures
      var a, b := LastRow(Rebased(rows, origin), m), LastRow(Rebased(other, origin), m);
      && (a.Some? <==> b.Some?)
      && (a.Some? ==> a.value.peak == b.value.peak && a.value.touchesStart == b.value.touchesStart)
  {
    hide IsMinuteTable, LastRow, Rebased, IsMinuteRow, EmptyGroup;
    RowOfMinute(order, from, rows, origin, m);
    RowOfMinute(order, from, other, origin, m);
    var a, b := LastRow(Rebased(rows, origin), m), LastRow(Rebased(other, origin), m);
    if a.Some? {
      RowHasEvent(order, from, a.value.(minute := origin + m));
    }
    if b.Some? {
      RowHasEvent(order, from, b.value.(minute := origin + m));
    }
    if a.Some? && b.Some? {
      RowsAgree(order, from, a.value.(minute := origin + m), b.value.(minute := origin + m));
    }
  }

  lemma FillSettled(row: Option<MinuteRow>, other: Option<MinuteRow>, carry: nat, taken: nat, under: nat, over: nat)
    requires row.Some? <==> other.Some?
    requires row.Some? ==> row.value.peak == other.value.peak && row.value.touchesStart == other.value.touchesStart
    requires Settled(row, carry, under, over) && carry - under <= taken <= carry + over
    ensures FillMinute(other, taken) == FillMinute(row, carry)
  {
  }

  lemma FillUnsettled(row: Option<MinuteRow>, carry: nat, under: nat, over: nat)
    requires !Settled(row, carry, under, over) && under <= carry && (under == 0 || over == 0)
    ensures FillMinute(row, carry - under + over) != FillMinute(row, carry)
  {
  }

  /** What every table the query may return makes of a minute. */
  ghost predicate AlwaysShown(order: seq<Event>, calls: seq<Call>, origin: int, m: nat) {
    forall rows | IsMinuteTable(order, origin * MINUTE_MS, rows) ::
      Filled(Rebased(rows, origin), Occupancy(calls, origin * MINUTE_MS - 1), m) == Shown(calls, origin + m)
  }

  /** Every table the query may return fills the minute with the shown level if and only if ties cannot matter to it. */
  lemma SettledIff(order: seq<Event>, calls: seq<Call>, seriesEnd: int, rows: seq<MinuteRow>, origin: int, m: nat)
    requires ValidCalls(calls) && Tracks(order, calls, seriesEnd) && Counts(order, calls, seriesEnd)
    requires IsMinuteTable(order, origin * MINUTE_MS, rows) && (origin + m + 1) * MINUTE_MS <= seriesEnd
    ensures
      var lo, at := origin * MINUTE_MS, (origin + m) * MINUTE_MS;
      AlwaysShown(order, calls, origin, m) <==>
        Settled(LastRow(Rebased(rows, origin), m), Occupancy(calls, at - 1), Under(calls, lo, at), Over(calls, lo, at))
  {
    hide IsMinuteTable, Tracks, Counts, Shown, Occupancy, CarryInto, LastRow, Rebased, Settled, FillMinute, Under, Over;
    var lo, at := origin * MINUTE_MS, (origin + m) * MINUTE_MS;
    var c, under, over := Occupancy(calls, at - 1), Under(calls, lo, at), Over(calls, lo, at);
    var row := LastRow(Rebased(rows, origin), m);
    ExactCarryIsShown(order, calls, seriesEnd, rows, origin, m);
    OneSided(calls, lo, at);
    if Settled(row, c, under, over) {
      forall other | IsMinuteTable(order, lo, other)
        ensures Filled(Rebased(other, origin), Occupancy(calls, lo - 1), m) == Shown(calls, origin + m)
      {
        SameRow(order, lo, rows, other, origin, m);
        CarryWithin(order, calls, seriesEnd, other, origin, m);
        FillSettled(row, LastRow(Rebased(other, origin), m), c,
          CarryInto(Rebased(other, origin), Occupancy(calls, lo - 1), m), under, over);
      }
    } else {
      NothingLeftOpen(row, c, calls, lo, at);
      var other := FarthestTable(order, calls, seriesEnd, rows, origin, m);
      UnderIsAlive(order, calls, seriesEnd, lo, at);
      FillUnsettled(row, c, under, over);
      assert Filled(Rebased(other, origin), Occupancy(calls, lo - 1), m) != Shown(calls, origin + m);
    }
  }

  lemma OneSided(calls: seq<Call>, lo: int, at: int)
    ensures Under(calls, lo, at) == 0 || Over(calls, lo, at) == 0
  {
  }

  lemma NothingLeftOpen(row: Option<MinuteRow>, carry: nat, calls: seq<Call>, lo: int, at: int)
    ensures LastChange(calls, lo, at).None? ==> Settled(row, carry, Under(calls, lo, at), Over(calls, lo, at))
  {
  }
}
