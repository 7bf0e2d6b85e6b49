/**
 * The two dashboard charts drawn from one sweep: today, and the rolling two hours.
 */
module Charts {
  import opened Wrappers
  import opened Sweep

  const TWO_HOUR_MINUTES := 120

  datatype Window = Window(
    dayStart: int, dayEnd: int, lookbackStart: int, seriesEnd: int, minuteCount: int,
    recentStart: int, scanStart: int)

  /** Day and rolling two hours from one instant. Midnight is a multiple of a day since the epoch. */
  function UtcCallWindow(now: int): Window {
    var dayStart := now / DAY_MS * DAY_MS;
    var elapsed := (now - dayStart) / MINUTE_MS;
    var minuteCount := Min(1440, Max(1, elapsed + 1));
    var seriesEnd := dayStart + minuteCount * MINUTE_MS;
    var recentStart := seriesEnd - TWO_HOUR_MINUTES * MINUTE_MS;
    Window(dayStart, dayStart + DAY_MS, dayStart - DAY_MS, seriesEnd, minuteCount,
           recentStart, Min(dayStart - DAY_MS, recentStart - DAY_MS))
  }

  /** The open minute is the last of both series, and both begin a full day after the scan. */
  lemma WindowFacts(now: int)
    ensures
      var w := UtcCallWindow(now);
      && 1 <= w.minuteCount <= 1440
      && w.seriesEnd - MINUTE_MS <= now < w.seriesEnd <= w.dayEnd
      && w.dayStart % MINUTE_MS == 0 && w.recentStart % MINUTE_MS == 0
      && w.seriesEnd == w.recentStart + TWO_HOUR_MINUTES * MINUTE_MS
      && w.scanStart + DAY_MS <= w.dayStart && w.scanStart + DAY_MS <= w.recentStart
  {
    var day := now / DAY_MS;
    assert day * DAY_MS == (day * 1440) * MINUTE_MS;
    assert UtcCallWindow(now).recentStart
        == (day * 1440 + UtcCallWindow(now).minuteCount - TWO_HOUR_MINUTES) * MINUTE_MS;
  }

  // ----- which records the query reads

  /** A call detail record: start, and elapsed milliseconds (0 when the field is not a number). */
  datatype Cdr = Cdr(cdrAt: int, elapsedMs: int)

  function CallOf(r: Cdr): Call {
    Call(r.cdrAt, r.cdrAt + Min(r.elapsedMs, DAY_MS))
  }

  function AllCalls(records: seq<Cdr>): (calls: seq<Call>)
    ensures ValidCalls(calls)
  {
    if records == [] then []
    else if records[0].elapsedMs > 0 then [CallOf(records[0])] + AllCalls(records[1..])
    else AllCalls(records[1..])
  }

  /** `WHERE "cdrAt" >= scanStart AND "cdrAt" < dayEnd`, then `WHERE ms > 0`. */
  function Scanned(records: seq<Cdr>, scanStart: int, dayEnd: int): seq<Cdr> {
    if records == [] then []
    else if scanStart <= records[0].cdrAt < dayEnd then [records[0]] + Scanned(records[1..], scanStart, dayEnd)
    else Scanned(records[1..], scanStart, dayEnd)
  }

  lemma {:induction false} ScanIsEnough(records: seq<Cdr>, scanStart: int, dayEnd: int, t: int)
    requires t < dayEnd
    ensures scanStart + DAY_MS - 1 <= t ==>
      Occupancy(AllCalls(Scanned(records, scanStart, dayEnd)), t) == Occupancy(AllCalls(records), t)
    ensures scanStart + DAY_MS <= t ==>
      EndsAt(AllCalls(Scanned(records, scanStart, dayEnd)), t) == EndsAt(AllCalls(records), t)
    ensures scanStart <= t ==>
      StartsAt(AllCalls(Scanned(records, scanStart, dayEnd)), t) == StartsAt(AllCalls(records), t)
  {
    if records != [] {
      var rest := Scanned(records[1..], scanStart, dayEnd);
      ScanIsEnough(records[1..], scanStart, dayEnd, t);
      if scanStart <= records[0].cdrAt < dayEnd {
        assert ([records[0]] + rest)[1..] == rest;
      }
      CountCons(records[0], rest, t);
      CountCons(records[0], records[1..], t);
      assert [records[0]] + records[1..] == records;
    }
  }

  lemma CountCons(r: Cdr, rest: seq<Cdr>, t: int)
    ensures
      var alive := r.elapsedMs > 0 && CallOf(r).start <= t < CallOf(r).end;
      Occupancy(AllCalls([r] + rest), t) == (if alive then 1 else 0) + Occupancy(AllCalls(rest), t)
    ensures
      var ends := r.elapsedMs > 0 && CallOf(r).end == t;
      EndsAt(AllCalls([r] + rest), t) == (if ends then 1 else 0) + EndsAt(AllCalls(rest), t)
    ensures
      var starts := r.elapsedMs > 0 && r.cdrAt == t;
      StartsAt(AllCalls([r] + rest), t) == (if starts then 1 else 0) + StartsAt(AllCalls(rest), t)
  {
    assert ([r] + rest)[1..] == rest;
    if r.elapsedMs > 0 {
      assert ([CallOf(r)] + AllCalls(rest))[1..] == AllCalls(rest);
    }
  }

  lemma {:induction false} MaxOccupancySame(a: seq<Call>, b: seq<Call>, lo: int, hi: int)
    requires lo < hi && forall t | lo <= t < hi :: Occupancy(a, t) == Occupancy(b, t)
    ensures MaxOccupancy(a, lo, hi) == MaxOccupancy(b, lo, hi)
    decreases hi - lo
  {
    if lo + 1 < hi {
      MaxOccupancySame(a, b, lo + 1, hi);
    }
  }

  /** No record outside the scanned range can change a shown minute: a call lasts at most a day. */
  lemma ScanCannotMatter(records: seq<Cdr>, w: Window, minute: int)
    requires w.scanStart + DAY_MS <= minute * MINUTE_MS && (minute + 1) * MINUTE_MS <= w.dayEnd
    ensures Shown(AllCalls(Scanned(records, w.scanStart, w.dayEnd)), minute) == Shown(AllCalls(records), minute)
  {
    var scanned, all := AllCalls(Scanned(records, w.scanStart, w.dayEnd)), AllCalls(records);
    var at := minute * MINUTE_MS;
    forall t | at - 1 <= t < at + MINUTE_MS ensures Occupancy(scanned, t) == Occupancy(all, t) {
      ScanIsEnough(records, w.scanStart, w.dayEnd, t);
    }
    ScanIsEnough(records, w.scanStart, w.dayEnd, at);
    MaxOccupancySame(scanned, all, at, at + MINUTE_MS);
  }

  /** Nor what ties leave open. */
  lemma {:induction false} ScanKeepsTies(records: seq<Cdr>, w: Window, lo: int, hi: int)
    requires w.scanStart + DAY_MS <= lo && hi <= w.dayEnd
    ensures
      var scanned, all := AllCalls(Scanned(records, w.scanStart, w.dayEnd)), AllCalls(records);
      && LastChange(scanned, lo, hi) == LastChange(all, lo, hi)
      && Under(scanned, lo, hi) == Under(all, lo, hi) && Over(scanned, lo, hi) == Over(all, lo, hi)
    decreases if hi > lo then hi - lo else 0
  {
    hide AllCalls, Scanned, StartsAt, EndsAt;
    if hi > lo {
      ScanIsEnough(records, w.scanStart, w.dayEnd, hi - 1);
      ScanKeepsTies(records, w, lo, hi - 1);
    }
  }

  // ----- from the query's answer to the two series

  /** One answer of the query for these records and bounds. */
  datatype Answer = Answer(dayCarry: int, recentCarry: int, dayRows: seq<MinuteRow>, recentRows: seq<MinuteRow>)

  ghost predicate IsAnswer(records: seq<Cdr>, w: Window, order: seq<Event>, a: Answer) {
    var calls := AllCalls(Scanned(records, w.scanStart, w.dayEnd));
    && IsRunning(order, Events(calls), w.seriesEnd)
    && IsMinuteTable(order, w.dayStart, a.dayRows)
    && IsMinuteTable(order, w.recentStart, a.recentRows)
    && a.dayCarry == SumBefore(Events(calls), w.dayStart)
    && a.recentCarry == SumBefore(Events(calls), w.recentStart)
  }

  /**
   * A minute list as it comes back: `None` when it is no list, an item `None` when it is no
   * object or lacks one of its numbers.
   */
  type RawList = Option<seq<Option<MinuteRow>>>

  ghost predicate Malformed(raw: RawList) {
    raw.None? || exists i | 0 <= i < |raw.value| :: raw.value[i].None?
  }

  ghost function Parsed(raw: RawList): (rows: seq<MinuteRow>)
    requires !Malformed(raw)
    ensures |rows| == |raw.value| && forall i | 0 <= i < |rows| :: raw.value[i] == Some(rows[i])
  {
    seq(|raw.value|, i requires 0 <= i < |raw.value| => raw.value[i].value)
  }

  /** Minute keys become minutes since the origin; one malformed item refuses the list. */
  method ParseMinuteEvents(raw: RawList, originMinute: int) returns (events: Option<seq<MinuteRow>>)
    ensures events.None? <==> Malformed(raw)
    ensures events.Some? ==> events.value == Rebased(Parsed(raw), originMinute)
  {
    if raw.None? {
      return None;
    }
    var items := raw.value;
    var out: seq<MinuteRow> := [];
    for k := 0 to |items|
      invariant |out| == k
      invariant forall i | 0 <= i < k :: items[i].Some?
      invariant forall i | 0 <= i < k :: out[i] == items[i].value.(minute := items[i].value.minute - originMinute)
    {
      if items[k].None? {
        return None;
      }
      out := out + [items[k].value.(minute := items[k].value.minute - originMinute)];
    }
    assert out == Rebased(Parsed(raw), originMinute);
    return Some(out);
  }

  method BuildSeries(minuteCount: int, originMinute: int, carry: int, raw: RawList) returns (series: array?<int>)
    ensures series == null <==> Malformed(raw)
    ensures series != null ==>
      && fresh(series) && series.Length == ClampCount(minuteCount)
      && forall m | 0 <= m < series.Length :: series[m] == Filled(Rebased(Parsed(raw), originMinute), carry, m)
  {
    var events := ParseMinuteEvents(raw, originMinute);
    if events.None? {
      return null;
    }
    series := FillConcurrencyMinutes(minuteCount, carry, events.value);
  }

  /** The largest of the minutes, 0 when there are none. */
  ghost predicate IsPeak(peak: int, minutes: array<int>)
    reads minutes
  {
    && 0 <= peak && (forall m | 0 <= m < minutes.Length :: minutes[m] <= peak)
    && (peak == 0 || exists m | 0 <= m < minutes.Length :: minutes[m] == peak)
  }

  method SeriesPeak(minutes: array<int>) returns (peak: int)
    ensures IsPeak(peak, minutes)
  {
    peak := 0;
    for k := 0 to minutes.Length
      invariant 0 <= peak && forall m | 0 <= m < k :: minutes[m] <= peak
      invariant peak == 0 || exists m | 0 <= m < k :: minutes[m] == peak
    {
      peak := Max(peak, minutes[k]);
    }
  }

  /** The answer's one row; a carry that is no number counts as 0. */
  datatype CallSeriesRow = CallSeriesRow(
    dayCarry: Option<int>, recentCarry: Option<int>, dayMinutes: RawList, recentMinutes: RawList)

  function AsInt(value: Option<int>): int {
    if value.Some? then value.value else 0
  }

  /** What a row says when both of its lists can be read. */
  ghost function Said(row: CallSeriesRow): Answer
    requires !Malformed(row.dayMinutes) && !Malformed(row.recentMinutes)
  {
    Answer(AsInt(row.dayCarry), AsInt(row.recentCarry), Parsed(row.dayMinutes), Parsed(row.recentMinutes))
  }

  datatype DashboardCalls =
    | Unavailable
    | Ready(minutes: array<int>, peak: int, recentMinutes: array<int>, recentPeak: int)

  /** Each minute shows the level of all records, but for what ties before it leave open. */
  ghost predicate ShowsRecords(c: DashboardCalls, w: Window, records: seq<Cdr>)
    requires c.Ready?
    reads c.minutes, c.recentMinutes
  {
    && (forall i | 0 <= i < c.minutes.Length ::
          Within(c.minutes[i], AllCalls(records), w.dayStart / MINUTE_MS, i))
    && (forall i | 0 <= i < c.recentMinutes.Length ::
          Within(c.recentMinutes[i], AllCalls(records), w.recentStart / MINUTE_MS, i))
  }

  /**
   * The charts are unavailable exactly without a row or with a list that cannot be read.
   * Otherwise, when the row is the query's answer for some records, both charts show, for
   * each of their minutes, the level that all records, scanned or not, give that minute,
   * but for what ties before it leave open.
   */
  method SeriesFromRows(now: int, row: Option<CallSeriesRow>, ghost records: seq<Cdr>, ghost order: seq<Event>)
    returns (calls: DashboardCalls)
    ensures calls.Unavailable? <==>
      row.None? || Malformed(row.value.dayMinutes) || Malformed(row.value.recentMinutes)
    ensures calls.Ready? ==>
      && calls.minutes.Length == UtcCallWindow(now).minuteCount && calls.recentMinutes.Length == TWO_HOUR_MINUTES
      && IsPeak(calls.peak, calls.minutes) && IsPeak(calls.recentPeak, calls.recentMinutes)
      && (IsAnswer(records, UtcCallWindow(now), order, Said(row.value)) ==>
            ShowsRecords(calls, UtcCallWindow(now), records))
  {
    hide IsAnswer, IsRunning, IsMinuteTable, Filled, Within, AllCalls, Malformed, Rebased;
    if row.None? {
      return Unavailable;
    }
    var r := row.value;
    var w := UtcCallWindow(now);
    WindowFacts(now);
    var day := BuildSeries(w.minuteCount, w.dayStart / MINUTE_MS, AsInt(r.dayCarry), r.dayMinutes);
    var recent := BuildSeries(TWO_HOUR_MINUTES, w.recentStart / MINUTE_MS, AsInt(r.recentCarry), r.recentMinutes);
    if day == null || recent == null {
      return Unavailable;
    }
    var peak := SeriesPeak(day);
    var recentPeak := SeriesPeak(recent);
    calls := Ready(day, peak, recent, recentPeak);
    ghost var a := Said(r);
    if IsAnswer(records, w, order, a) {
      forall i | 0 <= i < w.minuteCount
        ensures Within(Filled(Rebased(a.dayRows, w.dayStart / MINUTE_MS), a.dayCarry, i),
          AllCalls(records), w.dayStart / MINUTE_MS, i)
      {
        DayMinute(now, records, order, a, i);
      }
      forall i | 0 <= i < TWO_HOUR_MINUTES
        ensures Within(Filled(Rebased(a.recentRows, w.recentStart / MINUTE_MS), a.recentCarry, i),
          AllCalls(records), w.recentStart / MINUTE_MS, i)
      {
        RecentMinute(now, records, order, a, i);
      }
    }
  }

  lemma MinuteIsShown(records: seq<Cdr>, w: Window, order: seq<Event>, origin: int, carry: int, rows: seq<MinuteRow>, m: nat)
    requires
      var calls := AllCalls(Scanned(records, w.scanStart, w.dayEnd));
      && IsRunning(order, Events(calls), w.seriesEnd)
      && IsMinuteTable(order, origin * MINUTE_MS, rows)
      && carry == SumBefore(Events(calls), origin * MINUTE_MS)
    requires w.scanStart + DAY_MS <= origin * MINUTE_MS
    requires (origin + m + 1) * MINUTE_MS <= w.seriesEnd <= w.dayEnd
    ensures Within(Filled(Rebased(rows, origin), carry, m), AllCalls(records), origin, m)
  {
    hide IsRunning, IsMinuteTable, Tracks, Counts, Events, Filled, Shown, Occupancy, SumBefore, AllCalls, Scanned, Rebased, Under, Over;
    var calls := AllCalls(Scanned(records, w.scanStart, w.dayEnd));
    RunningTracks(order, calls, w.seriesEnd);
    RunningCounts(order, calls, w.seriesEnd);
    SumBeforeIsOccupancy(calls, origin * MINUTE_MS);
    FilledWithin(order, calls, w.seriesEnd, rows, origin, m);
    ScanCannotMatter(records, w, origin + m);
    ScanKeepsTies(records, w, origin * MINUTE_MS, (origin + m) * MINUTE_MS);
  }

  lemma DayMinute(now: int, records: seq<Cdr>, order: seq<Event>, a: Answer, i: nat)
    requires IsAnswer(records, UtcCallWindow(now), order, a) && i < UtcCallWindow(now).minuteCount
    ensures
      var origin := UtcCallWindow(now).dayStart / MINUTE_MS;
      Within(Filled(Rebased(a.dayRows, origin), a.dayCarry, i), AllCalls(records), origin, i)
  {
    hide IsRunning, IsMinuteTable, Events, Filled, Within, SumBefore, AllCalls, Scanned, Rebased;
    WindowFacts(now);
    var w := UtcCallWindow(now);
    assert w.dayStart / MINUTE_MS * MINUTE_MS == w.dayStart;
    MinuteIsShown(records, w, order, w.dayStart / MINUTE_MS, a.dayCarry, a.dayRows, i);
  }

  lemma RecentMinute(now: int, records: seq<Cdr>, order: seq<Event>, a: Answer, i: nat)
    requires IsAnswer(records, UtcCallWindow(now), order, a) && i < TWO_HOUR_MINUTES
    ensures
      var origin := UtcCallWindow(now).recentStart / MINUTE_MS;
      Within(Filled(Rebased(a.recentRows, origin), a.recentCarry, i), AllCalls(records), origin, i)
  {
    hide IsRunning, IsMinuteTable, Events, Filled, Within, SumBefore, AllCalls, Scanned, Rebased;
    WindowFacts(now);
    var w := UtcCallWindow(now);
    assert w.recentStart / MINUTE_MS * MINUTE_MS == w.recentStart;
    MinuteIsShown(records, w, order, w.recentStart / MINUTE_MS, a.recentCarry, a.recentRows, i);
  }

  /** A series that starts later has the same ties before it, or none. */
  lemma LaterOrigin(calls: seq<Call>, early: int, late: int, hi: int)
    requires early <= late
    ensures LastChange(calls, late, hi) == LastChange(calls, early, hi) || LastChange(calls, late, hi).None?
    ensures Under(calls, late, hi) in {0, Under(calls, early, hi)} && Over(calls, late, hi) in {0, Over(calls, early, hi)}
  {
    hide Changes;
  }

  /**
   * On every absolute minute they share the charts differ at most by what ties before it
   * leave open, and so not at all when one event comes last, though their carries are reached differently.
   */
  lemma ChartsAgree(now: int, records: seq<Cdr>, order: seq<Event>, a: Answer, i: nat, j: nat)
    requires IsAnswer(records, UtcCallWindow(now), order, a)
    requires i < UtcCallWindow(now).minuteCount && j < TWO_HOUR_MINUTES
    requires UtcCallWindow(now).dayStart / MINUTE_MS + i == UtcCallWindow(now).recentStart / MINUTE_MS + j
    ensures
      var w := UtcCallWindow(now);
      var day := Filled(Rebased(a.dayRows, w.dayStart / MINUTE_MS), a.dayCarry, i);
      var recent := Filled(Rebased(a.recentRows, w.recentStart / MINUTE_MS), a.recentCarry, j);
      var at := (w.dayStart / MINUTE_MS + i) * MINUTE_MS;
      var open: int := TiesOpen(AllCalls(records), Min(w.dayStart, w.recentStart), at);
      -open <= day - recent <= open
  {
    hide IsAnswer, Filled, Shown, AllCalls, UtcCallWindow, Under, Over;
    WindowStarts(now);
    DayMinute(now, records, order, a, i);
    RecentMinute(now, records, order, a, j);
    var w := UtcCallWindow(now);
    var early, at := Min(w.dayStart, w.recentStart), (w.dayStart / MINUTE_MS + i) * MINUTE_MS;
    LaterOrigin(AllCalls(records), early, w.dayStart, at);
    LaterOrigin(AllCalls(records), early, w.recentStart, at);
    OneSided(AllCalls(records), early, at);
  }

  lemma WindowStarts(now: int)
    ensures
      var w := UtcCallWindow(now);
      w.dayStart / MINUTE_MS * MINUTE_MS == w.dayStart && w.recentStart / MINUTE_MS * MINUTE_MS == w.recentStart
  {
    WindowFacts(now);
  }

  /** All but one of the calls that start last before `hi`, or, if none starts then, that end last. */
  function TiesOpen(calls: seq<Call>, lo: int, hi: int): nat {
    Under(calls, lo, hi) + Over(calls, lo, hi)
  }

  // ----- how far the shown value is from the true maximum

  lemma {:induction false} OneInstant(calls: seq<Call>, t: int)
    requires ValidCalls(calls)
    ensures Occupancy(calls, t) >= Occupancy(calls, t - 1) - EndsAt(calls, t)
  {
    if calls != [] {
      OneInstant(calls[1..], t);
    }
  }

  /**
   * A shown minute never undercounts, overcounts at most up to `carry - 1`, and is exact
   * precisely when at most one call ends on its opening instant or the minute gets that busy anyway.
   */
  lemma ShownBounds(calls: seq<Call>, minute: int)
    requires ValidCalls(calls)
    ensures
      var carry := Occupancy(calls, minute * MINUTE_MS - 1);
      var most := TrueMaximum(calls, minute);
      && most <= Shown(calls, minute) <= Max(most, carry - 1)
      && (Shown(calls, minute) == most <==> EndsAt(calls, minute * MINUTE_MS) <= 1 || carry - 1 <= most)
  {
    var at := minute * MINUTE_MS;
    MaxOccupancyBounds(calls, at, at + MINUTE_MS);
    OneInstant(calls, at);
    assert Occupancy(calls, at) <= TrueMaximum(calls, minute);
  }

  lemma {:induction false} BeforeSplit(early: seq<Event>, late: seq<Event>, t: int)
    requires forall i | 0 <= i < |early| :: early[i].ts < t
    requires forall i | 0 <= i < |late| :: late[i].ts >= t
    ensures Before(early + late, t) == early
    decreases |early|, |late|
  {
    if early != [] {
      assert (early + late)[1..] == early[1..] + late;
      BeforeSplit(early[1..], late, t);
    } else if late != [] {
      assert [] + late == late && [] + late[1..] == late[1..];
      BeforeSplit([], late[1..], t);
    }
  }

  // Two calls of one minute that both end on the next minute's opening instant.
  const TWO_CALLS := [Call(0, MINUTE_MS), Call(0, MINUTE_MS)]
  const TWO_ORDER := [Event(0, 1), Event(0, 1), Event(MINUTE_MS, -1), Event(MINUTE_MS, -1)]
  const TWO_ROWS := [MinuteRow(0, 2, 2, true), MinuteRow(1, 1, 0, true)]

  lemma EventsCons(c: Call, rest: seq<Call>)
    ensures Starts([c] + rest) == [Event(c.start, 1)] + Starts(rest)
    ensures Ends([c] + rest) == [Event(c.end, -1)] + Ends(rest)
    ensures rest == [] ==> Starts(rest) == [] && Ends(rest) == []
  {
    assert ([c] + rest)[1..] == rest;
  }

  lemma TwoEndsOrder()
    ensures IsRunning(TWO_ORDER, Events(TWO_CALLS), 2 * MINUTE_MS)
  {
    var one := [Call(0, MINUTE_MS)];
    assert one == [Call(0, MINUTE_MS)] + [] && TWO_CALLS == [Call(0, MINUTE_MS)] + one;
    EventsCons(Call(0, MINUTE_MS), []);
    EventsCons(Call(0, MINUTE_MS), one);
    hide Starts, Ends;
    assert Events(TWO_CALLS) == TWO_ORDER;
    BeforeSplit(TWO_ORDER, [], 2 * MINUTE_MS);
    assert TWO_ORDER + [] == TWO_ORDER;
  }

  lemma TwoEndsLevels()
    ensures Level(TWO_ORDER, 0) == 1 && Level(TWO_ORDER, 1) == 2
    ensures Level(TWO_ORDER, 2) == 1 && Level(TWO_ORDER, 3) == 0
  {
    forall i | 0 <= i < 4 ensures Level(TWO_ORDER, i) == Sum(TWO_ORDER[..i]) + TWO_ORDER[i].delta {
      SumSplit(TWO_ORDER, i, i + 1);
      assert TWO_ORDER[i..i + 1] == [TWO_ORDER[i]] && [TWO_ORDER[i]][1..] == [];
    }
  }

  lemma TwoEndsTable()
    ensures IsMinuteTable(TWO_ORDER, 0, TWO_ROWS)
  {
    TwoEndsLevels();
    assert TWO_ROWS[0].minute == MinuteOf(0) && TWO_ROWS[1].minute == MinuteOf(MINUTE_MS);
    assert InGroup(TWO_ORDER, 0, 0, 1) && LastTied(TWO_ORDER, 0, 0, 1);
    assert InGroup(TWO_ORDER, 0, 1, 2) && LastTied(TWO_ORDER, 0, 1, 3);
    assert IsMinuteRow(TWO_ORDER, 0, TWO_ROWS[0]) && IsMinuteRow(TWO_ORDER, 0, TWO_ROWS[1]);
  }

  lemma TwoEndsQuiet()
    ensures TrueMaximum(TWO_CALLS, 1) == 0
  {
    hide MaxOccupancy;
    MaxOccupancyBounds(TWO_CALLS, MINUTE_MS, 2 * MINUTE_MS);
    var t :| MINUTE_MS <= t < 2 * MINUTE_MS && Occupancy(TWO_CALLS, t) == TrueMaximum(TWO_CALLS, 1);
    assert TWO_CALLS[1..] == [Call(0, MINUTE_MS)] && TWO_CALLS[1..][1..] == [];
    assert Occupancy(TWO_CALLS[1..], t) == 0;
  }

  /** They leave a 1 in the next minute, in which no call is alive. */
  lemma TwoEndsOvercount()
    ensures IsRunning(TWO_ORDER, Events(TWO_CALLS), 2 * MINUTE_MS) && IsMinuteTable(TWO_ORDER, 0, TWO_ROWS)
    ensures Filled(TWO_ROWS, 0, 1) == 1 && TrueMaximum(TWO_CALLS, 1) == 0
  {
    TwoEndsOrder();
    TwoEndsTable();
    TwoEndsQuiet();
    hide IsRunning, IsMinuteTable, TrueMaximum, Events;
    assert TWO_ROWS[..1] == [TWO_ROWS[0]];
    assert LastRow(TWO_ROWS, 1) == Some(TWO_ROWS[1]);
  }

  // Two calls of three minutes that start together; the query may keep either level of their minute.
  const TWO_LONG := [Call(0, 3 * MINUTE_MS), Call(0, 3 * MINUTE_MS)]
  const TWO_STARTS := [Event(0, 1), Event(0, 1)]

  function StartsRow(levelAtEnd: int): MinuteRow {
    MinuteRow(0, 2, levelAtEnd, true)
  }

  lemma StartsRowIs(i: nat)
    requires i < 2
    ensures IsMinuteRow(TWO_STARTS, 0, StartsRow(i + 1))
  {
    assert TWO_STARTS[..1] == [Event(0, 1)] && TWO_STARTS[..2] == TWO_STARTS;
    assert Level(TWO_STARTS, 0) == 1 && Level(TWO_STARTS, 1) == 2;
    hide Level;
    assert InGroup(TWO_STARTS, 0, 0, 1) && LastTied(TWO_STARTS, 0, 0, i);
  }

  lemma StartsTable(i: nat)
    requires i < 2
    ensures IsMinuteTable(TWO_STARTS, 0, [StartsRow(i + 1)])
  {
    StartsRowIs(i);
    hide IsMinuteRow;
    assert [StartsRow(i + 1)][0].minute == 0;
  }

  const LONG_END := Event(3 * MINUTE_MS, -1)

  lemma TwoLongEvents()
    ensures Events(TWO_LONG) == TWO_STARTS + [LONG_END, LONG_END]
  {
    var one := [TWO_LONG[0]];
    assert one == [TWO_LONG[0]] + [] && TWO_LONG == [TWO_LONG[0]] + one;
    EventsCons(TWO_LONG[0], []);
    EventsCons(TWO_LONG[0], one);
    hide Starts, Ends;
  }

  lemma TwoStartsOrder()
    ensures IsRunning(TWO_STARTS, Events(TWO_LONG), 2 * MINUTE_MS)
  {
    hide Events, Before;
    TwoLongEvents();
    BeforeSplit(TWO_STARTS, [LONG_END, LONG_END], 2 * MINUTE_MS);
  }

  lemma StartsFilled(levelAtEnd: nat)
    ensures Filled([StartsRow(levelAtEnd)], 0, 1) == levelAtEnd
  {
    var rows := [StartsRow(levelAtEnd)];
    assert rows[..0] == [];
    assert LastRow(rows, 1) == None && LastRow(rows, 0) == Some(rows[0]);
  }

  lemma TwoStartsBusy()
    ensures TrueMaximum(TWO_LONG, 1) == 2
  {
    MaxOccupancyBounds(TWO_LONG, MINUTE_MS, 2 * MINUTE_MS);
    hide MaxOccupancy;
    var t :| MINUTE_MS <= t < 2 * MINUTE_MS && Occupancy(TWO_LONG, t) == TrueMaximum(TWO_LONG, 1);
    assert TWO_LONG[1..] == [Call(0, 3 * MINUTE_MS)] && TWO_LONG[1..][1..] == [];
    assert Occupancy(TWO_LONG[1..], t) == 1;
  }

  /** The next minute then shows 1 or 2 of the two calls that are alive throughout it. */
  lemma TwoStartsLeftOpen()
    ensures IsRunning(TWO_STARTS, Events(TWO_LONG), 2 * MINUTE_MS) && TrueMaximum(TWO_LONG, 1) == 2
    ensures IsMinuteTable(TWO_STARTS, 0, [StartsRow(1)]) && Filled([StartsRow(1)], 0, 1) == 1
    ensures IsMinuteTable(TWO_STARTS, 0, [StartsRow(2)]) && Filled([StartsRow(2)], 0, 1) == 2
  {
    hide IsRunning, IsMinuteTable, TrueMaximum, Filled, Events;
    TwoStartsOrder();
    StartsTable(0);
    StartsTable(1);
    StartsFilled(1);
    StartsFilled(2);
    TwoStartsBusy();
  }
}
