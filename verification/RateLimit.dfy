/** The in-memory sliding-window rate limiter, with time in whole milliseconds. */
module RateLimit {
  import opened Wrappers

  datatype Outcome = Outcome(allowed: bool, remaining: nat, retryAfterSec: nat)

  datatype Call = Call(key: string, now: int)

  // ----- one decision

  function Recent(hits: seq<int>, cutoff: int): seq<int> {
    if hits == [] then []
    else if hits[|hits| - 1] > cutoff then Recent(hits[..|hits| - 1], cutoff) + [hits[|hits| - 1]]
    else Recent(hits[..|hits| - 1], cutoff)
  }

  /** `Math.ceil(ms / 1000)`. */
  function CeilSeconds(ms: int): int {
    (ms + 999) / 1000
  }

  /** The decision on a list of earlier hits. */
  function Decision(limit: nat, windowMs: int, hits: seq<int>, now: int): Outcome {
    var recent := Recent(hits, now - windowMs);
    if |recent| >= limit then
      var oldest := if recent == [] then now else recent[0];
      Outcome(false, 0, Max(1, CeilSeconds(oldest + windowMs - now)))
    else Outcome(true, Max(0, limit - (|recent| + 1)), 0)
  }

  function HitsOf(hits: map<string, seq<int>>, key: string): seq<int> {
    if key in hits then hits[key] else []
  }

  // ----- the code

  class SlidingWindowRateLimiter {
    var hits: map<string, seq<int>>
    const limit: nat
    const windowMs: int

    constructor (limit: nat, windowMs: int)
      ensures this.limit == limit && this.windowMs == windowMs && hits == map[]
    {
      this.limit, this.windowMs, this.hits := limit, windowMs, map[];
    }

    method Filter(key: string, cutoff: int) returns (recent: seq<int>)
      ensures recent == Recent(HitsOf(hits, key), cutoff)
    {
      var prev := HitsOf(hits, key);
      recent := [];
      for i := 0 to |prev|
        invariant recent == Recent(prev[..i], cutoff)
      {
        assert prev[..i + 1][..i] == prev[..i];
        if prev[i] > cutoff {
          recent := recent + [prev[i]];
        }
      }
      assert prev[..|prev|] == prev;
    }

    method Check(key: string, now: int) returns (outcome: Outcome)
      modifies this`hits
      ensures outcome == Decision(limit, windowMs, HitsOf(old(hits), key), now)
      ensures hits == Checked(limit, windowMs, old(hits), Call(key, now))
    {
      var recent := Filter(key, now - windowMs);
      if |recent| >= limit {
        hits := hits[key := recent];
        var oldest := if |recent| > 0 then recent[0] else now;
        return Outcome(false, 0, Max(1, CeilSeconds(oldest + windowMs - now)));
      }
      recent := recent + [now];
      hits := hits[key := recent];
      return Outcome(true, Max(0, limit - |recent|), 0);
    }

    /** Asks without recording. */
    method IsBlocked(key: string, now: int) returns (blocked: bool)
      ensures blocked <==> !Decision(limit, windowMs, HitsOf(hits, key), now).allowed
    {
      var recent := Filter(key, now - windowMs);
      return |recent| >= limit;
    }

    method Reset()
      modifies this`hits
      ensures hits == map[]
    {
      hits := map[];
    }
  }

  // ----- runs

  /** The pruned lists after one call. */
  function Checked(limit: nat, windowMs: int, hits: map<string, seq<int>>, call: Call): map<string, seq<int>> {
    var recent := Recent(HitsOf(hits, call.key), call.now - windowMs);
    hits[call.key := if |recent| >= limit then recent else recent + [call.now]]
  }

  function Pruned(limit: nat, windowMs: int, calls: seq<Call>): map<string, seq<int>> {
    if calls == [] then map[]
    else Checked(limit, windowMs, Pruned(limit, windowMs, calls[..|calls| - 1]), calls[|calls| - 1])
  }

  /** Every accepted hit of a key, when nothing is ever forgotten. */
  function Accepted(limit: nat, windowMs: int, calls: seq<Call>, key: string): seq<int> {
    if calls == [] then []
    else
      var before := Accepted(limit, windowMs, calls[..|calls| - 1], key);
      var call := calls[|calls| - 1];
      if call.key == key && Decision(limit, windowMs, before, call.now).allowed then before + [call.now] else before
  }

  ghost predicate ClockRuns(calls: seq<Call>) {
    forall i, j | 0 <= i < j < |calls| :: calls[i].now <= calls[j].now
  }

  ghost predicate Ascending(hits: seq<int>, latest: int) {
    && (forall i, j | 0 <= i < j < |hits| :: hits[i] <= hits[j])
    && (forall i | 0 <= i < |hits| :: hits[i] <= latest)
  }

  lemma {:induction false} RecentAppend(a: seq<int>, t: int, cutoff: int)
    ensures Recent(a + [t], cutoff) == Recent(a, cutoff) + if t > cutoff then [t] else []
  {
    assert (a + [t])[..|a|] == a;
  }

  lemma {:induction false} RecentTwice(hits: seq<int>, early: int, late: int)
    requires early <= late
    ensures Recent(Recent(hits, early), late) == Recent(hits, late)
  {
    if hits != [] {
      var init := hits[..|hits| - 1];
      RecentTwice(init, early, late);
      RecentAppend(Recent(init, early), hits[|hits| - 1], late);
    }
  }

  /** The hits after the cutoff stand at the end. */
  ghost predicate IsTail(recent: seq<int>, hits: seq<int>, cutoff: int) {
    && |recent| <= |hits| && recent == hits[|hits| - |recent|..]
    && (|recent| < |hits| ==> hits[|hits| - |recent| - 1] <= cutoff)
    && (recent != [] ==> recent[0] > cutoff)
  }

  lemma TailGrows(recent: seq<int>, init: seq<int>, last: int, cutoff: int)
    requires IsTail(recent, init, cutoff) && last > cutoff
    ensures IsTail(recent + [last], init + [last], cutoff)
  {
    var hits, longer := init + [last], recent + [last];
    assert hits[|hits| - |longer|..] == longer;
  }

  lemma TailEmpties(recent: seq<int>, init: seq<int>, last: int, cutoff: int)
    requires IsTail(recent, init, cutoff) && last <= cutoff && forall i | 0 <= i < |init| :: init[i] <= last
    ensures recent == [] && IsTail([], init + [last], cutoff)
  {
  }

  /** On a list in order the recent hits are its tail. */
  lemma {:induction false} RecentIsTail(hits: seq<int>, cutoff: int, latest: int)
    requires Ascending(hits, latest)
    ensures IsTail(Recent(hits, cutoff), hits, cutoff)
  {
    if hits != [] {
      var n := |hits| - 1;
      RecentIsTail(hits[..n], cutoff, latest);
      RecentLast(hits, cutoff);
      assert forall i | 0 <= i < n :: hits[..n][i] <= hits[n];
      hide Recent, IsTail, Ascending;
      assert hits == hits[..n] + [hits[n]];
      var before := Recent(hits[..n], cutoff);
      if hits[n] > cutoff {
        TailGrows(before, hits[..n], hits[n], cutoff);
      } else {
        TailEmpties(before, hits[..n], hits[n], cutoff);
        assert Recent(hits, cutoff) == [];
      }
    }
  }

  lemma RecentLast(hits: seq<int>, cutoff: int)
    requires hits != []
    ensures
      var n := |hits| - 1;
      Recent(hits, cutoff) == Recent(hits[..n], cutoff) + if hits[n] > cutoff then [hits[n]] else []
  {
  }

  /** What pruning throws away no later decision would have counted. */
  ghost predicate SameFrom(pruned: seq<int>, full: seq<int>, cutoff: int) {
    forall later | later >= cutoff :: Recent(pruned, later) == Recent(full, later)
  }

  function Kept(limit: nat, windowMs: int, hits: seq<int>, now: int): seq<int> {
    var recent := Recent(hits, now - windowMs);
    if |recent| >= limit then recent else recent + [now]
  }

  function Grown(limit: nat, windowMs: int, hits: seq<int>, now: int): seq<int> {
    if Decision(limit, windowMs, hits, now).allowed then hits + [now] else hits
  }

  lemma SameFromStep(limit: nat, windowMs: int, pruned: seq<int>, full: seq<int>, now: int, later: int)
    requires SameFrom(pruned, full, now - windowMs) && later >= now - windowMs
    ensures Recent(Kept(limit, windowMs, pruned, now), later) == Recent(Grown(limit, windowMs, full, now), later)
  {
    var cutoff := now - windowMs;
    assert Recent(pruned, later) == Recent(full, later);
    assert Recent(pruned, cutoff) == Recent(full, cutoff);
    RecentTwice(pruned, cutoff, later);
    RecentAppend(Recent(pruned, cutoff), now, later);
    RecentAppend(full, now, later);
    hide Recent, SameFrom;
  }

  lemma {:induction false} PrunedMatches(limit: nat, windowMs: int, calls: seq<Call>, key: string, now: int)
    requires ClockRuns(calls) && forall i | 0 <= i < |calls| :: calls[i].now <= now
    ensures SameFrom(HitsOf(Pruned(limit, windowMs, calls), key), Accepted(limit, windowMs, calls, key), now - windowMs)
    decreases |calls|
  {
    if calls != [] {
      var init, call := calls[..|calls| - 1], calls[|calls| - 1];
      PrunedMatches(limit, windowMs, init, key, call.now);
      hide Recent, Decision;
      var pruned, full := HitsOf(Pruned(limit, windowMs, init), key), Accepted(limit, windowMs, init, key);
      if call.key == key {
        assert HitsOf(Pruned(limit, windowMs, calls), key) == Kept(limit, windowMs, pruned, call.now);
        assert Accepted(limit, windowMs, calls, key) == Grown(limit, windowMs, full, call.now);
        hide Pruned, Accepted, Kept, Grown;
        forall later | later >= now - windowMs
          ensures Recent(Kept(limit, windowMs, pruned, call.now), later) == Recent(Grown(limit, windowMs, full, call.now), later)
        {
          SameFromStep(limit, windowMs, pruned, full, call.now, later);
        }
      }
    }
  }

  /** The pruned list decides exactly as the full history would. */
  lemma PrunedDecidesLikeFullHistory(limit: nat, windowMs: int, calls: seq<Call>, key: string, now: int)
    requires ClockRuns(calls) && forall i | 0 <= i < |calls| :: calls[i].now <= now
    ensures Decision(limit, windowMs, HitsOf(Pruned(limit, windowMs, calls), key), now)
      == Decision(limit, windowMs, Accepted(limit, windowMs, calls, key), now)
  {
    PrunedMatches(limit, windowMs, calls, key, now);
    hide Recent, Pruned, Accepted;
  }

  lemma {:induction false} AcceptedAscends(limit: nat, windowMs: int, calls: seq<Call>, key: string, latest: int)
    requires ClockRuns(calls) && forall i | 0 <= i < |calls| :: calls[i].now <= latest
    ensures Ascending(Accepted(limit, windowMs, calls, key), latest)
    decreases |calls|
  {
    if calls != [] {
      var init, call := calls[..|calls| - 1], calls[|calls| - 1];
      AcceptedAscends(limit, windowMs, init, key, call.now);
      hide Decision;
    }
  }

  /** The hits in the window that ends at `end`. */
  function InWindow(hits: seq<int>, end: int, windowMs: int): seq<int> {
    Recent(UpTo(hits, end), end - windowMs)
  }

  function UpTo(hits: seq<int>, end: int): seq<int> {
    if hits == [] then []
    else if hits[|hits| - 1] <= end then UpTo(hits[..|hits| - 1], end) + [hits[|hits| - 1]]
    else UpTo(hits[..|hits| - 1], end)
  }

  lemma {:induction false} UpToAll(hits: seq<int>, end: int)
    requires forall i | 0 <= i < |hits| :: hits[i] <= end
    ensures UpTo(hits, end) == hits
  {
    if hits != [] {
      UpToAll(hits[..|hits| - 1], end);
    }
  }

  lemma UpToAppend(hits: seq<int>, t: int, end: int)
    ensures UpTo(hits + [t], end) == if t <= end then UpTo(hits, end) + [t] else UpTo(hits, end)
  {
    assert (hits + [t])[..|hits|] == hits;
  }

  lemma {:induction false} LaterHasFewer(hits: seq<int>, early: int, late: int)
    requires early <= late
    ensures |Recent(hits, late)| <= |Recent(hits, early)|
  {
    if hits != [] {
      LaterHasFewer(hits[..|hits| - 1], early, late);
    }
  }

  lemma WindowStep(limit: nat, windowMs: int, hits: seq<int>, now: int, end: int)
    requires Ascending(hits, now) && |InWindow(hits, end, windowMs)| <= limit
    ensures |InWindow(Grown(limit, windowMs, hits, now), end, windowMs)| <= limit
  {
    hide Recent, UpTo;
    UpToAppend(hits, now, end);
    if Decision(limit, windowMs, hits, now).allowed && now <= end {
      UpToAll(hits, end);
      RecentAppend(hits, now, end - windowMs);
      LaterHasFewer(hits, now - windowMs, end - windowMs);
    }
  }

  /** Whatever window of the given length is looked at, no key has more accepted hits in it than the limit. */
  lemma {:induction false} WindowsHoldTheLimit(limit: nat, windowMs: int, calls: seq<Call>, key: string, end: int)
    requires ClockRuns(calls)
    ensures |InWindow(Accepted(limit, windowMs, calls, key), end, windowMs)| <= limit
    decreases |calls|
  {
    if calls != [] {
      var init, call := calls[..|calls| - 1], calls[|calls| - 1];
      WindowsHoldTheLimit(limit, windowMs, init, key, end);
      AcceptedAscends(limit, windowMs, init, key, call.now);
      WindowStep(limit, windowMs, Accepted(limit, windowMs, init, key), call.now, end);
      hide Recent, InWindow, Decision;
    }
  }

  // ----- the hint

  /** At most `limit` hits in the window and a refusal: exactly `limit` of them. */
  lemma RefusedIsFull(limit: nat, windowMs: int, calls: seq<Call>, key: string, now: int)
    requires ClockRuns(calls) && forall i | 0 <= i < |calls| :: calls[i].now <= now
    requires !Decision(limit, windowMs, Accepted(limit, windowMs, calls, key), now).allowed
    ensures |Recent(Accepted(limit, windowMs, calls, key), now - windowMs)| == limit
  {
    WindowsHoldTheLimit(limit, windowMs, calls, key, now);
    AcceptedAscends(limit, windowMs, calls, key, now);
    UpToAll(Accepted(limit, windowMs, calls, key), now);
  }

  lemma FreeAfterOldest(limit: nat, hits: seq<int>, latest: int, early: int, late: int)
    requires Ascending(hits, latest) && early <= late && limit >= 1 && |Recent(hits, early)| == limit
    ensures |Recent(hits, late)| < limit <==> Recent(hits, early)[0] <= late
  {
    RecentIsTail(hits, early, latest);
    RecentIsTail(hits, late, latest);
    LaterHasFewer(hits, early, late);
    var n := |hits| - limit;
    assert Recent(hits, early)[0] == hits[n];
    if |Recent(hits, late)| == limit {
      assert Recent(hits, late)[0] == hits[n];
    } else {
      assert hits[n] <= hits[|hits| - |Recent(hits, late)| - 1];
    }
  }

  lemma HintOnList(limit: nat, windowMs: int, hits: seq<int>, now: int, seconds: nat)
    requires Ascending(hits, now) && |Recent(hits, now - windowMs)| == limit && limit >= 1
    ensures Decision(limit, windowMs, hits, now + 1000 * seconds).allowed
      <==> seconds >= Decision(limit, windowMs, hits, now).retryAfterSec
  {
    var late := now + 1000 * seconds - windowMs;
    FreeAfterOldest(limit, hits, now, now - windowMs, late);
    RecentIsTail(hits, now - windowMs, now);
    hide Recent, Ascending;
    SecondsToWait(Recent(hits, now - windowMs)[0] + windowMs - now, seconds);
  }

  lemma SecondsToWait(ms: int, seconds: nat)
    requires ms > 0
    ensures ms <= 1000 * seconds <==> seconds >= Max(1, CeilSeconds(ms))
  {
  }

  /**
   * After a refusal, and with no other call in between, a check `seconds` later is
   * accepted exactly when `seconds` reaches the hint; with a zero limit it never is.
   */
  lemma HintIsLeast(limit: nat, windowMs: int, calls: seq<Call>, key: string, now: int, seconds: nat)
    requires ClockRuns(calls) && forall i | 0 <= i < |calls| :: calls[i].now <= now
    requires !Decision(limit, windowMs, Accepted(limit, windowMs, calls, key), now).allowed
    ensures
      var hits := Accepted(limit, windowMs, calls, key);
      Decision(limit, windowMs, hits, now + 1000 * seconds).allowed <==>
        limit >= 1 && seconds >= Decision(limit, windowMs, hits, now).retryAfterSec
  {
    RefusedIsFull(limit, windowMs, calls, key, now);
    AcceptedAscends(limit, windowMs, calls, key, now);
    hide Accepted, Recent;
    if limit >= 1 {
      HintOnList(limit, windowMs, Accepted(limit, windowMs, calls, key), now, seconds);
    }
  }
}
