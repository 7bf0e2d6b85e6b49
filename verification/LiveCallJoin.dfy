/**
 * Joining the switching and routing halves of the live calls on the conference id:
 * the i-th row of an id on one side goes with the i-th on the other, and nothing is lost.
 */
module LiveCallJoin {
  import opened Wrappers
  import opened Text
  import opened Sorting

  datatype CallTalk = CallTalk(text: string, explicitSeconds: bool)

  datatype Key =
    | State | StartedAt | ConnectedAt | OutA | OutB | SourceName | DestName | Dialpeer | SourceSignal | DestSignal

  datatype CallSide = CallSide(conferenceId: string, values: map<Key, string>, talk: Option<CallTalk>)

  /** `switchSeconds` is None when neither half read the duration column. Columns filled later are left out. */
  datatype JoinedCall = JoinedCall(
    conferenceId: string, state: string, startedAt: string, connectedAt: string, outA: string, outB: string,
    sourceName: string, destName: string, dialpeer: string, sourceSignal: string, destSignal: string,
    switchSeconds: Option<string>)

  // ----- one output row

  function Talks(left: Option<CallSide>, right: Option<CallSide>): seq<CallTalk> {
    var l := if left.Some? then left.value.talk else None;
    var r := if right.Some? then right.value.talk else None;
    if l.Some? && r.Some? then [l.value, r.value]
    else if l.Some? then [l.value]
    else if r.Some? then [r.value]
    else []
  }

  function FirstExplicit(talks: seq<CallTalk>): Option<string> {
    if talks == [] then None
    else if talks[0].explicitSeconds && talks[0].text != "" then Some(talks[0].text)
    else FirstExplicit(talks[1..])
  }

  function FirstText(talks: seq<CallTalk>): Option<string> {
    if talks == [] then None
    else if talks[0].text != "" then Some(talks[0].text)
    else FirstText(talks[1..])
  }

  /** The first explicit duration of the two halves, else the first text, else blank if either half was read. */
  function SwitchSeconds(left: Option<CallSide>, right: Option<CallSide>): Option<string> {
    var talks := Talks(left, right);
    if FirstExplicit(talks).Some? then FirstExplicit(talks)
    else if FirstText(talks).Some? then FirstText(talks)
    else if talks != [] then Some("")
    else None
  }

  method PickSwitchSeconds(left: Option<CallSide>, right: Option<CallSide>) returns (seconds: Option<string>)
    ensures seconds == SwitchSeconds(left, right)
  {
    var talks := Talks(left, right);
    for i := 0 to |talks|
      invariant FirstExplicit(talks[i..]) == FirstExplicit(talks)
    {
      assert talks[i..][0] == talks[i] && talks[i..][1..] == talks[i + 1..];
      if talks[i].explicitSeconds && talks[i].text != "" {
        return Some(talks[i].text);
      }
    }
    for i := 0 to |talks|
      invariant FirstText(talks[i..]) == FirstText(talks)
    {
      assert talks[i..][0] == talks[i] && talks[i..][1..] == talks[i + 1..];
      if talks[i].text != "" {
        return Some(talks[i].text);
      }
    }
    return if |talks| > 0 then Some("") else None;
  }

  function Value(side: Option<CallSide>, key: Key): string {
    if side.Some? && key in side.value.values then side.value.values[key] else ""
  }

  function IdOf(left: Option<CallSide>, right: Option<CallSide>): string {
    if left.Some? && Trim(left.value.conferenceId) != "" then Trim(left.value.conferenceId)
    else if right.Some? then Trim(right.value.conferenceId)
    else ""
  }

  function Merged(left: Option<CallSide>, right: Option<CallSide>): JoinedCall {
    JoinedCall(
      IdOf(left, right), Value(right, State), Value(left, StartedAt), Value(left, ConnectedAt), Value(left, OutA),
      Value(left, OutB), Value(right, SourceName), Value(right, DestName), Value(right, Dialpeer),
      Value(left, SourceSignal), Value(left, DestSignal), SwitchSeconds(left, right))
  }

  /** The columns the switching half fills; the routing half fills the others. */
  predicate SwitchingKey(key: Key) {
    key.StartedAt? || key.ConnectedAt? || key.OutA? || key.OutB? || key.SourceSignal? || key.DestSignal?
  }

  function Column(row: JoinedCall, key: Key): string {
    match key
    case State => row.state
    case StartedAt => row.startedAt
    case ConnectedAt => row.connectedAt
    case OutA => row.outA
    case OutB => row.outB
    case SourceName => row.sourceName
    case DestName => row.destName
    case Dialpeer => row.dialpeer
    case SourceSignal => row.sourceSignal
    case DestSignal => row.destSignal
  }

  method Merge(left: Option<CallSide>, right: Option<CallSide>) returns (row: JoinedCall)
    ensures row == Merged(left, right)
    ensures forall key :: Column(row, key) == Value(if SwitchingKey(key) then left else right, key)
  {
    var seconds := PickSwitchSeconds(left, right);
    row := JoinedCall(
      IdOf(left, right), Value(right, State), Value(left, StartedAt), Value(left, ConnectedAt), Value(left, OutA),
      Value(left, OutB), Value(right, SourceName), Value(right, DestName), Value(right, Dialpeer),
      Value(left, SourceSignal), Value(left, DestSignal), seconds);
  }

  // ----- who goes with whom

  /** One output row as the indices it joins. */
  datatype Pair = Pair(left: Option<nat>, right: Option<nat>)

  function KeysOf(rows: seq<CallSide>): seq<string> {
    seq(|rows|, i requires 0 <= i < |rows| => Trim(rows[i].conferenceId))
  }

  /** Where a key stands, in order. */
  function Positions(keys: seq<string>, key: string): seq<nat> {
    if keys == [] then []
    else if keys[|keys| - 1] == key then Positions(keys[..|keys| - 1], key) + [|keys| - 1]
    else Positions(keys[..|keys| - 1], key)
  }

  function Count(keys: seq<string>, key: string): nat {
    |Positions(keys, key)|
  }

  /** How many earlier rows have the key of row `i`. */
  function Rank(keys: seq<string>, i: nat): nat
    requires i < |keys|
  {
    Count(keys[..i], keys[i])
  }

  /** The keys in the order a map meets them first. */
  function KeyOrder(keys: seq<string>): seq<string> {
    if keys == [] then []
    else
      var init, key := KeyOrder(keys[..|keys| - 1]), keys[|keys| - 1];
      if key == "" || key in init then init else init + [key]
  }

  function Mate(lefts: seq<string>, rights: seq<string>, i: nat): Option<nat>
    requires i < |lefts|
  {
    if lefts[i] == "" || Rank(lefts, i) >= Count(rights, lefts[i]) then None
    else Some(Positions(rights, lefts[i])[Rank(lefts, i)])
  }

  /** The rows of the first `k` switching rows. */
  function LeftPlan(lefts: seq<string>, rights: seq<string>, k: nat): seq<Pair>
    requires k <= |lefts|
  {
    seq(k, i requires 0 <= i < k => Pair(Some(i), Mate(lefts, rights, i)))
  }

  function RightOnly(positions: seq<nat>): seq<Pair> {
    seq(|positions|, i requires 0 <= i < |positions| => Pair(None, Some(positions[i])))
  }

  function LeftoverPositions(lefts: seq<string>, rights: seq<string>, key: string): seq<nat> {
    var all := Positions(rights, key);
    all[Min(Count(lefts, key), |all|)..]
  }

  function LeftoverPlan(lefts: seq<string>, rights: seq<string>, order: seq<string>): seq<Pair> {
    if order == [] then []
    else
      LeftoverPlan(lefts, rights, order[..|order| - 1])
        + RightOnly(LeftoverPositions(lefts, rights, order[|order| - 1]))
  }

  /** Switching rows in their order, leftover routing rows id by id, then routing rows with a blank id. */
  function Plan(lefts: seq<string>, rights: seq<string>): seq<Pair> {
    LeftPlan(lefts, rights, |lefts|) + LeftoverPlan(lefts, rights, KeyOrder(rights)) + RightOnly(Positions(rights, ""))
  }

  function Side(rows: seq<CallSide>, i: Option<nat>): Option<CallSide> {
    if i.Some? && i.value < |rows| then Some(rows[i.value]) else None
  }

  function Rendered(plan: seq<Pair>, pcomm: seq<CallSide>, pupr: seq<CallSide>): seq<JoinedCall> {
    seq(|plan|, p requires 0 <= p < |plan| => Merged(Side(pcomm, plan[p].left), Side(pupr, plan[p].right)))
  }

  // ----- positions and ranks

  lemma PositionsSnoc(keys: seq<string>, x: string, key: string)
    ensures Positions(keys + [x], key) == Positions(keys, key) + if x == key then [|keys|] else []
  {
    assert (keys + [x])[..|keys|] == keys;
  }

  lemma {:induction false} PositionsAre(keys: seq<string>, key: string, n: nat)
    requires n < Count(keys, key)
    ensures
      var p := Positions(keys, key)[n];
      p < |keys| && keys[p] == key && Rank(keys, p) == n
  {
    var init := keys[..|keys| - 1];
    if n < Count(init, key) {
      PositionsAre(init, key, n);
      var p := Positions(init, key)[n];
      assert init[..p] == keys[..p];
    }
  }

  lemma {:induction false} RankInPositions(keys: seq<string>, i: nat)
    requires i < |keys|
    ensures Rank(keys, i) < Count(keys, keys[i]) && Positions(keys, keys[i])[Rank(keys, i)] == i
  {
    var init := keys[..|keys| - 1];
    if i < |keys| - 1 {
      RankInPositions(init, i);
      assert init[..i] == keys[..i];
    }
  }

  /** A row stands once among the positions of its key, at its rank. */
  lemma TailCount(keys: seq<string>, key: string, m: nat, r: nat)
    requires m <= Count(keys, key) && r < |keys|
    ensures multiset(Positions(keys, key)[m..])[r] == if keys[r] == key && Rank(keys, r) >= m then 1 else 0
  {
    var all := Positions(keys, key);
    forall n | 0 <= n < |all| ensures all[n] < |keys| && keys[all[n]] == key && Rank(keys, all[n]) == n {
      PositionsAre(keys, key, n);
    }
    RankInPositions(keys, r);
    hide Positions, Rank;
    assert Distinct(all[m..]);
    DistinctCount(all[m..], r);
    if keys[r] == key && Rank(keys, r) >= m {
      assert all[m..][Rank(keys, r) - m] == r;
    }
  }

  // ----- every routing row exactly once

  function Rights(plan: seq<Pair>): multiset<nat> {
    if plan == [] then multiset{}
    else
      var last := plan[|plan| - 1].right;
      Rights(plan[..|plan| - 1]) + if last.Some? then multiset{last.value} else multiset{}
  }

  lemma {:induction false} RightsAppend(a: seq<Pair>, b: seq<Pair>)
    ensures Rights(a + b) == Rights(a) + Rights(b)
    decreases |b|
  {
    if b == [] {
      assert a + b == a;
    } else {
      assert (a + b)[..|a + b| - 1] == a + b[..|b| - 1];
      RightsAppend(a, b[..|b| - 1]);
    }
  }

  lemma RightOnlySnoc(positions: seq<nat>)
    requires positions != []
    ensures
      var n := |positions| - 1;
      RightOnly(positions) == RightOnly(positions[..n]) + [Pair(None, Some(positions[n]))]
  {
  }

  lemma {:induction false} RightsOfRightOnly(positions: seq<nat>)
    ensures Rights(RightOnly(positions)) == multiset(positions)
    decreases |positions|
  {
    if positions != [] {
      var n := |positions| - 1;
      RightsOfRightOnly(positions[..n]);
      RightOnlySnoc(positions);
      hide RightOnly;
      var plan := RightOnly(positions);
      assert plan[..|plan| - 1] == RightOnly(positions[..n]);
      assert positions == positions[..n] + [positions[n]];
    }
  }

  lemma LeftRightsStep(lefts: seq<string>, rights: seq<string>, k: nat, r: nat)
    requires k < |lefts| && r < |rights|
    ensures Mate(lefts, rights, k) == Some(r) <==>
      lefts[k] != "" && rights[r] == lefts[k] && Rank(rights, r) == Rank(lefts, k)
  {
    RankInPositions(rights, r);
    if Mate(lefts, rights, k).Some? {
      PositionsAre(rights, lefts[k], Rank(lefts, k));
    }
  }

  /** The first `k` switching rows have taken the routing rows of the lowest ranks. */
  lemma {:induction false} LeftRights(lefts: seq<string>, rights: seq<string>, k: nat, r: nat)
    requires k <= |lefts| && r < |rights|
    ensures Rights(LeftPlan(lefts, rights, k))[r]
      == if rights[r] != "" && Rank(rights, r) < Count(lefts[..k], rights[r]) then 1 else 0
  {
    if k == 0 {
      assert LeftPlan(lefts, rights, 0) == [] && lefts[..0] == [];
    } else {
      LeftRights(lefts, rights, k - 1, r);
      LeftRightsStep(lefts, rights, k - 1, r);
      assert lefts[..k] == lefts[..k - 1] + [lefts[k - 1]];
      PositionsSnoc(lefts[..k - 1], lefts[k - 1], rights[r]);
      assert LeftPlan(lefts, rights, k)[..k - 1] == LeftPlan(lefts, rights, k - 1);
      hide Positions, Mate;
    }
  }

  lemma LeftoverRights(lefts: seq<string>, rights: seq<string>, key: string, r: nat)
    requires r < |rights|
    ensures Rights(RightOnly(LeftoverPositions(lefts, rights, key)))[r]
      == if rights[r] == key && Rank(rights, r) >= Count(lefts, key) then 1 else 0
  {
    var m := Min(Count(lefts, key), Count(rights, key));
    TailCount(rights, key, m, r);
    RightsOfRightOnly(LeftoverPositions(lefts, rights, key));
    RankInPositions(rights, r);
    hide Positions, Rights;
  }

  lemma {:induction false} LeftoversRights(lefts: seq<string>, rights: seq<string>, order: seq<string>, r: nat)
    requires Distinct(order) && r < |rights|
    ensures Rights(LeftoverPlan(lefts, rights, order))[r]
      == if rights[r] in order && Rank(rights, r) >= Count(lefts, rights[r]) then 1 else 0
    decreases |order|
  {
    if order != [] {
      var init, key := order[..|order| - 1], order[|order| - 1];
      LeftoversRights(lefts, rights, init, r);
      RightsAppend(LeftoverPlan(lefts, rights, init), RightOnly(LeftoverPositions(lefts, rights, key)));
      LeftoverRights(lefts, rights, key, r);
      hide Count, Rank, Rights, LeftoverPositions, RightOnly;
      assert order == init + [key];
      assert key !in init;
    }
  }

  lemma {:induction false} KeyOrderAre(keys: seq<string>)
    ensures Distinct(KeyOrder(keys))
    ensures forall key :: key in KeyOrder(keys) <==> key != "" && key in keys
  {
    if keys != [] {
      var init := keys[..|keys| - 1];
      KeyOrderAre(init);
      assert keys == init + [keys[|keys| - 1]];
      assert forall key :: key in keys <==> key in init || key == keys[|keys| - 1];
    }
  }

  /** Every routing row lands in exactly one output row. */
  lemma EveryRightOnce(lefts: seq<string>, rights: seq<string>, r: nat)
    requires r < |rights|
    ensures Rights(Plan(lefts, rights))[r] == 1
  {
    var order := KeyOrder(rights);
    KeyOrderAre(rights);
    LeftRights(lefts, rights, |lefts|, r);
    assert lefts[..|lefts|] == lefts;
    LeftoversRights(lefts, rights, order, r);
    var blanks := Positions(rights, "");
    RightsOfRightOnly(blanks);
    TailCount(rights, "", 0, r);
    assert blanks[0..] == blanks;
    var a, b := LeftPlan(lefts, rights, |lefts|), LeftoverPlan(lefts, rights, order);
    RightsAppend(a, b);
    RightsAppend(a + b, RightOnly(blanks));
    hide Rights, Positions, Rank, Count, LeftPlan, LeftoverPlan, RightOnly, KeyOrder;
    assert rights[r] in rights;
  }

  /** Every switching row lands in exactly one output row, in its own place, and no other row has a left half. */
  lemma EveryLeftOnce(lefts: seq<string>, rights: seq<string>, p: nat)
    requires p < |Plan(lefts, rights)|
    ensures Plan(lefts, rights)[p].left == if p < |lefts| then Some(p) else None
  {
    LeftoversHaveNoLeft(lefts, rights, KeyOrder(rights));
  }

  lemma {:induction false} LeftoversHaveNoLeft(lefts: seq<string>, rights: seq<string>, order: seq<string>)
    ensures forall p | 0 <= p < |LeftoverPlan(lefts, rights, order)| :: LeftoverPlan(lefts, rights, order)[p].left.None?
    decreases |order|
  {
    if order != [] {
      LeftoversHaveNoLeft(lefts, rights, order[..|order| - 1]);
    }
  }

  /** Two rows share an output row exactly when they have one non-blank id and the same rank in it. */
  lemma IthWithIth(lefts: seq<string>, rights: seq<string>, l: nat, r: nat)
    requires l < |lefts| && r < |rights|
    ensures Plan(lefts, rights)[l] == Pair(Some(l), Some(r)) <==>
      lefts[l] != "" && rights[r] == lefts[l] && Rank(lefts, l) == Rank(rights, r)
  {
    LeftRightsStep(lefts, rights, l, r);
    hide Mate, Rank, LeftoverPlan, Positions;
    assert Plan(lefts, rights)[l] == Pair(Some(l), Mate(lefts, rights, l));
  }

  // ----- nothing of either half is lost

  lemma {:induction false} RightsMember(plan: seq<Pair>, r: nat) returns (p: nat)
    requires r in Rights(plan)
    ensures p < |plan| && plan[p].right == Some(r)
    decreases |plan|
  {
    p := |plan| - 1;
    if plan[p].right != Some(r) {
      p := RightsMember(plan[..p], r);
    }
  }

  /** Whoever it is paired with, every switching row shows all its values, in its own place. */
  lemma SwitchingValuesShown(pcomm: seq<CallSide>, pupr: seq<CallSide>, l: nat, key: Key)
    requires l < |pcomm| && SwitchingKey(key)
    ensures
      var out := Rendered(Plan(KeysOf(pcomm), KeysOf(pupr)), pcomm, pupr);
      l < |out| && Column(out[l], key) == Value(Some(pcomm[l]), key)
  {
    EveryLeftOnce(KeysOf(pcomm), KeysOf(pupr), l);
    hide LeftoverPlan, Positions, Mate;
  }

  /** And every routing row shows all its values in the one output row it lands in. */
  lemma RoutingValuesShown(pcomm: seq<CallSide>, pupr: seq<CallSide>, r: nat) returns (p: nat)
    requires r < |pupr|
    ensures
      var plan := Plan(KeysOf(pcomm), KeysOf(pupr));
      var out := Rendered(plan, pcomm, pupr);
      && p < |out| && plan[p].right == Some(r)
      && forall key | !SwitchingKey(key) :: Column(out[p], key) == Value(Some(pupr[r]), key)
  {
    EveryRightOnce(KeysOf(pcomm), KeysOf(pupr), r);
    hide Plan;
    p := RightsMember(Plan(KeysOf(pcomm), KeysOf(pupr)), r);
  }

  lemma {:induction false} LeftoversInRange(lefts: seq<string>, rights: seq<string>, order: seq<string>)
    ensures forall p | 0 <= p < |LeftoverPlan(lefts, rights, order)| ::
      var pair := LeftoverPlan(lefts, rights, order)[p];
      pair.left.None? && pair.right.Some? && pair.right.value < |rights|
    decreases |order|
  {
    if order != [] {
      LeftoversInRange(lefts, rights, order[..|order| - 1]);
      PositionsInside(rights, order[|order| - 1]);
      hide Positions;
    }
  }

  /** The halves of a row have one id, or the row has one half. */
  ghost predicate OneId(pair: Pair, lefts: seq<string>, rights: seq<string>) {
    && (pair.left.Some? ==> pair.left.value < |lefts|)
    && (pair.right.Some? ==> pair.right.value < |rights|)
    && (pair.left.Some? && pair.right.Some? ==> lefts[pair.left.value] == rights[pair.right.value] != "")
  }

  lemma PlanHasOneId(lefts: seq<string>, rights: seq<string>, p: nat)
    requires p < |Plan(lefts, rights)|
    ensures OneId(Plan(lefts, rights)[p], lefts, rights)
  {
    if p < |lefts| {
      assert Plan(lefts, rights)[p] == Pair(Some(p), Mate(lefts, rights, p));
      if Mate(lefts, rights, p).Some? {
        PositionsAre(rights, lefts[p], Rank(lefts, p));
      }
    } else {
      LeftoversInRange(lefts, rights, KeyOrder(rights));
      PositionsInside(rights, "");
      hide LeftoverPlan, Positions, KeyOrder;
    }
  }

  /** A row carries the trimmed id of each half it has. */
  lemma IdsShown(pcomm: seq<CallSide>, pupr: seq<CallSide>, p: nat)
    requires p < |Plan(KeysOf(pcomm), KeysOf(pupr))|
    ensures
      var pair, row := Plan(KeysOf(pcomm), KeysOf(pupr))[p], Rendered(Plan(KeysOf(pcomm), KeysOf(pupr)), pcomm, pupr)[p];
      && (pair.left.Some? ==> pair.left.value < |pcomm| && row.conferenceId == Trim(pcomm[pair.left.value].conferenceId))
      && (pair.right.Some? ==> pair.right.value < |pupr| && row.conferenceId == Trim(pupr[pair.right.value].conferenceId))
  {
    PlanHasOneId(KeysOf(pcomm), KeysOf(pupr), p);
    hide Plan, Trim;
  }

  // ----- the length

  function SumLarger(lefts: seq<string>, rights: seq<string>, ids: seq<string>): nat {
    if ids == [] then 0
    else
      var id := ids[|ids| - 1];
      SumLarger(lefts, rights, ids[..|ids| - 1]) + Max(Count(lefts, id), Count(rights, id))
  }

  function SumCounts(keys: seq<string>, ids: seq<string>): nat {
    if ids == [] then 0 else SumCounts(keys, ids[..|ids| - 1]) + Count(keys, ids[|ids| - 1])
  }

  lemma {:induction false} SumCountsSnoc(keys: seq<string>, x: string, ids: seq<string>)
    requires Distinct(ids)
    ensures SumCounts(keys + [x], ids) == SumCounts(keys, ids) + if x in ids then 1 else 0
    decreases |ids|
  {
    if ids != [] {
      var init, id := ids[..|ids| - 1], ids[|ids| - 1];
      SumCountsSnoc(keys, x, init);
      PositionsSnoc(keys, x, id);
      assert ids == init + [id];
      assert id !in init;
      hide Positions;
    }
  }

  lemma {:induction false} NoneToCount(ids: seq<string>)
    ensures SumCounts([], ids) == 0
    decreases |ids|
  {
    if ids != [] {
      NoneToCount(ids[..|ids| - 1]);
    }
  }

  lemma {:induction false} CountsAddUp(keys: seq<string>, ids: seq<string>)
    requires Distinct(ids) && "" !in ids && forall k | k in keys && k != "" :: k in ids
    ensures SumCounts(keys, ids) + Count(keys, "") == |keys|
    decreases |keys|
  {
    if keys == [] {
      NoneToCount(ids);
    } else {
      var init, x := keys[..|keys| - 1], keys[|keys| - 1];
      assert keys == init + [x];
      CountsAddUp(init, ids);
      SumCountsSnoc(init, x, ids);
      PositionsSnoc(init, x, "");
      hide SumCounts, Positions;
    }
  }

  lemma {:induction false} LeftoverLength(lefts: seq<string>, rights: seq<string>, ids: seq<string>)
    ensures |LeftoverPlan(lefts, rights, ids)| + SumCounts(lefts, ids) == SumLarger(lefts, rights, ids)
    decreases |ids|
  {
    if ids != [] {
      LeftoverLength(lefts, rights, ids[..|ids| - 1]);
      hide Positions;
    }
  }

  /** Ids only the switching side has leave nothing over. */
  lemma {:induction false} MoreIds(lefts: seq<string>, rights: seq<string>, ids: seq<string>, more: seq<string>)
    requires forall id | id in more :: id !in rights
    ensures |LeftoverPlan(lefts, rights, ids + more)| == |LeftoverPlan(lefts, rights, ids)|
    decreases |more|
  {
    if more == [] {
      assert ids + more == ids;
    } else {
      var init, id := more[..|more| - 1], more[|more| - 1];
      assert (ids + more)[..|ids + more| - 1] == ids + init;
      assert forall x | x in init :: x in more;
      MoreIds(lefts, rights, ids, init);
      assert id in more;
      NoPositions(rights, id);
    }
  }

  lemma {:induction false} NoPositions(keys: seq<string>, key: string)
    requires key !in keys
    ensures Positions(keys, key) == []
  {
    if keys != [] {
      NoPositions(keys[..|keys| - 1], key);
    }
  }

  lemma {:induction false} KeyOrderExtends(a: seq<string>, b: seq<string>) returns (more: seq<string>)
    ensures KeyOrder(a + b) == KeyOrder(a) + more
    ensures forall id | id in more :: id !in a
    decreases |b|
  {
    more := [];
    if b == [] {
      assert a + b == a;
    } else {
      var init, x := b[..|b| - 1], b[|b| - 1];
      assert (a + b)[..|a + b| - 1] == a + init;
      more := KeyOrderExtends(a, init);
      KeyOrderAre(a + init);
      if x != "" && x !in KeyOrder(a + init) {
        assert forall y | y in a :: y in a + init;
        more := more + [x];
      }
    }
  }

  /** The output is as long as the larger count of every id, put together, and all blanks. */
  lemma LengthIsSumOfLarger(lefts: seq<string>, rights: seq<string>)
    ensures |Plan(lefts, rights)|
      == SumLarger(lefts, rights, KeyOrder(rights + lefts)) + Count(lefts, "") + Count(rights, "")
  {
    var ids := KeyOrder(rights + lefts);
    KeyOrderAre(rights + lefts);
    var more := KeyOrderExtends(rights, lefts);
    MoreIds(lefts, rights, KeyOrder(rights), more);
    LeftoverLength(lefts, rights, ids);
    assert forall k | k in lefts :: k in rights + lefts;
    CountsAddUp(lefts, ids);
    hide SumLarger, SumCounts, LeftoverPlan, Positions, KeyOrder;
  }

  // ----- the code

  function RowsAt(rows: seq<CallSide>, positions: seq<nat>): seq<CallSide>
    requires forall i | 0 <= i < |positions| :: positions[i] < |rows|
  {
    seq(|positions|, i requires 0 <= i < |positions| => rows[positions[i]])
  }

  lemma PositionsInside(keys: seq<string>, key: string)
    ensures forall i | 0 <= i < Count(keys, key) :: Positions(keys, key)[i] < |keys|
  {
    forall i | 0 <= i < Count(keys, key) ensures Positions(keys, key)[i] < |keys| {
      PositionsAre(keys, key, i);
    }
  }

  /** The routing rows of one key, as the map holds them. */
  function Group(rows: seq<CallSide>, key: string): seq<CallSide> {
    PositionsInside(KeysOf(rows), key);
    RowsAt(rows, Positions(KeysOf(rows), key))
  }

  lemma GroupSnoc(rows: seq<CallSide>, row: CallSide, key: string)
    ensures Group(rows + [row], key) == Group(rows, key) + if Trim(row.conferenceId) == key then [row] else []
  {
    assert KeysOf(rows + [row]) == KeysOf(rows) + [Trim(row.conferenceId)];
    PositionsSnoc(KeysOf(rows), Trim(row.conferenceId), key);
    PositionsInside(KeysOf(rows), key);
  }

  lemma KeyOrderSnoc(rows: seq<CallSide>, row: CallSide)
    ensures
      var key, order := Trim(row.conferenceId), KeyOrder(KeysOf(rows));
      KeyOrder(KeysOf(rows + [row])) == if key == "" || key in order then order else order + [key]
  {
    hide Trim;
    var keys := KeysOf(rows + [row]);
    assert keys == KeysOf(rows) + [Trim(row.conferenceId)];
    assert keys[..|rows|] == KeysOf(rows);
  }

  ghost predicate Grouped(byKey: map<string, seq<CallSide>>, order: seq<string>, alone: seq<CallSide>, rows: seq<CallSide>) {
    && order == KeyOrder(KeysOf(rows))
    && alone == Group(rows, "")
    && (forall key :: key in byKey <==> key in order)
    && (forall key | key in byKey :: byKey[key] == Group(rows, key))
  }

  /** One more row goes to the end of its own group. */
  ghost predicate Grows(rows: seq<CallSide>, row: CallSide) {
    forall k :: Group(rows + [row], k) == if k == Trim(row.conferenceId) then Group(rows, k) + [row] else Group(rows, k)
  }

  lemma GroupsGrow(rows: seq<CallSide>, row: CallSide)
    ensures Grows(rows, row)
  {
    forall k: string
      ensures Group(rows + [row], k) == if k == Trim(row.conferenceId) then Group(rows, k) + [row] else Group(rows, k)
    {
      GroupSnoc(rows, row, k);
    }
  }

  lemma FirstOfGroup(byKey: map<string, seq<CallSide>>, order: seq<string>, alone: seq<CallSide>, rows: seq<CallSide>, key: string)
    requires Grouped(byKey, order, alone, rows) && key !in byKey && key != ""
    ensures Group(rows, key) == []
  {
    KeyOrderAre(KeysOf(rows));
    NoPositions(KeysOf(rows), key);
  }

  lemma BlankStep(byKey: map<string, seq<CallSide>>, order: seq<string>, alone: seq<CallSide>, rows: seq<CallSide>, row: CallSide)
    requires Grouped(byKey, order, alone, rows) && Trim(row.conferenceId) == ""
    ensures Grouped(byKey, order, alone + [row], rows + [row])
  {
    GroupsGrow(rows, row);
    KeyOrderSnoc(rows, row);
    KeyOrderAre(KeysOf(rows));
    hide Group, KeyOrder, KeysOf, Trim, Distinct;
    assert Group(rows + [row], "") == Group(rows, "") + [row];
    forall k | k in byKey ensures byKey[k] == Group(rows + [row], k) {
      assert k != "";
    }
  }

  lemma KnownStep(byKey: map<string, seq<CallSide>>, order: seq<string>, alone: seq<CallSide>, rows: seq<CallSide>, row: CallSide)
    requires Grouped(byKey, order, alone, rows) && Trim(row.conferenceId) != "" && Trim(row.conferenceId) in byKey
    ensures var key := Trim(row.conferenceId); Grouped(byKey[key := byKey[key] + [row]], order, alone, rows + [row])
  {
    GroupsGrow(rows, row);
    KeyOrderSnoc(rows, row);
    hide Group, KeyOrder, KeysOf, Trim, Distinct;
    var key := Trim(row.conferenceId);
    assert Group(rows + [row], "") == Group(rows, "");
    assert Group(rows + [row], key) == byKey[key] + [row];
  }

  lemma NewStep(byKey: map<string, seq<CallSide>>, order: seq<string>, alone: seq<CallSide>, rows: seq<CallSide>, row: CallSide)
    requires Grouped(byKey, order, alone, rows) && Trim(row.conferenceId) != "" && Trim(row.conferenceId) !in byKey
    ensures var key := Trim(row.conferenceId); Grouped(byKey[key := [row]], order + [key], alone, rows + [row])
  {
    KeyOrderSnoc(rows, row);
    FirstOfGroup(byKey, order, alone, rows, Trim(row.conferenceId));
    GroupSnoc(rows, row, "");
    hide Group, KeyOrder, KeysOf, Trim, Distinct;
    var key := Trim(row.conferenceId);
    var next := byKey[key := [row]];
    forall k | k in next ensures next[k] == Group(rows + [row], k) {
      GroupSnoc(rows, row, k);
      assert k == key ==> [] + [row] == [row];
    }
    assert order + [key] == KeyOrder(KeysOf(rows + [row]));
  }

  /** Routing rows by id in insertion order, and the blank ones apart. */
  method GroupRight(pupr: seq<CallSide>) returns (byKey: map<string, seq<CallSide>>, order: seq<string>, alone: seq<CallSide>)
    ensures Grouped(byKey, order, alone, pupr)
  {
    byKey, order, alone := map[], [], [];
    assert pupr[..0] == [];
    for k := 0 to |pupr|
      invariant Grouped(byKey, order, alone, pupr[..k])
    {
      var key := Trim(pupr[k].conferenceId);
      assert pupr[..k + 1] == pupr[..k] + [pupr[k]];
      if key == "" {
        BlankStep(byKey, order, alone, pupr[..k], pupr[k]);
        hide Grouped;
        alone := alone + [pupr[k]];
        continue;
      }
      if key in byKey {
        KnownStep(byKey, order, alone, pupr[..k], pupr[k]);
        hide Grouped;
        byKey := byKey[key := byKey[key] + [pupr[k]]];
      } else {
        NewStep(byKey, order, alone, pupr[..k], pupr[k]);
        hide Grouped;
        byKey, order := byKey[key := [pupr[k]]], order + [key];
      }
    }
    assert pupr[..|pupr|] == pupr;
  }

  function UsedOf(used: map<string, nat>, key: string): nat {
    if key in used then used[key] else 0
  }

  /** How far each group has been used up by the first `k` switching rows. */
  ghost predicate UsedUp(used: map<string, nat>, lefts: seq<string>, rights: seq<string>, k: nat)
    requires k <= |lefts|
  {
    forall key | key != "" :: UsedOf(used, key) == Min(Count(lefts[..k], key), Count(rights, key))
  }

  lemma UsedStep(used: map<string, nat>, lefts: seq<string>, rights: seq<string>, k: nat)
    requires k < |lefts| && UsedUp(used, lefts, rights, k)
    ensures
      var key := lefts[k];
      if key == "" || UsedOf(used, key) >= Count(rights, key) then UsedUp(used, lefts, rights, k + 1)
      else UsedUp(used[key := UsedOf(used, key) + 1], lefts, rights, k + 1)
  {
    assert lefts[..k + 1] == lefts[..k] + [lefts[k]];
    forall key: string ensures Count(lefts[..k + 1], key) == Count(lefts[..k], key) + if lefts[k] == key then 1 else 0 {
      PositionsSnoc(lefts[..k], lefts[k], key);
    }
    hide Count;
  }

  lemma MateOf(pcomm: seq<CallSide>, pupr: seq<CallSide>, used: map<string, nat>, k: nat)
    requires k < |pcomm| && UsedUp(used, KeysOf(pcomm), KeysOf(pupr), k)
    ensures
      var key := KeysOf(pcomm)[k];
      var group, index := Group(pupr, key), UsedOf(used, key);
      && |group| == Count(KeysOf(pupr), key)
      && Side(pupr, Mate(KeysOf(pcomm), KeysOf(pupr), k))
           == if key != "" && index < |group| then Some(group[index]) else None
  {
    PositionsInside(KeysOf(pupr), KeysOf(pcomm)[k]);
    hide KeysOf, Positions;
  }

  /** What the first `k` switching rows have put out and used up. */
  ghost predicate LeftDone(pcomm: seq<CallSide>, pupr: seq<CallSide>, k: nat, used: map<string, nat>, out: seq<JoinedCall>) {
    && k <= |pcomm|
    && UsedUp(used, KeysOf(pcomm), KeysOf(pupr), k)
    && out == Rendered(LeftPlan(KeysOf(pcomm), KeysOf(pupr), k), pcomm, pupr)
  }

  lemma LeftStep(pcomm: seq<CallSide>, pupr: seq<CallSide>, k: nat, used: map<string, nat>, out: seq<JoinedCall>,
      byKey: map<string, seq<CallSide>>, order: seq<string>, alone: seq<CallSide>)
    requires LeftDone(pcomm, pupr, k, used, out) && k < |pcomm| && Grouped(byKey, order, alone, pupr)
    ensures
      var key := Trim(pcomm[k].conferenceId);
      var group := if key in byKey then byKey[key] else [];
      var index := UsedOf(used, key);
      if key != "" && index < |group| then
        LeftDone(pcomm, pupr, k + 1, used[key := index + 1], out + [Merged(Some(pcomm[k]), Some(group[index]))])
      else LeftDone(pcomm, pupr, k + 1, used, out + [Merged(Some(pcomm[k]), None)])
  {
    GroupInMap(byKey, order, alone, pupr, Trim(pcomm[k].conferenceId));
    MateOf(pcomm, pupr, used, k);
    UsedStep(used, KeysOf(pcomm), KeysOf(pupr), k);
    RenderedStep(pcomm, pupr, k);
    assert KeysOf(pcomm)[k] == Trim(pcomm[k].conferenceId);
    hide UsedUp, Rendered, LeftPlan, Mate, Grouped, Group, Count, KeysOf, Merged, Trim;
  }

  lemma LeftStarts(pcomm: seq<CallSide>, pupr: seq<CallSide>)
    ensures LeftDone(pcomm, pupr, 0, map[], [])
  {
    NothingUsed(KeysOf(pcomm), KeysOf(pupr));
  }

  lemma LeftEnds(pcomm: seq<CallSide>, pupr: seq<CallSide>, used: map<string, nat>, out: seq<JoinedCall>)
    requires LeftDone(pcomm, pupr, |pcomm|, used, out)
    ensures out == Rendered(LeftPlan(KeysOf(pcomm), KeysOf(pupr), |pcomm|), pcomm, pupr)
    ensures UsedUp(used, KeysOf(pcomm), KeysOf(pupr), |pcomm|)
  {
  }

  method JoinLeft(pcomm: seq<CallSide>, pupr: seq<CallSide>, byKey: map<string, seq<CallSide>>,
      ghost order: seq<string>, ghost alone: seq<CallSide>) returns (out: seq<JoinedCall>, used: map<string, nat>)
    requires Grouped(byKey, order, alone, pupr)
    ensures out == Rendered(LeftPlan(KeysOf(pcomm), KeysOf(pupr), |pcomm|), pcomm, pupr)
    ensures UsedUp(used, KeysOf(pcomm), KeysOf(pupr), |pcomm|)
  {
    out, used := [], map[];
    LeftStarts(pcomm, pupr);
    hide LeftDone, Merged, Grouped;
    for k := 0 to |pcomm|
      invariant LeftDone(pcomm, pupr, k, used, out)
    {
      LeftStep(pcomm, pupr, k, used, out, byKey, order, alone);
      var key := Trim(pcomm[k].conferenceId);
      if key == "" {
        var row := Merge(Some(pcomm[k]), None);
        out := out + [row];
        continue;
      }
      var group := if key in byKey then byKey[key] else [];
      var index := UsedOf(used, key);
      var mate := if index < |group| then Some(group[index]) else None;
      if mate.Some? {
        used := used[key := index + 1];
      }
      var row := Merge(Some(pcomm[k]), mate);
      out := out + [row];
    }
    LeftEnds(pcomm, pupr, used, out);
  }

  lemma NothingUsed(lefts: seq<string>, rights: seq<string>)
    ensures UsedUp(map[], lefts, rights, 0)
  {
    assert lefts[..0] == [];
  }

  lemma GroupInMap(byKey: map<string, seq<CallSide>>, order: seq<string>, alone: seq<CallSide>, rows: seq<CallSide>, key: string)
    requires Grouped(byKey, order, alone, rows)
    ensures key != "" ==> (if key in byKey then byKey[key] else []) == Group(rows, key)
  {
    KeyOrderAre(KeysOf(rows));
    if key !in byKey && key != "" {
      NoPositions(KeysOf(rows), key);
    }
  }

  lemma RenderedStep(pcomm: seq<CallSide>, pupr: seq<CallSide>, k: nat)
    requires k < |pcomm|
    ensures
      var lefts, rights := KeysOf(pcomm), KeysOf(pupr);
      Rendered(LeftPlan(lefts, rights, k + 1), pcomm, pupr)
        == Rendered(LeftPlan(lefts, rights, k), pcomm, pupr) + [Merged(Some(pcomm[k]), Side(pupr, Mate(lefts, rights, k)))]
  {
    hide Mate, Merged;
  }

  lemma RenderedAppend(a: seq<Pair>, b: seq<Pair>, pcomm: seq<CallSide>, pupr: seq<CallSide>)
    ensures Rendered(a + b, pcomm, pupr) == Rendered(a, pcomm, pupr) + Rendered(b, pcomm, pupr)
  {
    hide Merged, Side;
  }

  /** Routing rows `from` on of one group, each as a row of its own. */
  method RightRows(group: seq<CallSide>, from: nat) returns (out: seq<JoinedCall>)
    requires from <= |group|
    ensures |out| == |group| - from
    ensures forall i | 0 <= i < |out| :: out[i] == Merged(None, Some(group[from + i]))
  {
    out := [];
    for cursor := from to |group|
      invariant |out| == cursor - from
      invariant forall i | 0 <= i < |out| :: out[i] == Merged(None, Some(group[from + i]))
    {
      var row := Merge(None, Some(group[cursor]));
      out := out + [row];
    }
  }

  lemma RightOnlyRendered(pcomm: seq<CallSide>, pupr: seq<CallSide>, key: string, from: nat, out: seq<JoinedCall>)
    requires from <= Count(KeysOf(pupr), key) == |Group(pupr, key)| && |out| == |Group(pupr, key)| - from
    requires forall i | 0 <= i < |out| :: out[i] == Merged(None, Some(Group(pupr, key)[from + i]))
    ensures out == Rendered(RightOnly(Positions(KeysOf(pupr), key)[from..]), pcomm, pupr)
  {
    PositionsInside(KeysOf(pupr), key);
    hide Positions, Merged;
  }

  method JoinLiveCalls(pcomm: seq<CallSide>, pupr: seq<CallSide>) returns (out: seq<JoinedCall>)
    ensures out == Rendered(Plan(KeysOf(pcomm), KeysOf(pupr)), pcomm, pupr)
  {
    hide Rendered, LeftPlan, Plan, KeysOf, KeyOrder, Count, Joining, Group, Grouped, UsedUp, Merged, Positions;
    ghost var lefts, rights := KeysOf(pcomm), KeysOf(pupr);
    var byKey, order, alone := GroupRight(pupr);
    var used: map<string, nat>;
    KeysLength(pcomm);
    out, used := JoinLeft(pcomm, pupr, byKey, order, alone);
    JoinStarts(pcomm, pupr);
    GroupSizes(byKey, order, alone, pupr);
    for k := 0 to |order|
      invariant out == Joining(pcomm, pupr, k)
    {
      UsedAt(used, lefts, rights, order, k);
      assert order[k] in order;
      var rows := RightRows(byKey[order[k]], UsedOf(used, order[k]));
      JoinStep(pcomm, pupr, k, rows);
      out := out + rows;
    }
    var rows := RightRows(alone, 0);
    BlankRows(pcomm, pupr, rows);
    JoinEnds(pcomm, pupr, rows);
    out := out + rows;
  }

  lemma KeysLength(rows: seq<CallSide>)
    ensures |KeysOf(rows)| == |rows|
  {
  }

  lemma UsedAt(used: map<string, nat>, lefts: seq<string>, rights: seq<string>, order: seq<string>, k: nat)
    requires UsedUp(used, lefts, rights, |lefts|) && order == KeyOrder(rights) && k < |order|
    ensures UsedOf(used, order[k]) == Min(Count(lefts, order[k]), Count(rights, order[k]))
  {
    KeyOrderAre(rights);
    assert order[k] in order;
    assert lefts[..|lefts|] == lefts;
  }

  lemma GroupSizes(byKey: map<string, seq<CallSide>>, order: seq<string>, alone: seq<CallSide>, rows: seq<CallSide>)
    requires Grouped(byKey, order, alone, rows)
    ensures order == KeyOrder(KeysOf(rows)) && alone == Group(rows, "")
    ensures forall key | key in order :: key in byKey && byKey[key] == Group(rows, key)
    ensures forall key :: |Group(rows, key)| == Count(KeysOf(rows), key)
  {
  }

  /** The rows put out once the leftovers of the first `k` ids are. */
  function Joining(pcomm: seq<CallSide>, pupr: seq<CallSide>, k: nat): seq<JoinedCall>
    requires k <= |KeyOrder(KeysOf(pupr))|
  {
    var lefts, rights := KeysOf(pcomm), KeysOf(pupr);
    Rendered(LeftPlan(lefts, rights, |lefts|) + LeftoverPlan(lefts, rights, KeyOrder(rights)[..k]), pcomm, pupr)
  }

  lemma JoinStarts(pcomm: seq<CallSide>, pupr: seq<CallSide>)
    ensures Joining(pcomm, pupr, 0) == Rendered(LeftPlan(KeysOf(pcomm), KeysOf(pupr), |pcomm|), pcomm, pupr)
  {
    var lefts, rights := KeysOf(pcomm), KeysOf(pupr);
    assert KeyOrder(rights)[..0] == [];
    var head := LeftPlan(lefts, rights, |lefts|);
    assert head + LeftoverPlan(lefts, rights, []) == head;
    hide Rendered, LeftPlan;
  }

  lemma JoinStep(pcomm: seq<CallSide>, pupr: seq<CallSide>, k: nat, rows: seq<JoinedCall>)
    requires k < |KeyOrder(KeysOf(pupr))|
    requires
      var key := KeyOrder(KeysOf(pupr))[k];
      var from := Min(Count(KeysOf(pcomm), key), Count(KeysOf(pupr), key));
      && |Group(pupr, key)| == Count(KeysOf(pupr), key)
      && |rows| == |Group(pupr, key)| - from
      && forall i | 0 <= i < |rows| :: rows[i] == Merged(None, Some(Group(pupr, key)[from + i]))
    ensures Joining(pcomm, pupr, k + 1) == Joining(pcomm, pupr, k) + rows
  {
    var lefts, rights := KeysOf(pcomm), KeysOf(pupr);
    var order := KeyOrder(rights);
    RightOnlyRendered(pcomm, pupr, order[k], Min(Count(lefts, order[k]), Count(rights, order[k])), rows);
    LeftoverStep(lefts, rights, order, k);
    hide Rendered, LeftPlan, LeftoverPlan, Positions, Group, KeyOrder, KeysOf, RightOnly;
    var head := LeftPlan(lefts, rights, |lefts|);
    var before, more := LeftoverPlan(lefts, rights, order[..k]), RightOnly(LeftoverPositions(lefts, rights, order[k]));
    RenderedAppend(head + before, more, pcomm, pupr);
    assert head + before + more == head + (before + more);
  }

  lemma BlankRows(pcomm: seq<CallSide>, pupr: seq<CallSide>, rows: seq<JoinedCall>)
    requires |rows| == |Group(pupr, "")| == Count(KeysOf(pupr), "")
    requires forall i | 0 <= i < |rows| :: rows[i] == Merged(None, Some(Group(pupr, "")[i]))
    ensures rows == Rendered(RightOnly(Positions(KeysOf(pupr), "")), pcomm, pupr)
  {
    PositionsInside(KeysOf(pupr), "");
    hide Positions, Merged;
  }

  lemma JoinEnds(pcomm: seq<CallSide>, pupr: seq<CallSide>, rows: seq<JoinedCall>)
    requires rows == Rendered(RightOnly(Positions(KeysOf(pupr), "")), pcomm, pupr)
    ensures Joining(pcomm, pupr, |KeyOrder(KeysOf(pupr))|) + rows == Rendered(Plan(KeysOf(pcomm), KeysOf(pupr)), pcomm, pupr)
  {
    hide Rendered, LeftPlan, LeftoverPlan, Positions, KeyOrder, KeysOf, RightOnly;
    var lefts, rights := KeysOf(pcomm), KeysOf(pupr);
    assert KeyOrder(rights)[..|KeyOrder(rights)|] == KeyOrder(rights);
    RenderedAppend(LeftPlan(lefts, rights, |lefts|) + LeftoverPlan(lefts, rights, KeyOrder(rights)),
                   RightOnly(Positions(rights, "")), pcomm, pupr);
  }

  lemma LeftoverStep(lefts: seq<string>, rights: seq<string>, order: seq<string>, k: nat)
    requires k < |order|
    ensures LeftoverPlan(lefts, rights, order[..k + 1])
      == LeftoverPlan(lefts, rights, order[..k]) + RightOnly(LeftoverPositions(lefts, rights, order[k]))
  {
    assert order[..k + 1][..k] == order[..k];
  }
}
