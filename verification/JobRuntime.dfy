/**
 * The in-process job runtime: a set of in-flight flags, a vacuum gate, and the scheduler
 * that feeds it. A job that throws clears its flag twice, the second time late.
 */
module JobRuntime {
  import opened Wrappers

  datatype Action =
    | RegsPoll | PhonesSync | GroupsSync | CdrImport | SmgImport | VoipmonitorMatch
    | CdrSidesRefresh | CdrPurgeMonth | CdrTariffRate | DbVacuum | Unknown

  const SUPPORTED_JOB_ACTIONS := {
    RegsPoll, PhonesSync, GroupsSync, CdrImport, SmgImport, VoipmonitorMatch,
    CdrSidesRefresh, CdrPurgeMonth, CdrTariffRate, DbVacuum}

  const CDR_BLOCKS_VACUUM := [CdrImport, SmgImport, VoipmonitorMatch, CdrSidesRefresh, CdrPurgeMonth, CdrTariffRate]

  const EXPORT_DEFER_SEC := 20
  const PHONES_SYNC_INTERVAL_SEC := 60
  const GROUPS_SYNC_INTERVAL_SEC := 120

  datatype Refusal = Unsupported | AlreadyInFlight | InFlight(code: Action) | MonthExportInFlight

  /** What holds a flag: a job, or a geography activation that occupies `phones.sync`. */
  datatype Work = Job(action: Action) | Occupant

  /** `live` is the work under way, `late` the rejection handlers that have not fired yet. */
  datatype State = State(inFlight: set<Action>, gate: bool, live: multiset<Work>, late: multiset<Action>)

  datatype Event =
    | Enqueue(action: Action, exporting: bool)
    | Finish(action: Action, threw: bool)
    | Reject(action: Action)
    | Occupy
    | Vacate

  // ----- the refusals

  function FirstInFlight(codes: seq<Action>, inFlight: set<Action>): Option<Action> {
    if codes == [] then None
    else if codes[0] in inFlight then Some(codes[0])
    else FirstInFlight(codes[1..], inFlight)
  }

  function RefusalOf(inFlight: set<Action>, action: Action, exporting: bool): Option<Refusal> {
    if action !in SUPPORTED_JOB_ACTIONS then Some(Unsupported)
    else if action in inFlight then Some(AlreadyInFlight)
    else if action == CdrPurgeMonth && CdrImport in inFlight then Some(InFlight(CdrImport))
    else if action == CdrPurgeMonth && SmgImport in inFlight then Some(InFlight(SmgImport))
    else if action == DbVacuum && exporting then Some(MonthExportInFlight)
    else if action == DbVacuum && FirstInFlight(CDR_BLOCKS_VACUUM, inFlight).Some? then
      Some(InFlight(FirstInFlight(CDR_BLOCKS_VACUUM, inFlight).value))
    else if action in CDR_BLOCKS_VACUUM && DbVacuum in inFlight then Some(InFlight(DbVacuum))
    else None
  }

  lemma {:induction false} FirstInFlightIs(codes: seq<Action>, inFlight: set<Action>)
    ensures FirstInFlight(codes, inFlight).None? <==> forall code | code in codes :: code !in inFlight
    ensures FirstInFlight(codes, inFlight).Some? ==> FirstInFlight(codes, inFlight).value in inFlight
  {
    if codes != [] {
      FirstInFlightIs(codes[1..], inFlight);
      assert codes == [codes[0]] + codes[1..];
    }
  }

  /** An enqueue is accepted exactly when nothing it may not overlap is in flight. */
  lemma AcceptedIff(inFlight: set<Action>, action: Action, exporting: bool)
    ensures RefusalOf(inFlight, action, exporting).None? <==>
      && action != Unknown
      && action !in inFlight
      && (action == CdrPurgeMonth ==> CdrImport !in inFlight && SmgImport !in inFlight)
      && (action == DbVacuum ==> !exporting && forall code | code in CDR_BLOCKS_VACUUM :: code !in inFlight)
      && (action in CDR_BLOCKS_VACUUM ==> DbVacuum !in inFlight)
  {
    FirstInFlightIs(CDR_BLOCKS_VACUUM, inFlight);
    assert action in SUPPORTED_JOB_ACTIONS <==> action != Unknown;
    hide FirstInFlight;
  }

  // ----- the state machine

  function LiveCount(s: State, action: Action): nat {
    s.live[Job(action)] + if action == PhonesSync then s.live[Occupant] else 0
  }

  function EnqueueStep(s: State, action: Action, exporting: bool): State {
    if RefusalOf(s.inFlight, action, exporting).Some? then s
    else State(s.inFlight + {action}, s.gate || action == DbVacuum, s.live + multiset{Job(action)}, s.late)
  }

  function FinishStep(s: State, action: Action, threw: bool): State {
    if Job(action) !in s.live then s
    else
      State(s.inFlight - {action}, s.gate && action != DbVacuum, s.live - multiset{Job(action)},
            if threw then s.late + multiset{action} else s.late)
  }

  function RejectStep(s: State, action: Action): State {
    if action !in s.late then s
    else State(s.inFlight - {action}, s.gate, s.live, s.late - multiset{action})
  }

  function OccupyStep(s: State): State {
    if PhonesSync in s.inFlight then s
    else State(s.inFlight + {PhonesSync}, s.gate, s.live + multiset{Occupant}, s.late)
  }

  function VacateStep(s: State): State {
    if Occupant !in s.live then s
    else State(s.inFlight - {PhonesSync}, s.gate, s.live - multiset{Occupant}, s.late)
  }

  function Next(s: State, event: Event): State {
    match event
    case Enqueue(action, exporting) => EnqueueStep(s, action, exporting)
    case Finish(action, threw) => FinishStep(s, action, threw)
    case Reject(action) => RejectStep(s, action)
    case Occupy => OccupyStep(s)
    case Vacate => VacateStep(s)
  }

  function Run(s: State, events: seq<Event>): State {
    if events == [] then s else Next(Run(s, events[..|events| - 1]), events[|events| - 1])
  }

  const IDLE := State({}, false, multiset{}, multiset{})

  /** Each action is live at most once and flagged exactly then; the gate follows the vacuum, which is alone. */
  ghost predicate Inv(s: State) {
    && (forall action :: LiveCount(s, action) == if action in s.inFlight then 1 else 0)
    && (s.gate <==> DbVacuum in s.inFlight)
    && (DbVacuum in s.inFlight ==> forall code | code in CDR_BLOCKS_VACUUM :: code !in s.inFlight)
  }

  /** The late handler of an action fires while none of its work is live. */
  predicate Timely(s: State, event: Event) {
    event.Reject? && event.action in s.late ==> LiveCount(s, event.action) == 0
  }

  lemma EnqueueKeeps(s: State, action: Action, exporting: bool)
    requires Inv(s)
    ensures Inv(Next(s, Enqueue(action, exporting)))
  {
    AcceptedIff(s.inFlight, action, exporting);
    hide RefusalOf;
    var after := Next(s, Enqueue(action, exporting));
    forall a ensures LiveCount(after, a) == if a in after.inFlight then 1 else 0 {
      assert LiveCount(s, a) == if a in s.inFlight then 1 else 0;
    }
  }

  lemma FinishKeeps(s: State, action: Action, threw: bool)
    requires Inv(s)
    ensures Inv(Next(s, Finish(action, threw)))
  {
    var after := Next(s, Finish(action, threw));
    assert LiveCount(s, action) == if action in s.inFlight then 1 else 0;
    forall a ensures LiveCount(after, a) == if a in after.inFlight then 1 else 0 {
      assert LiveCount(s, a) == if a in s.inFlight then 1 else 0;
    }
  }

  lemma OccupancyKeeps(s: State)
    requires Inv(s)
    ensures Inv(Next(s, Occupy)) && Inv(Next(s, Vacate))
  {
    var taken, left := Next(s, Occupy), Next(s, Vacate);
    assert LiveCount(s, PhonesSync) == if PhonesSync in s.inFlight then 1 else 0;
    forall a ensures LiveCount(taken, a) == if a in taken.inFlight then 1 else 0 {
      assert LiveCount(s, a) == if a in s.inFlight then 1 else 0;
    }
    forall a ensures LiveCount(left, a) == if a in left.inFlight then 1 else 0 {
      assert LiveCount(s, a) == if a in s.inFlight then 1 else 0;
    }
  }

  lemma SameFlags(s: State, after: State)
    requires Inv(s) && after.inFlight == s.inFlight && after.gate == s.gate && after.live == s.live
    ensures Inv(after)
  {
    forall a ensures LiveCount(after, a) == if a in after.inFlight then 1 else 0 {
      assert LiveCount(after, a) == LiveCount(s, a);
    }
  }

  lemma Unflagged(s: State, action: Action)
    requires LiveCount(s, action) == 1 && action !in s.inFlight
    ensures !Inv(s)
  {
  }

  lemma FlaggedIffLive(s: State, action: Action)
    requires Inv(s)
    ensures LiveCount(s, action) == if action in s.inFlight then 1 else 0
  {
  }

  /** The second delete of a flag does no harm exactly when it finds no live work of that action. */
  lemma RejectKeepsIff(s: State, action: Action)
    requires Inv(s)
    ensures Inv(Next(s, Reject(action))) <==> Timely(s, Reject(action))
  {
    FlaggedIffLive(s, action);
    hide Inv;
    var after := RejectStep(s, action);
    if Timely(s, Reject(action)) {
      assert after.inFlight == s.inFlight;
      SameFlags(s, after);
    } else {
      assert LiveCount(after, action) == LiveCount(s, action);
      Unflagged(after, action);
    }
  }

  /** Every step keeps the invariant but one: a late handler that fires after the next job of its action was accepted. */
  lemma StepKeepsIff(s: State, event: Event)
    requires Inv(s)
    ensures Inv(Next(s, event)) <==> Timely(s, event)
  {
    match event
    case Enqueue(action, exporting) => EnqueueKeeps(s, action, exporting);
    case Finish(action, threw) => FinishKeeps(s, action, threw);
    case Reject(action) => RejectKeepsIff(s, action);
    case Occupy => OccupancyKeeps(s);
    case Vacate => OccupancyKeeps(s);
  }

  ghost predicate AllTimely(s: State, events: seq<Event>) {
    forall k | 0 <= k < |events| :: Timely(Run(s, events[..k]), events[k])
  }

  lemma {:induction false} ReachableInv(events: seq<Event>)
    requires AllTimely(IDLE, events)
    ensures Inv(Run(IDLE, events))
    decreases |events|
  {
    if events == [] {
    } else {
      var n := |events| - 1;
      assert forall k | 0 <= k <= n :: events[..n][..k] == events[..k];
      ReachableInv(events[..n]);
      StepKeepsIff(Run(IDLE, events[..n]), events[n]);
    }
  }

  ghost predicate AlwaysInv(events: seq<Event>) {
    forall k | 0 <= k <= |events| :: Inv(Run(IDLE, events[..k]))
  }

  /** Over any run of the runtime the invariant holds throughout exactly when no late handler finds live work. */
  lemma AlwaysInvIff(events: seq<Event>)
    ensures AlwaysInv(events) <==> AllTimely(IDLE, events)
  {
    hide Inv, Timely, Next, Run;
    if AlwaysInv(events) {
      forall k | 0 <= k < |events| ensures Timely(Run(IDLE, events[..k]), events[k]) {
        assert events[..k + 1][..k] == events[..k];
        RunSnoc(IDLE, events[..k], events[k]);
        assert events[..k] + [events[k]] == events[..k + 1];
        StepKeepsIff(Run(IDLE, events[..k]), events[k]);
      }
    }
    if AllTimely(IDLE, events) {
      forall k | 0 <= k <= |events| ensures Inv(Run(IDLE, events[..k])) {
        assert forall n | 0 <= n < k :: events[..k][..n] == events[..n];
        ReachableInv(events[..k]);
      }
    }
  }

  /** After a late handler that does, the next accepted enqueue makes its action live twice. */
  lemma UntimelyOverlaps(s: State, action: Action, exporting: bool)
    requires Inv(s) && !Timely(s, Reject(action))
    requires RefusalOf(RejectStep(s, action).inFlight, action, exporting).None?
    ensures LiveCount(EnqueueStep(RejectStep(s, action), action, exporting), action) == 2
  {
    FlaggedIffLive(s, action);
    hide Inv, RefusalOf;
  }

  /**
   * In every reachable state no action is live twice, the vacuum is never live beside an
   * action that blocks it, and the gate is on exactly while the vacuum is live.
   */
  lemma NeverTogether(events: seq<Event>, action: Action, code: Action)
    requires AllTimely(IDLE, events) && code in CDR_BLOCKS_VACUUM
    ensures
      var s := Run(IDLE, events);
      && LiveCount(s, action) <= 1
      && (LiveCount(s, action) == 1 <==> action in s.inFlight)
      && (LiveCount(s, DbVacuum) == 0 || LiveCount(s, code) == 0)
      && (s.gate <==> LiveCount(s, DbVacuum) == 1)
  {
    ReachableInv(events);
    var s := Run(IDLE, events);
    hide Run, AllTimely;
    assert LiveCount(s, action) == if action in s.inFlight then 1 else 0;
    assert LiveCount(s, code) == if code in s.inFlight then 1 else 0;
    assert LiveCount(s, DbVacuum) == if DbVacuum in s.inFlight then 1 else 0;
  }

  /** A month purge is only accepted while no import is live. */
  lemma PurgeNeedsNoImport(events: seq<Event>, exporting: bool)
    requires AllTimely(IDLE, events)
    requires RefusalOf(Run(IDLE, events).inFlight, CdrPurgeMonth, exporting).None?
    ensures
      var s := Run(IDLE, events);
      LiveCount(s, CdrImport) == 0 && LiveCount(s, SmgImport) == 0 && LiveCount(s, DbVacuum) == 0 && LiveCount(s, CdrPurgeMonth) == 0
  {
    ReachableInv(events);
    var s := Run(IDLE, events);
    AcceptedIff(s.inFlight, CdrPurgeMonth, exporting);
    hide Run, AllTimely, RefusalOf;
    assert CdrPurgeMonth in CDR_BLOCKS_VACUUM;
    forall a | a in [CdrImport, SmgImport, DbVacuum, CdrPurgeMonth] ensures LiveCount(s, a) == 0 {
      assert LiveCount(s, a) == if a in s.inFlight then 1 else 0;
    }
  }

  lemma {:induction false} RunSnoc(s: State, events: seq<Event>, event: Event)
    ensures Run(s, events + [event]) == Next(Run(s, events), event)
  {
    assert (events + [event])[..|events|] == events;
  }

  /** The exclusion is one-way: an import is accepted while a purge is live. */
  lemma ImportDuringPurge(exporting: bool)
    ensures
      var s := Run(IDLE, [Enqueue(CdrPurgeMonth, exporting)] + [Enqueue(CdrImport, exporting)]);
      LiveCount(s, CdrPurgeMonth) == 1 && LiveCount(s, CdrImport) == 1
  {
    AcceptedIff({}, CdrPurgeMonth, exporting);
    AcceptedIff({CdrPurgeMonth}, CdrImport, exporting);
    RunSnoc(IDLE, [Enqueue(CdrPurgeMonth, exporting)], Enqueue(CdrImport, exporting));
    RunSnoc(IDLE, [], Enqueue(CdrPurgeMonth, exporting));
    assert [] + [Enqueue(CdrPurgeMonth, exporting)] == [Enqueue(CdrPurgeMonth, exporting)];
    hide RefusalOf;
  }

  lemma OverlapSteps(action: Action)
    requires action == RegsPoll || action == GroupsSync || action == PhonesSync
    ensures
      var flagged, idle := State({action}, false, multiset{Job(action)}, multiset{}), State({}, false, multiset{}, multiset{action});
      && EnqueueStep(IDLE, action, false) == flagged
      && FinishStep(flagged, action, true) == idle
      && RejectStep(EnqueueStep(idle, action, false), action) == State({}, false, multiset{Job(action)}, multiset{})
      && LiveCount(EnqueueStep(State({}, false, multiset{Job(action)}, multiset{}), action, false), action) == 2
  {
    AcceptedIff({}, action, false);
    hide RefusalOf;
  }

  /** Without the timing assumption one action can be live twice: throw, enqueue, late delete, enqueue. */
  lemma LateHandlerBreaksOverlap(action: Action)
    requires action == RegsPoll || action == GroupsSync || action == PhonesSync
    ensures
      var once := [Enqueue(action, false)];
      LiveCount(Run(IDLE, once + [Finish(action, true)] + once + [Reject(action)] + once), action) == 2
  {
    OverlapSteps(action);
    hide EnqueueStep, FinishStep, RejectStep;
    var once := [Enqueue(action, false)];
    assert [] + once == once;
    RunSnoc(IDLE, [], Enqueue(action, false));
    assert Run(IDLE, []) == IDLE;
    hide Run;
    RunSnoc(IDLE, once, Finish(action, true));
    RunSnoc(IDLE, once + [Finish(action, true)], Enqueue(action, false));
    RunSnoc(IDLE, once + [Finish(action, true)] + once, Reject(action));
    RunSnoc(IDLE, once + [Finish(action, true)] + once + [Reject(action)], Enqueue(action, false));
  }

  // ----- the code

  class PQueueJobRuntime {
    var inFlight: set<Action>
    var vacuumActive: bool
    ghost var live: multiset<Work>
    ghost var late: multiset<Action>

    ghost function Now(): State
      reads this
    {
      State(inFlight, vacuumActive, live, late)
    }

    constructor ()
      ensures Now() == IDLE
    {
      inFlight, vacuumActive, live, late := {}, false, multiset{}, multiset{};
    }

    method Enqueue(action: Action, exporting: bool) returns (refusal: Option<Refusal>)
      modifies this
      ensures refusal == RefusalOf(old(inFlight), action, exporting)
      ensures Now() == EnqueueStep(old(Now()), action, exporting)
    {
      if action !in SUPPORTED_JOB_ACTIONS {
        return Some(Unsupported);
      }
      if action in inFlight {
        return Some(AlreadyInFlight);
      }
      if action == CdrPurgeMonth && CdrImport in inFlight {
        return Some(InFlight(CdrImport));
      }
      if action == CdrPurgeMonth && SmgImport in inFlight {
        return Some(InFlight(SmgImport));
      }
      if action == DbVacuum && exporting {
        return Some(MonthExportInFlight);
      }
      if action == DbVacuum {
        for i := 0 to |CDR_BLOCKS_VACUUM|
          invariant FirstInFlight(CDR_BLOCKS_VACUUM, inFlight) == FirstInFlight(CDR_BLOCKS_VACUUM[i..], inFlight)
          invariant inFlight == old(inFlight) && Now() == old(Now())
        {
          assert CDR_BLOCKS_VACUUM[i..][0] == CDR_BLOCKS_VACUUM[i];
          assert CDR_BLOCKS_VACUUM[i..][1..] == CDR_BLOCKS_VACUUM[i + 1..];
          if CDR_BLOCKS_VACUUM[i] in inFlight {
            return Some(InFlight(CDR_BLOCKS_VACUUM[i]));
          }
        }
      }
      if action in CDR_BLOCKS_VACUUM && DbVacuum in inFlight {
        return Some(InFlight(DbVacuum));
      }
      inFlight := inFlight + {action};
      if action == DbVacuum {
        vacuumActive := true;
      }
      live := live + multiset{Job(action)};
      return None;
    }

    /** The `finally` block of a job; a job that threw leaves a rejection handler behind. */
    method Finish(action: Action, threw: bool)
      requires Job(action) in live
      modifies this
      ensures Now() == FinishStep(old(Now()), action, threw)
    {
      if action == DbVacuum {
        vacuumActive := false;
      }
      inFlight := inFlight - {action};
      live := live - multiset{Job(action)};
      if threw {
        late := late + multiset{action};
      }
    }

    method Reject(action: Action)
      requires action in late
      modifies this
      ensures Now() == RejectStep(old(Now()), action)
    {
      inFlight := inFlight - {action};
      late := late - multiset{action};
    }

    method OccupyPhonesSync() returns (accepted: bool)
      modifies this
      ensures accepted <==> PhonesSync !in old(inFlight)
      ensures Now() == OccupyStep(old(Now()))
    {
      if PhonesSync in inFlight {
        return false;
      }
      inFlight := inFlight + {PhonesSync};
      live := live + multiset{Occupant};
      return true;
    }

    method VacatePhonesSync()
      requires Occupant in live
      modifies this
      ensures Now() == VacateStep(old(Now()))
    {
      inFlight := inFlight - {PhonesSync};
      live := live - multiset{Occupant};
    }
  }

  // ----- the scheduler

  datatype CatalogTick = CatalogTick(action: Option<Action>, delaySec: nat)

  function CatalogPeriodSec(kind: Action): nat {
    if kind == GroupsSync then GROUPS_SYNC_INTERVAL_SEC else PHONES_SYNC_INTERVAL_SEC
  }

  function ScheduledCatalogTick(kind: Action, enabled: bool, phones: bool, groups: bool, regs: bool): CatalogTick {
    if !enabled then CatalogTick(None, CatalogPeriodSec(kind))
    else if phones || groups || regs then CatalogTick(None, EXPORT_DEFER_SEC)
    else CatalogTick(Some(kind), CatalogPeriodSec(kind))
  }

  function CatalogDelayAfterEnqueue(delaySec: nat, accepted: bool): nat {
    if accepted then delaySec else EXPORT_DEFER_SEC
  }

  function ScheduledRegsAction(inFlight: bool): Option<Action> {
    if inFlight then None else Some(RegsPoll)
  }

  predicate Quiet(inFlight: set<Action>) {
    PhonesSync !in inFlight && GroupsSync !in inFlight && RegsPoll !in inFlight
  }

  /**
   * One catalog tick, from the settings read on: no await lies between looking at the
   * flags and setting one. A load starts exactly when it is enabled and neither load nor
   * `regs.poll` is in flight; it is then never refused, and a blocked tick comes back soon.
   */
  method TickCatalog(runtime: PQueueJobRuntime, kind: Action, enabled: Option<bool>, exporting: bool)
    returns (delaySec: nat, started: bool)
    requires kind == PhonesSync || kind == GroupsSync
    modifies runtime
    ensures started <==> enabled == Some(true) && Quiet(old(runtime.inFlight))
    ensures started ==> runtime.Now() == EnqueueStep(old(runtime.Now()), kind, exporting) && kind in runtime.inFlight
    ensures !started ==> runtime.Now() == old(runtime.Now())
    ensures delaySec ==
      if enabled == Some(true) && !Quiet(old(runtime.inFlight)) then EXPORT_DEFER_SEC else CatalogPeriodSec(kind)
  {
    started := false;
    if enabled.None? {
      return CatalogPeriodSec(kind), false;
    }
    var decision := ScheduledCatalogTick(
      kind, enabled.value, PhonesSync in runtime.inFlight, GroupsSync in runtime.inFlight, RegsPoll in runtime.inFlight);
    delaySec := decision.delaySec;
    if !enabled.value {
      return;
    }
    if decision.action.None? {
      return;
    }
    AcceptedIff(runtime.inFlight, kind, exporting);
    hide RefusalOf, EnqueueStep;
    assert CDR_BLOCKS_VACUUM[0] == CdrImport;
    assert kind !in CDR_BLOCKS_VACUUM;
    var refusal := runtime.Enqueue(decision.action.value, exporting);
    NextFlags(old(runtime.Now()), kind, exporting);
    started := refusal.None?;
    delaySec := CatalogDelayAfterEnqueue(decision.delaySec, started);
  }

  lemma NextFlags(s: State, action: Action, exporting: bool)
    requires RefusalOf(s.inFlight, action, exporting).None?
    ensures action in EnqueueStep(s, action, exporting).inFlight
  {
  }

  method TickRegs(runtime: PQueueJobRuntime, enabled: bool, exporting: bool) returns (started: bool)
    modifies runtime
    ensures started <==> enabled && RegsPoll !in old(runtime.inFlight)
    ensures runtime.Now() == if started then EnqueueStep(old(runtime.Now()), RegsPoll, exporting) else old(runtime.Now())
  {
    if !enabled {
      return false;
    }
    var action := ScheduledRegsAction(RegsPoll in runtime.inFlight);
    if action.None? {
      return false;
    }
    AcceptedIff(runtime.inFlight, RegsPoll, exporting);
    hide RefusalOf, EnqueueStep;
    var refusal := runtime.Enqueue(action.value, exporting);
    return refusal.None?;
  }

  /** So in every reachable state a catalog load the scheduler starts finds no other load and no poll live. */
  lemma CatalogStartsAlone(events: seq<Event>)
    requires AllTimely(IDLE, events) && Quiet(Run(IDLE, events).inFlight)
    ensures
      var s := Run(IDLE, events);
      LiveCount(s, PhonesSync) == 0 && LiveCount(s, GroupsSync) == 0 && LiveCount(s, RegsPoll) == 0
  {
    ReachableInv(events);
    var s := Run(IDLE, events);
    hide Run, AllTimely;
    forall a | a in [PhonesSync, GroupsSync, RegsPoll] ensures LiveCount(s, a) == 0 {
      assert LiveCount(s, a) == if a in s.inFlight then 1 else 0;
    }
    assert forall a | a == PhonesSync || a == GroupsSync || a == RegsPoll :: a in [PhonesSync, GroupsSync, RegsPoll];
  }
}
