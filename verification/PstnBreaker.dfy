/**
 * Filling the PSTN cache: lookup chains that share one queue, a cooldown per phone and two
 * service-wide blocks. Every await is a step boundary, and time only moves forward.
 */
module PstnBreaker {
  import opened Wrappers

  const FAILURE_COOLDOWN_MS := 300_000
  const AUTH_BLOCK_MS := 600_000
  const NET_BLOCK_MS := 60_000
  const MAX_RETRY_WAIT_MS := 2_000
  const NET_STRIKES_TO_BLOCK := 3

  /** Anything that is not a lookup error counts as NETWORK. */
  datatype Code = UNAUTHORIZED | TIMEOUT | NETWORK | NOT_READY | RATE_LIMITED(retryAfterSec: Option<int>) | OTHER

  datatype Breaker = Breaker(cooldownUntil: map<string, int>, authBlockedUntil: int, netBlockedUntil: int, strikes: nat)

  /** Where one call of `runLookup` is; `Settling` is after it returned and before its `finally`. */
  datatype Phase = Queued | Trying | Sleeping(code: Code, until: int) | Retrying | Settling

  datatype Chain = Chain(phone: string, phase: Phase)

  /** What happened, in order: lookups that started, failures noted, and what resets the strikes. */
  datatype Entry =
    | Attempt(phone: string, at: int, retry: bool)
    | Failed(phone: string, at: int, code: Code)
    | Stored(at: int)
    | Cleared(at: int)

  datatype State = State(
    breaker: Breaker, inflight: map<string, nat>, chains: map<nat, Chain>, started: nat, clock: int, log: seq<Entry>)

  datatype Event =
    | Request(phone: string)
    | Begin(id: nat)
    | Succeed(id: nat)
    | Fail(id: nat, code: Code)
    | Wake(id: nat)
    | Settle(id: nat)

  datatype Step = Step(now: int, event: Event)

  // ----- the breaker

  predicate IsBlocked(b: Breaker, now: int) {
    b.authBlockedUntil > now || b.netBlockedUntil > now
  }

  predicate Expired(b: Breaker, now: int) {
    !IsBlocked(b, now) && b.netBlockedUntil != 0
  }

  /** Asking clears a network block that has run out, and the strikes with it. */
  function Asked(b: Breaker, now: int): Breaker {
    if Expired(b, now) then b.(netBlockedUntil := 0, strikes := 0) else b
  }

  predicate IsCooling(b: Breaker, phone: string, now: int) {
    phone in b.cooldownUntil && b.cooldownUntil[phone] > now
  }

  /** Asking forgets a cooldown that has run out. */
  function Forgot(b: Breaker, phone: string, now: int): Breaker {
    if phone in b.cooldownUntil && b.cooldownUntil[phone] <= now
    then b.(cooldownUntil := map p | p in b.cooldownUntil && p != phone :: b.cooldownUntil[p])
    else b
  }

  predicate NetCode(code: Code) {
    code.TIMEOUT? || code.NETWORK? || code.NOT_READY?
  }

  function Noted(b: Breaker, phone: string, code: Code, now: int): Breaker {
    var cooled := b.(cooldownUntil := b.cooldownUntil[phone := now + FAILURE_COOLDOWN_MS]);
    if code == UNAUTHORIZED then cooled.(authBlockedUntil := now + AUTH_BLOCK_MS)
    else if !NetCode(code) then cooled
    else if b.strikes + 1 >= NET_STRIKES_TO_BLOCK then
      cooled.(strikes := b.strikes + 1, netBlockedUntil := now + NET_BLOCK_MS)
    else cooled.(strikes := b.strikes + 1)
  }

  // ----- steps

  function RetryWaitMs(code: Code): Option<int> {
    if !code.RATE_LIMITED? then None
    else
      var waitMs := (if code.retryAfterSec.Some? then code.retryAfterSec.value else 2) * 1000;
      if waitMs <= MAX_RETRY_WAIT_MS then Some(waitMs) else None
  }

  /** `blocked()`: the breaker after being asked, and what that leaves in the log. */
  function AskStep(s: State, now: int): State {
    s.(breaker := Asked(s.breaker, now), clock := now,
       log := if Expired(s.breaker, now) then s.log + [Cleared(now)] else s.log)
  }

  /** `blocked() || cooledDown(phone)`; the second is only asked if the first is false. */
  function CheckStep(s: State, phone: string, now: int): State {
    var asked := AskStep(s, now);
    if IsBlocked(s.breaker, now) then asked else asked.(breaker := Forgot(asked.breaker, phone, now))
  }

  predicate Refused(s: State, phone: string, now: int) {
    IsBlocked(s.breaker, now) || IsCooling(s.breaker, phone, now)
  }

  function Moved(s: State, id: nat, phase: Phase): State
    requires id in s.chains
  {
    s.(chains := s.chains[id := s.chains[id].(phase := phase)])
  }

  function Logged(s: State, entry: Entry): State {
    s.(log := s.log + [entry])
  }

  function Attempted(s: State, id: nat, retry: bool): State
    requires id in s.chains
  {
    Logged(Moved(s, id, if retry then Retrying else Trying), Attempt(s.chains[id].phone, s.clock, retry))
  }

  function NotedStep(s: State, id: nat, code: Code): State
    requires id in s.chains
  {
    var phone := s.chains[id].phone;
    Logged(Moved(s, id, Settling), Failed(phone, s.clock, code)).(breaker := Noted(s.breaker, phone, code, s.clock))
  }

  function RequestStep(s: State, phone: string, now: int): State {
    var checked := CheckStep(s, phone, now);
    if Refused(s, phone, now) || phone in s.inflight then checked
    else
      checked.(inflight := s.inflight[phone := s.started], chains := s.chains[s.started := Chain(phone, Queued)],
               started := s.started + 1)
  }

  function BeginStep(s: State, id: nat, now: int): State {
    if id !in s.chains || !s.chains[id].phase.Queued? then s
    else
      var checked := CheckStep(s, s.chains[id].phone, now);
      if Refused(s, s.chains[id].phone, now) then Moved(checked, id, Settling) else Attempted(checked, id, false)
  }

  function SucceedStep(s: State, id: nat, now: int): State {
    if id !in s.chains || !(s.chains[id].phase.Trying? || s.chains[id].phase.Retrying?) then s
    else Logged(Moved(s.(clock := now, breaker := s.breaker.(strikes := 0)), id, Settling), Stored(now))
  }

  function FailStep(s: State, id: nat, code: Code, now: int): State {
    if id !in s.chains then s
    else
      var at := s.(clock := now);
      match s.chains[id].phase
      case Trying =>
        if RetryWaitMs(code).Some? then Moved(at, id, Sleeping(code, now + RetryWaitMs(code).value)) else NotedStep(at, id, code)
      case Retrying => NotedStep(at, id, code)
      case _ => s
  }

  function WakeStep(s: State, id: nat, now: int): State {
    if id !in s.chains || !s.chains[id].phase.Sleeping? || s.chains[id].phase.until > now then s
    else
      var asked := AskStep(s, now);
      if IsBlocked(s.breaker, now) then NotedStep(asked, id, s.chains[id].phase.code) else Attempted(asked, id, true)
  }

  /** The `finally` of `lookupOnce`. */
  function SettleStep(s: State, id: nat, now: int): State {
    if id !in s.chains || !s.chains[id].phase.Settling? then s
    else
      var phone := s.chains[id].phone;
      s.(clock := now,
         chains := map k | k in s.chains && k != id :: s.chains[k],
         inflight := if phone in s.inflight && s.inflight[phone] == id
                     then map p | p in s.inflight && p != phone :: s.inflight[p] else s.inflight)
  }

  function Next(s: State, step: Step): State {
    match step.event
    case Request(phone) => RequestStep(s, phone, step.now)
    case Begin(id) => BeginStep(s, id, step.now)
    case Succeed(id) => SucceedStep(s, id, step.now)
    case Fail(id, code) => FailStep(s, id, code, step.now)
    case Wake(id) => WakeStep(s, id, step.now)
    case Settle(id) => SettleStep(s, id, step.now)
  }

  function Run(s: State, steps: seq<Step>): State {
    if steps == [] then s else Next(Run(s, steps[..|steps| - 1]), steps[|steps| - 1])
  }

  ghost predicate ClockRuns(steps: seq<Step>) {
    && (forall k | 0 <= k < |steps| :: steps[k].now > 0)
    && (forall j, k | 0 <= j < k < |steps| :: steps[j].now <= steps[k].now)
  }

  const FRESH := State(Breaker(map[], 0, 0, 0), map[], map[], 0, 0, [])

  // ----- one chain per phone

  /** Every chain is the one in flight for its phone, and every phone in flight has its chain. */
  ghost predicate OneChain(s: State) {
    && (forall id | id in s.chains :: id < s.started && s.chains[id].phone in s.inflight && s.inflight[s.chains[id].phone] == id)
    && (forall phone | phone in s.inflight :: s.inflight[phone] in s.chains && s.chains[s.inflight[phone]].phone == phone)
  }

  /** A step that only moves a chain along. */
  ghost predicate SameChains(s: State, after: State) {
    && after.inflight == s.inflight && after.started == s.started && after.chains.Keys == s.chains.Keys
    && forall id | id in s.chains :: after.chains[id].phone == s.chains[id].phone
  }

  lemma SameChainsKeep(s: State, after: State)
    requires OneChain(s) && SameChains(s, after)
    ensures OneChain(after)
  {
    forall phone | phone in after.inflight ensures after.inflight[phone] in after.chains {
      assert s.inflight[phone] in s.chains;
    }
    forall id | id in after.chains ensures id < after.started && after.chains[id].phone in after.inflight {
      assert id in s.chains;
    }
  }

  lemma RequestOne(s: State, phone: string, now: int)
    requires OneChain(s)
    ensures OneChain(RequestStep(s, phone, now))
  {
    hide IsBlocked, IsCooling, Asked, Forgot, Expired;
    if Refused(s, phone, now) || phone in s.inflight {
      SameChainsKeep(s, RequestStep(s, phone, now));
    }
  }

  lemma BeginIsMove(s: State, id: nat, now: int)
    ensures SameChains(s, BeginStep(s, id, now))
  {
    hide IsBlocked, IsCooling, Asked, Forgot, Expired;
  }

  lemma SucceedIsMove(s: State, id: nat, now: int)
    ensures SameChains(s, SucceedStep(s, id, now))
  {
  }

  lemma FailIsMove(s: State, id: nat, code: Code, now: int)
    ensures SameChains(s, FailStep(s, id, code, now))
  {
    hide Noted, RetryWaitMs;
  }

  lemma WakeIsMove(s: State, id: nat, now: int)
    ensures SameChains(s, WakeStep(s, id, now))
  {
    hide IsBlocked, Asked, Expired, Noted;
  }

  lemma SettleOne(s: State, id: nat, now: int)
    requires OneChain(s)
    ensures OneChain(SettleStep(s, id, now))
  {
  }

  lemma OneChainKept(s: State, step: Step)
    requires OneChain(s)
    ensures OneChain(Next(s, step))
  {
    hide OneChain, SameChains, RequestStep, BeginStep, SucceedStep, FailStep, WakeStep, SettleStep;
    match step.event
    case Request(phone) => RequestOne(s, phone, step.now);
    case Settle(id) => SettleOne(s, id, step.now);
    case Begin(id) => BeginIsMove(s, id, step.now); SameChainsKeep(s, Next(s, step));
    case Succeed(id) => SucceedIsMove(s, id, step.now); SameChainsKeep(s, Next(s, step));
    case Fail(id, code) => FailIsMove(s, id, code, step.now); SameChainsKeep(s, Next(s, step));
    case Wake(id) => WakeIsMove(s, id, step.now); SameChainsKeep(s, Next(s, step));
  }

  // ----- what the log shows

  /** Network failures since the last success or cleared block. */
  function Strikes(log: seq<Entry>): nat {
    if log == [] then 0
    else
      match log[|log| - 1]
      case Attempt(_, _, _) => Strikes(log[..|log| - 1])
      case Failed(_, _, code) => Strikes(log[..|log| - 1]) + if NetCode(code) then 1 else 0
      case Stored(_) => 0
      case Cleared(_) => 0
  }

  /** Entry `i` opens a network block: the third strike or a later one. */
  predicate OpensNetBlock(log: seq<Entry>, i: nat)
    requires i < |log|
  {
    log[i].Failed? && NetCode(log[i].code) && Strikes(log[..i + 1]) >= NET_STRIKES_TO_BLOCK
  }

  predicate OpensAuthBlock(e: Entry) {
    e.Failed? && e.code == UNAUTHORIZED
  }

  /** What entry `i` forbids entry `j` after it. */
  predicate Respects(log: seq<Entry>, i: nat, j: nat)
    requires i < j < |log|
  {
    log[j].Attempt? && log[i].Failed? ==>
      && (!log[j].retry && log[i].phone == log[j].phone ==> log[j].at >= log[i].at + FAILURE_COOLDOWN_MS)
      && (OpensAuthBlock(log[i]) ==> log[j].at >= log[i].at + AUTH_BLOCK_MS)
      && (OpensNetBlock(log, i) ==> log[j].at >= log[i].at + NET_BLOCK_MS)
  }

  ghost predicate Safe(log: seq<Entry>) {
    forall i: nat, j: nat | i < j < |log| :: Respects(log, i, j)
  }

  /** What the breaker still holds back on account of entry `i`, unless its time is over. */
  predicate HeldBack(b: Breaker, clock: int, log: seq<Entry>, i: nat)
    requires i < |log|
  {
    log[i].Failed? ==>
      && (log[i].at + FAILURE_COOLDOWN_MS <= clock
            || (log[i].phone in b.cooldownUntil && b.cooldownUntil[log[i].phone] >= log[i].at + FAILURE_COOLDOWN_MS))
      && (OpensAuthBlock(log[i]) ==> b.authBlockedUntil >= log[i].at + AUTH_BLOCK_MS)
      && (OpensNetBlock(log, i) ==> log[i].at + NET_BLOCK_MS <= clock || b.netBlockedUntil >= log[i].at + NET_BLOCK_MS)
  }

  ghost predicate Holds(b: Breaker, clock: int, log: seq<Entry>) {
    && b.strikes == Strikes(log)
    && (forall i: nat | i < |log| :: log[i].at <= clock && HeldBack(b, clock, log, i))
  }

  ghost predicate Inv(s: State) {
    s.clock >= 0 && OneChain(s) && Safe(s.log) && Holds(s.breaker, s.clock, s.log)
  }

  lemma OpensNetKept(log: seq<Entry>, e: Entry, i: nat)
    requires i < |log|
    ensures OpensNetBlock(log + [e], i) <==> OpensNetBlock(log, i)
  {
    assert (log + [e])[..i + 1] == log[..i + 1];
  }

  lemma LaterHolds(b: Breaker, clock: int, log: seq<Entry>, now: int)
    requires Holds(b, clock, log) && now >= clock
    ensures Holds(b, now, log)
  {
    forall i: nat | i < |log| ensures HeldBack(b, now, log, i) {
      assert HeldBack(b, clock, log, i);
    }
    hide HeldBack;
  }

  lemma StrikesSnoc(log: seq<Entry>, e: Entry)
    ensures Strikes(log + [e]) ==
      match e
      case Attempt(_, _, _) => Strikes(log)
      case Failed(_, _, code) => Strikes(log) + if NetCode(code) then 1 else 0
      case Stored(_) => 0
      case Cleared(_) => 0
  {
    assert (log + [e])[..|log|] == log;
  }

  /** An entry that is not a failure holds nothing back itself. */
  lemma QuietEntry(b: Breaker, after: Breaker, now: int, log: seq<Entry>, e: Entry)
    requires Holds(b, now, log) && e.at <= now && !e.Failed?
    requires after.strikes == Strikes(log + [e])
    requires after.cooldownUntil == b.cooldownUntil && after.authBlockedUntil == b.authBlockedUntil
    requires after.netBlockedUntil == b.netBlockedUntil || b.netBlockedUntil <= now
    ensures Holds(after, now, log + [e])
  {
    var longer := log + [e];
    forall i: nat | i < |longer| ensures longer[i].at <= now && HeldBack(after, now, longer, i) {
      if i < |log| {
        OpensNetKept(log, e, i);
        assert HeldBack(b, now, log, i);
      }
    }
  }

  lemma AskHolds(s: State, now: int)
    requires Holds(s.breaker, s.clock, s.log) && now >= s.clock
    ensures Holds(AskStep(s, now).breaker, now, AskStep(s, now).log)
  {
    LaterHolds(s.breaker, s.clock, s.log, now);
    hide Holds;
    if Expired(s.breaker, now) {
      StrikesSnoc(s.log, Cleared(now));
      QuietEntry(s.breaker, Asked(s.breaker, now), now, s.log, Cleared(now));
    }
  }

  lemma ForgetHolds(b: Breaker, phone: string, now: int, log: seq<Entry>)
    requires Holds(b, now, log)
    ensures Holds(Forgot(b, phone, now), now, log)
  {
    forall i: nat | i < |log| ensures log[i].at <= now && HeldBack(Forgot(b, phone, now), now, log, i) {
      assert HeldBack(b, now, log, i);
    }
    hide HeldBack;
  }

  /** Noting a failure shortens no deadline. */
  lemma NotedHoldsBack(b: Breaker, phone: string, code: Code, now: int, log: seq<Entry>, i: nat)
    requires i < |log| && log[i].at <= now && HeldBack(b, now, log, i)
    ensures HeldBack(Noted(b, phone, code, now), now, log + [Failed(phone, now, code)], i)
  {
    OpensNetKept(log, Failed(phone, now, code), i);
    hide OpensNetBlock;
  }

  lemma NoteHolds(b: Breaker, phone: string, code: Code, now: int, log: seq<Entry>)
    requires Holds(b, now, log)
    ensures Holds(Noted(b, phone, code, now), now, log + [Failed(phone, now, code)])
  {
    var e := Failed(phone, now, code);
    var after, longer := Noted(b, phone, code, now), log + [e];
    StrikesSnoc(log, e);
    LastHeldBack(b, phone, code, now, log);
    hide HeldBack, Noted;
    forall i: nat | i < |longer| ensures longer[i].at <= now && HeldBack(after, now, longer, i) {
      if i < |log| {
        NotedHoldsBack(b, phone, code, now, log, i);
      }
    }
  }

  lemma LastHeldBack(b: Breaker, phone: string, code: Code, now: int, log: seq<Entry>)
    requires b.strikes == Strikes(log)
    ensures
      var after, longer := Noted(b, phone, code, now), log + [Failed(phone, now, code)];
      after.strikes == Strikes(longer) && HeldBack(after, now, longer, |log|)
  {
    var e := Failed(phone, now, code);
    StrikesSnoc(log, e);
    assert (log + [e])[..|log| + 1] == log + [e];
  }

  lemma QuietIsSafe(log: seq<Entry>, e: Entry)
    requires Safe(log) && !e.Attempt?
    ensures Safe(log + [e])
  {
    var longer := log + [e];
    forall i: nat, j: nat | i < j < |longer| ensures Respects(longer, i, j) {
      if j < |log| {
        OpensNetKept(log, e, i);
        assert Respects(log, i, j);
      }
    }
  }

  /** An attempt the breaker lets through respects everything before it. */
  lemma AttemptIsSafe(b: Breaker, log: seq<Entry>, phone: string, now: int, retry: bool)
    requires Safe(log) && Holds(b, now, log) && !IsBlocked(b, now) && (retry || !IsCooling(b, phone, now))
    ensures Safe(log + [Attempt(phone, now, retry)])
  {
    var e := Attempt(phone, now, retry);
    var longer := log + [e];
    forall i: nat, j: nat | i < j < |longer| ensures Respects(longer, i, j) {
      OpensNetKept(log, e, i);
      if j < |log| {
        assert Respects(log, i, j);
      } else {
        assert HeldBack(b, now, log, i);
      }
    }
  }

  // ----- every step

  lemma AskIsSafe(s: State, now: int)
    requires Safe(s.log)
    ensures Safe(AskStep(s, now).log)
  {
    QuietIsSafe(s.log, Cleared(now));
    hide Safe;
  }

  lemma CheckHolds(s: State, phone: string, now: int)
    requires Safe(s.log) && Holds(s.breaker, s.clock, s.log) && now >= s.clock >= 0
    ensures var checked := CheckStep(s, phone, now); Safe(checked.log) && Holds(checked.breaker, now, checked.log)
    ensures !Refused(s, phone, now) ==>
      var b := CheckStep(s, phone, now).breaker; !IsBlocked(b, now) && !IsCooling(b, phone, now)
  {
    AskHolds(s, now);
    AskIsSafe(s, now);
    ForgetHolds(AskStep(s, now).breaker, phone, now, AskStep(s, now).log);
    hide Safe, Holds;
  }

  lemma AttemptKeeps(s: State, id: nat, retry: bool)
    requires id in s.chains && Safe(s.log) && Holds(s.breaker, s.clock, s.log)
    requires !IsBlocked(s.breaker, s.clock) && (retry || !IsCooling(s.breaker, s.chains[id].phone, s.clock))
    ensures var after := Attempted(s, id, retry); Safe(after.log) && Holds(after.breaker, after.clock, after.log)
  {
    var e := Attempt(s.chains[id].phone, s.clock, retry);
    AttemptIsSafe(s.breaker, s.log, s.chains[id].phone, s.clock, retry);
    StrikesSnoc(s.log, e);
    assert s.breaker.strikes == Strikes(s.log);
    hide Safe, Holds;
    QuietEntry(s.breaker, s.breaker, s.clock, s.log, e);
  }

  lemma NotedKeeps(s: State, id: nat, code: Code)
    requires id in s.chains && Safe(s.log) && Holds(s.breaker, s.clock, s.log)
    ensures var after := NotedStep(s, id, code); Safe(after.log) && Holds(after.breaker, after.clock, after.log)
  {
    hide Safe, Holds;
    var phone := s.chains[id].phone;
    NoteHolds(s.breaker, phone, code, s.clock, s.log);
    QuietIsSafe(s.log, Failed(phone, s.clock, code));
  }

  lemma SucceedKeeps(s: State, id: nat, now: int)
    requires Safe(s.log) && Holds(s.breaker, s.clock, s.log) && now >= s.clock >= 0
    ensures var after := SucceedStep(s, id, now); Safe(after.log) && Holds(after.breaker, after.clock, after.log)
  {
    hide Safe, Holds;
    LaterHolds(s.breaker, s.clock, s.log, now);
    StrikesSnoc(s.log, Stored(now));
    QuietEntry(s.breaker, s.breaker.(strikes := 0), now, s.log, Stored(now));
    QuietIsSafe(s.log, Stored(now));
  }

  lemma FailKeeps(s: State, id: nat, code: Code, now: int)
    requires Safe(s.log) && Holds(s.breaker, s.clock, s.log) && now >= s.clock >= 0
    ensures var after := FailStep(s, id, code, now); Safe(after.log) && Holds(after.breaker, after.clock, after.log)
  {
    hide Safe, Holds;
    LaterHolds(s.breaker, s.clock, s.log, now);
    if id in s.chains {
      NotedKeeps(s.(clock := now), id, code);
    }
    hide NotedStep, RetryWaitMs;
  }

  lemma WakeKeeps(s: State, id: nat, now: int)
    requires Safe(s.log) && Holds(s.breaker, s.clock, s.log) && now >= s.clock >= 0
    ensures var after := WakeStep(s, id, now); Safe(after.log) && Holds(after.breaker, after.clock, after.log)
  {
    hide Safe, Holds;
    if id in s.chains && s.chains[id].phase.Sleeping? {
      AskHolds(s, now);
      AskIsSafe(s, now);
      NotedKeeps(AskStep(s, now), id, s.chains[id].phase.code);
      if !IsBlocked(s.breaker, now) {
        AttemptKeeps(AskStep(s, now), id, true);
      }
      hide NotedStep, Attempted;
    }
  }

  lemma BeginKeeps(s: State, id: nat, now: int)
    requires Safe(s.log) && Holds(s.breaker, s.clock, s.log) && now >= s.clock >= 0
    ensures var after := BeginStep(s, id, now); Safe(after.log) && Holds(after.breaker, after.clock, after.log)
  {
    hide Safe, Holds;
    if id in s.chains && s.chains[id].phase.Queued? {
      CheckHolds(s, s.chains[id].phone, now);
      if !Refused(s, s.chains[id].phone, now) {
        AttemptKeeps(CheckStep(s, s.chains[id].phone, now), id, false);
      }
      hide Attempted;
    }
  }

  lemma StepKeeps(s: State, step: Step)
    requires Inv(s) && step.now >= s.clock
    ensures Inv(Next(s, step))
  {
    OneChainKept(s, step);
    hide OneChain, Safe, Holds, BeginStep, SucceedStep, FailStep, WakeStep;
    match step.event
    case Request(phone) => CheckHolds(s, phone, step.now);
    case Begin(id) => BeginKeeps(s, id, step.now);
    case Succeed(id) => SucceedKeeps(s, id, step.now);
    case Fail(id, code) => FailKeeps(s, id, code, step.now);
    case Wake(id) => WakeKeeps(s, id, step.now);
    case Settle(id) => LaterHolds(s.breaker, s.clock, s.log, step.now);
  }

  lemma ClockMoves(s: State, step: Step)
    requires step.now >= s.clock
    ensures s.clock <= Next(s, step).clock <= step.now
  {
    hide Asked, Forgot, Noted, RetryWaitMs, IsBlocked, IsCooling, Expired;
  }

  lemma {:induction false} RunKeeps(steps: seq<Step>)
    requires ClockRuns(steps)
    ensures Inv(Run(FRESH, steps))
    ensures Run(FRESH, steps).clock <= if steps == [] then 0 else steps[|steps| - 1].now
    decreases |steps|
  {
    if steps != [] {
      var n := |steps| - 1;
      RunKeeps(steps[..n]);
      assert n > 0 ==> steps[..n][n - 1] == steps[n - 1];
      hide Inv, Next;
      StepKeeps(Run(FRESH, steps[..n]), steps[n]);
      ClockMoves(Run(FRESH, steps[..n]), steps[n]);
    }
  }

  /** In every run no phone has two live chains. */
  lemma OneChainPerPhone(steps: seq<Step>, a: nat, b: nat)
    requires ClockRuns(steps)
    requires a in Run(FRESH, steps).chains && b in Run(FRESH, steps).chains
    requires Run(FRESH, steps).chains[a].phone == Run(FRESH, steps).chains[b].phone
    ensures a == b
  {
    RunKeeps(steps);
    hide Run;
  }

  /**
   * In every run no first lookup of a phone starts within five minutes of its failure, and
   * no lookup or retry starts within ten minutes of a refused login or within a minute of
   * a third network failure in a row.
   */
  lemma LookupsRespectBreaker(steps: seq<Step>)
    requires ClockRuns(steps)
    ensures Safe(Run(FRESH, steps).log)
  {
    RunKeeps(steps);
    hide Run;
  }

  // ----- and nothing else is refused

  predicate CooledBy(log: seq<Entry>, i: nat, phone: string, until: int) {
    i < |log| && log[i].Failed? && log[i].phone == phone && until == log[i].at + FAILURE_COOLDOWN_MS
  }

  predicate AuthBy(log: seq<Entry>, i: nat, until: int) {
    i < |log| && OpensAuthBlock(log[i]) && until == log[i].at + AUTH_BLOCK_MS
  }

  predicate NetBy(log: seq<Entry>, i: nat, until: int) {
    i < |log| && OpensNetBlock(log, i) && until == log[i].at + NET_BLOCK_MS
  }

  /** Every deadline of the breaker stems from a failure in the log. */
  ghost predicate Justified(b: Breaker, log: seq<Entry>) {
    && (forall phone | phone in b.cooldownUntil :: exists i: nat :: CooledBy(log, i, phone, b.cooldownUntil[phone]))
    && (b.authBlockedUntil == 0 || exists i: nat :: AuthBy(log, i, b.authBlockedUntil))
    && (b.netBlockedUntil == 0 || exists i: nat :: NetBy(log, i, b.netBlockedUntil))
  }

  lemma JustifiedSnoc(b: Breaker, log: seq<Entry>, e: Entry)
    requires Justified(b, log)
    ensures Justified(b, log + [e])
  {
    var longer := log + [e];
    forall phone | phone in b.cooldownUntil ensures exists i: nat :: CooledBy(longer, i, phone, b.cooldownUntil[phone]) {
      var i: nat :| CooledBy(log, i, phone, b.cooldownUntil[phone]);
      assert CooledBy(longer, i, phone, b.cooldownUntil[phone]);
    }
    if b.authBlockedUntil != 0 {
      var i: nat :| AuthBy(log, i, b.authBlockedUntil);
      assert AuthBy(longer, i, b.authBlockedUntil);
    }
    if b.netBlockedUntil != 0 {
      var i: nat :| NetBy(log, i, b.netBlockedUntil);
      OpensNetKept(log, e, i);
      assert NetBy(longer, i, b.netBlockedUntil);
    }
  }

  lemma NotedJustified(b: Breaker, phone: string, code: Code, now: int, log: seq<Entry>)
    requires Justified(b, log) && b.strikes == Strikes(log)
    ensures Justified(Noted(b, phone, code, now), log + [Failed(phone, now, code)])
  {
    var e := Failed(phone, now, code);
    JustifiedSnoc(b, log, e);
    StrikesSnoc(log, e);
    var longer := log + [e];
    assert longer[..|log| + 1] == longer;
    assert CooledBy(longer, |log|, phone, now + FAILURE_COOLDOWN_MS);
    if code == UNAUTHORIZED {
      assert AuthBy(longer, |log|, now + AUTH_BLOCK_MS);
    }
    if NetCode(code) && b.strikes + 1 >= NET_STRIKES_TO_BLOCK {
      assert NetBy(longer, |log|, now + NET_BLOCK_MS);
    }
    hide CooledBy, AuthBy, NetBy, Strikes;
  }

  lemma CheckJustified(s: State, phone: string, now: int)
    requires Justified(s.breaker, s.log)
    ensures Justified(AskStep(s, now).breaker, AskStep(s, now).log)
    ensures Justified(CheckStep(s, phone, now).breaker, CheckStep(s, phone, now).log)
  {
    JustifiedSnoc(s.breaker, s.log, Cleared(now));
    hide CooledBy, AuthBy, NetBy;
  }

  lemma AttemptJustified(s: State, id: nat, retry: bool)
    requires id in s.chains && Justified(s.breaker, s.log)
    ensures Justified(Attempted(s, id, retry).breaker, Attempted(s, id, retry).log)
  {
    JustifiedSnoc(s.breaker, s.log, Attempt(s.chains[id].phone, s.clock, retry));
    hide Justified;
  }

  lemma NotedStepJustified(s: State, id: nat, code: Code)
    requires id in s.chains && Justified(s.breaker, s.log) && s.breaker.strikes == Strikes(s.log)
    ensures Justified(NotedStep(s, id, code).breaker, NotedStep(s, id, code).log)
  {
    NotedJustified(s.breaker, s.chains[id].phone, code, s.clock, s.log);
    hide Justified, Noted;
  }

  lemma SucceedJustified(s: State, id: nat, now: int)
    requires Justified(s.breaker, s.log)
    ensures Justified(SucceedStep(s, id, now).breaker, SucceedStep(s, id, now).log)
  {
    JustifiedSnoc(s.breaker, s.log, Stored(now));
    hide CooledBy, AuthBy, NetBy;
  }

  lemma WakeJustified(s: State, id: nat, now: int)
    requires Holds(s.breaker, s.clock, s.log) && now >= s.clock >= 0 && Justified(s.breaker, s.log)
    ensures Justified(WakeStep(s, id, now).breaker, WakeStep(s, id, now).log)
  {
    if id in s.chains && s.chains[id].phase.Sleeping? {
      CheckJustified(s, s.chains[id].phone, now);
      AskHolds(s, now);
      hide Justified;
      AttemptJustified(AskStep(s, now), id, true);
      NotedStepJustified(AskStep(s, now), id, s.chains[id].phase.code);
      hide NotedStep, Attempted;
    }
  }

  lemma StepJustified(s: State, step: Step)
    requires Inv(s) && step.now >= s.clock && Justified(s.breaker, s.log)
    ensures Justified(Next(s, step).breaker, Next(s, step).log)
  {
    hide Justified, OneChain, Safe, SucceedStep, WakeStep, CheckStep;
    match step.event
    case Request(phone) => CheckJustified(s, phone, step.now);
    case Begin(id) =>
      if id in s.chains {
        CheckJustified(s, s.chains[id].phone, step.now);
        assert id in CheckStep(s, s.chains[id].phone, step.now).chains by { CheckKeepsChains(s, s.chains[id].phone, step.now); }
        AttemptJustified(CheckStep(s, s.chains[id].phone, step.now), id, false);
        hide Attempted;
      }
    case Succeed(id) => SucceedJustified(s, id, step.now);
    case Fail(id, code) =>
      if id in s.chains {
        NotedStepJustified(s.(clock := step.now), id, code);
        hide NotedStep;
      }
    case Wake(id) => WakeJustified(s, id, step.now);
    case Settle(id) =>
  }

  lemma CheckKeepsChains(s: State, phone: string, now: int)
    ensures CheckStep(s, phone, now).chains == s.chains
  {
  }

  lemma {:induction false} RunJustified(steps: seq<Step>)
    requires ClockRuns(steps)
    ensures Justified(Run(FRESH, steps).breaker, Run(FRESH, steps).log)
    decreases |steps|
  {
    if steps != [] {
      var n := |steps| - 1;
      RunJustified(steps[..n]);
      RunKeeps(steps[..n]);
      assert n > 0 ==> steps[..n][n - 1] == steps[n - 1];
      hide Inv, Next, Justified;
      StepJustified(Run(FRESH, steps[..n]), steps[n]);
    }
  }

  /** Entry `i` keeps lookups of `phone` from starting at `now`. */
  predicate Forbids(log: seq<Entry>, i: nat, phone: string, now: int) {
    && i < |log| && log[i].Failed?
    && (|| (log[i].phone == phone && now < log[i].at + FAILURE_COOLDOWN_MS)
        || (OpensAuthBlock(log[i]) && now < log[i].at + AUTH_BLOCK_MS)
        || (OpensNetBlock(log, i) && now < log[i].at + NET_BLOCK_MS))
  }

  /** A lookup is refused exactly while a failure in the log forbids it. */
  lemma RefusedIffForbidden(steps: seq<Step>, phone: string, now: int)
    requires ClockRuns(steps) && now >= Run(FRESH, steps).clock
    ensures Refused(Run(FRESH, steps), phone, now) <==> exists i: nat :: Forbids(Run(FRESH, steps).log, i, phone, now)
  {
    RunKeeps(steps);
    RunJustified(steps);
    hide Run, OneChain, Safe, Strikes;
    RefusedByLog(Run(FRESH, steps).breaker, Run(FRESH, steps).clock, Run(FRESH, steps).log, phone, now);
  }

  lemma RefusedByLog(b: Breaker, clock: int, log: seq<Entry>, phone: string, now: int)
    requires Holds(b, clock, log) && Justified(b, log) && now >= clock >= 0
    ensures IsBlocked(b, now) || IsCooling(b, phone, now) <==> exists i: nat :: Forbids(log, i, phone, now)
  {
    hide Strikes;
    if i: nat :| Forbids(log, i, phone, now) {
      assert HeldBack(b, clock, log, i);
    }
    if b.authBlockedUntil > now {
      var i: nat :| AuthBy(log, i, b.authBlockedUntil);
      assert Forbids(log, i, phone, now);
    } else if b.netBlockedUntil > now {
      var i: nat :| NetBy(log, i, b.netBlockedUntil);
      assert Forbids(log, i, phone, now);
    } else if IsCooling(b, phone, now) {
      var i: nat :| CooledBy(log, i, phone, b.cooldownUntil[phone]);
      assert Forbids(log, i, phone, now);
    }
  }

  /** A chain that sleeps before its retry was told to wait two seconds at most. */
  ghost predicate ShortSleeps(s: State) {
    forall id | id in s.chains && s.chains[id].phase.Sleeping? ::
      s.chains[id].phase.code.RATE_LIMITED? && s.chains[id].phase.until <= s.clock + MAX_RETRY_WAIT_MS
  }

  lemma {:induction false} SleepsAreShort(steps: seq<Step>)
    requires ClockRuns(steps)
    ensures ShortSleeps(Run(FRESH, steps))
    decreases |steps|
  {
    if steps != [] {
      var n := |steps| - 1;
      SleepsAreShort(steps[..n]);
      RunKeeps(steps[..n]);
      assert n > 0 ==> steps[..n][n - 1] == steps[n - 1];
      hide Run;
      SleepStep(Run(FRESH, steps[..n]), steps[n]);
    }
  }

  lemma SleepStep(s: State, step: Step)
    requires ShortSleeps(s) && step.now >= s.clock
    ensures ShortSleeps(Next(s, step))
  {
    hide Asked, Forgot, Noted, IsBlocked, IsCooling, Expired;
  }

  // ----- the code

  /** The module's state; `chains` are the suspended calls of `runLookup`. */
  class PstnFill {
    var inflight: map<string, nat>
    var cooldownUntil: map<string, int>
    var authBlockedUntil: int
    var netBlockedUntil: int
    var consecutiveNetFailures: nat
    var chains: map<nat, Chain>
    var started: nat
    ghost var clock: int
    ghost var log: seq<Entry>

    ghost function Tripped(): Breaker
      reads this
    {
      Breaker(cooldownUntil, authBlockedUntil, netBlockedUntil, consecutiveNetFailures)
    }

    ghost function Now(): State
      reads this
    {
      State(Tripped(), inflight, chains, started, clock, log)
    }

    constructor ()
      ensures Now() == FRESH
    {
      inflight, cooldownUntil, authBlockedUntil, netBlockedUntil, consecutiveNetFailures := map[], map[], 0, 0, 0;
      chains, started, clock, log := map[], 0, 0, [];
    }

    method Blocked(now: int) returns (blocked: bool)
      modifies this
      ensures blocked <==> IsBlocked(old(Tripped()), now)
      ensures Now() == AskStep(old(Now()), now)
    {
      clock := now;
      if authBlockedUntil > now {
        return true;
      }
      if netBlockedUntil > now {
        return true;
      }
      if netBlockedUntil != 0 && netBlockedUntil <= now {
        netBlockedUntil := 0;
        consecutiveNetFailures := 0;
        log := log + [Cleared(now)];
      }
      return false;
    }

    method CooledDown(phone: string, now: int) returns (cooling: bool)
      modifies this`cooldownUntil
      ensures cooling <==> IsCooling(old(Tripped()), phone, now)
      ensures Tripped() == Forgot(old(Tripped()), phone, now)
    {
      if phone !in cooldownUntil {
        return false;
      }
      if cooldownUntil[phone] <= now {
        cooldownUntil := map p | p in cooldownUntil && p != phone :: cooldownUntil[p];
        return false;
      }
      return true;
    }

    /** `blocked() || cooledDown(phone)`. */
    method Check(phone: string, now: int) returns (refused: bool)
      modifies this
      ensures refused <==> Refused(old(Now()), phone, now)
      ensures Now() == CheckStep(old(Now()), phone, now)
    {
      hide Asked, Forgot, Expired;
      refused := Blocked(now);
      AskedCools(old(Tripped()), phone, now);
      if !refused {
        refused := CooledDown(phone, now);
      }
    }

    method NoteFailure(id: nat, code: Code, now: int)
      requires id in chains && now == clock
      modifies this
      ensures Now() == NotedStep(old(Now()), id, code)
    {
      var phone := chains[id].phone;
      cooldownUntil := cooldownUntil[phone := now + FAILURE_COOLDOWN_MS];
      log := log + [Failed(phone, now, code)];
      chains := chains[id := chains[id].(phase := Settling)];
      if code == UNAUTHORIZED {
        authBlockedUntil := now + AUTH_BLOCK_MS;
        return;
      }
      if NetCode(code) {
        consecutiveNetFailures := consecutiveNetFailures + 1;
        if consecutiveNetFailures >= NET_STRIKES_TO_BLOCK {
          netBlockedUntil := now + NET_BLOCK_MS;
        }
      }
    }

    /** A refused request has no chain; one for a phone in flight joins its chain. */
    method LookupOnce(phone: string, now: int) returns (chain: Option<nat>)
      modifies this
      ensures Now() == RequestStep(old(Now()), phone, now)
      ensures chain.None? <==> Refused(old(Now()), phone, now)
      ensures chain.Some? ==> phone in inflight && inflight[phone] == chain.value
    {
      hide IsBlocked, IsCooling, Asked, Forgot, Expired;
      var refused := Check(phone, now);
      if refused {
        return None;
      }
      if phone in inflight {
        return Some(inflight[phone]);
      }
      chain := Some(started);
      inflight := inflight[phone := started];
      chains := chains[started := Chain(phone, Queued)];
      started := started + 1;
    }

    method BeginLookup(id: nat, now: int)
      requires id in chains && chains[id].phase.Queued?
      modifies this
      ensures Now() == BeginStep(old(Now()), id, now)
    {
      hide IsBlocked, IsCooling, Asked, Forgot, Expired;
      var phone := chains[id].phone;
      var refused := Check(phone, now);
      if refused {
        chains := chains[id := chains[id].(phase := Settling)];
        return;
      }
      chains := chains[id := chains[id].(phase := Trying)];
      log := log + [Attempt(phone, now, false)];
    }

    method LookupFilled(id: nat, now: int)
      requires id in chains && (chains[id].phase.Trying? || chains[id].phase.Retrying?)
      modifies this
      ensures Now() == SucceedStep(old(Now()), id, now)
    {
      clock, consecutiveNetFailures := now, 0;
      chains := chains[id := chains[id].(phase := Settling)];
      log := log + [Stored(now)];
    }

    method LookupThrew(id: nat, code: Code, now: int)
      requires id in chains && (chains[id].phase.Trying? || chains[id].phase.Retrying?)
      modifies this
      ensures Now() == FailStep(old(Now()), id, code, now)
    {
      hide Noted;
      clock := now;
      if chains[id].phase.Trying? && code.RATE_LIMITED? {
        var waitMs := (if code.retryAfterSec.Some? then code.retryAfterSec.value else 2) * 1000;
        if waitMs <= MAX_RETRY_WAIT_MS {
          chains := chains[id := chains[id].(phase := Sleeping(code, now + waitMs))];
          return;
        }
      }
      NoteFailure(id, code, now);
    }

    method AfterSleep(id: nat, now: int)
      requires id in chains && chains[id].phase.Sleeping? && chains[id].phase.until <= now
      modifies this
      ensures Now() == WakeStep(old(Now()), id, now)
    {
      hide IsBlocked, Asked, Expired, Noted;
      var chain := chains[id];
      var blocked := Blocked(now);
      if !blocked {
        chains := chains[id := chain.(phase := Retrying)];
        log := log + [Attempt(chain.phone, now, true)];
        return;
      }
      NoteFailure(id, chain.phase.code, now);
    }

    method Settled(id: nat, now: int)
      requires id in chains && chains[id].phase.Settling?
      modifies this
      ensures Now() == SettleStep(old(Now()), id, now)
    {
      var phone := chains[id].phone;
      clock := now;
      chains := map k | k in chains && k != id :: chains[k];
      if phone in inflight && inflight[phone] == id {
        inflight := map p | p in inflight && p != phone :: inflight[p];
      }
    }
  }

  lemma AskedCools(b: Breaker, phone: string, now: int)
    ensures IsCooling(Asked(b, now), phone, now) <==> IsCooling(b, phone, now)
  {
  }
}
