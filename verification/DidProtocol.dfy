/**
 * The DID snapshot protocol: any number of processes share one state row and one
 * table of generations, and interleave, fail and crash between any two statements.
 */
module DidProtocol {
  import opened Wrappers
  import opened DidCollapse
  import opened DidWalk

  type Token = nat

  const INSERT_CHUNK := 1_000
  const REFRESH_MS := 300_000

  /** The single row of `geography_did_state`. */
  datatype StateRow = StateRow(
    generation: nat, refreshedAt: Option<int>, attemptedAt: Option<int>,
    lockedToken: Option<Token>, lockedUntil: Option<int>)

  /** Where a process is inside `syncDidSnapshot`. `owned` is always the read generation plus one. */
  datatype Process =
    | Begin
    | Due
    | Leased(token: Token)
    | Planned(token: Token, read: nat)
    | Walking(token: Token, read: nat)
    | Walked(token: Token, read: nat, rows: seq<Row>)
    | Inserting(token: Token, read: nat, rows: seq<Row>, done: nat)
    | Published(token: Token, read: nat)
    | Closing(token: Token, owned: Option<nat>)
    | Releasing(token: Token)
    | Ended

  /** `walks` remembers, for each generation that was published, the rows its publisher had walked. */
  datatype System = System(
    row: StateRow, table: map<nat, seq<Row>>, processes: map<nat, Process>, tokens: set<Token>, walks: map<nat, seq<Row>>)

  datatype Action =
    | Start
    | FirstRead(now: int, hasCreds: bool)
    | TryLease(newToken: Token, now: int, until: int)
    | SecondRead(now: int)
    | DeleteOthers
    | PageBeat(until: int)
    | FinishWalk(rows: seq<Row>)
    | FinalBeat(until: int)
    | InsertChunk
    | Publish(at: int)
    | PublishUnseen(at: int)
    | CleanUp
    | SkipCleanUp
    | MarkAttempt(at: int)
    | DeleteOwned
    | SkipDelete
    | Release
    | Throw
    | Crash

  datatype Step = Step(process: nat, action: Action)

  // ----- statements

  function RowsOf(table: map<nat, seq<Row>>, generation: nat): seq<Row> {
    if generation in table then table[generation] else []
  }

  /** What readers of the geography list see. */
  function Visible(s: System): seq<Row> {
    RowsOf(s.table, s.row.generation)
  }

  predicate Fresh(at: Option<int>, now: int) {
    at.Some? && now - at.value < REFRESH_MS
  }

  predicate SnapshotDue(row: StateRow, now: int) {
    !Fresh(row.refreshedAt, now) && !Fresh(row.attemptedAt, now)
  }

  function Only(table: map<nat, seq<Row>>, keep: nat): map<nat, seq<Row>> {
    map g | g in table && g == keep :: table[g]
  }

  function Without(table: map<nat, seq<Row>>, generation: nat): map<nat, seq<Row>> {
    map g | g in table && g != generation :: table[g]
  }

  /** `createMany` refuses a chunk that repeats a stored key. */
  predicate Collides(stored: seq<Row>, chunk: seq<Row>) {
    exists i, j | 0 <= i < |stored| && 0 <= j < |chunk| :: stored[i].matchKey == chunk[j].matchKey
  }

  /** Rows that some complete walk collapses to. */
  ghost predicate FromCompleteWalk(rows: seq<Row>) {
    exists pages: seq<Page>, naming: Naming ::
      CompleteWalk(pages) && IsCollapse(rows, ItemsOf(Raws(pages)), naming)
  }

  function TokenOf(p: Process): Option<Token> {
    match p
    case Begin => None
    case Due => None
    case Ended => None
    case _ => Some(p.token)
  }

  predicate Holds(s: System, p: Process) {
    TokenOf(p).Some? && s.row.lockedToken == TokenOf(p)
  }

  // ----- steps

  function At(s: System, i: nat): Process {
    if i in s.processes then s.processes[i] else Begin
  }

  function Moved(s: System, i: nat, p: Process): System {
    s.(processes := s.processes[i := p])
  }

  /** The catch block, then `finally` with `published` still false. */
  function Failed(s: System, i: nat): System {
    var p := At(s, i);
    match p
    case Leased(t) => Moved(s, i, Closing(t, None))
    case Planned(t, g) => Moved(s, i, Closing(t, Some(g + 1)))
    case Walking(t, g) => Moved(s, i, Closing(t, Some(g + 1)))
    case Walked(t, g, _) => Moved(s, i, Closing(t, Some(g + 1)))
    case Inserting(t, g, _, _) => Moved(s, i, Closing(t, Some(g + 1)))
    case _ => s
  }

  function Renewed(s: System, until: int): System {
    s.(row := s.row.(lockedUntil := Some(until)))
  }

  predicate LeaseFree(row: StateRow, now: int) {
    row.lockedUntil.None? || row.lockedUntil.value < now
  }

  function Chunk(p: Process): seq<Row>
    requires p.Inserting? && p.done <= |p.rows|
  {
    p.rows[p.done..Min(p.done + INSERT_CHUNK, |p.rows|)]
  }

  function Committed(s: System, p: Process, at: int): System
    requires p.Inserting?
  {
    s.(row := s.row.(generation := p.read + 1, refreshedAt := Some(at)), walks := s.walks[p.read + 1 := p.rows])
  }

  predicate MayPublish(s: System, p: Process) {
    && p.Inserting? && p.done == |p.rows|
    && s.row.generation == p.read && s.row.lockedToken == Some(p.token)
  }

  // Each statement below changes nothing when it is not the next one of its process.

  function FirstReadStep(s: System, i: nat, now: int, hasCreds: bool): System {
    if !At(s, i).Begin? then s else Moved(s, i, if SnapshotDue(s.row, now) && hasCreds then Due else Ended)
  }

  function LeaseStep(s: System, i: nat, newToken: Token, now: int, until: int): System {
    if !At(s, i).Due? || newToken in s.tokens then s
    else if LeaseFree(s.row, now) then
      System(s.row.(lockedToken := Some(newToken), lockedUntil := Some(until)), s.table,
             s.processes[i := Leased(newToken)], s.tokens + {newToken}, s.walks)
    else Moved(s, i, Ended)
  }

  function SecondReadStep(s: System, i: nat, now: int): System {
    var p := At(s, i);
    if !p.Leased? then s
    else if SnapshotDue(s.row, now) then Moved(s, i, Planned(p.token, s.row.generation))
    else Moved(s, i, Closing(p.token, None))
  }

  function DeleteOthersStep(s: System, i: nat): System {
    var p := At(s, i);
    if !p.Planned? then s else Moved(s.(table := Only(s.table, p.read)), i, Walking(p.token, p.read))
  }

  function PageBeatStep(s: System, i: nat, until: int): System {
    if !At(s, i).Walking? then s
    else if Holds(s, At(s, i)) then Moved(Renewed(s, until), i, At(s, i))
    else Failed(s, i)
  }

  ghost function FinishWalkStep(s: System, i: nat, rows: seq<Row>): System {
    var p := At(s, i);
    if p.Walking? && FromCompleteWalk(rows) then Moved(s, i, Walked(p.token, p.read, rows)) else s
  }

  function FinalBeatStep(s: System, i: nat, until: int): System {
    var p := At(s, i);
    if !p.Walked? then s
    else if Holds(s, p) then Moved(Renewed(s, until), i, Inserting(p.token, p.read, p.rows, 0))
    else Failed(s, i)
  }

  function InsertStep(s: System, i: nat): System {
    var p := At(s, i);
    if !p.Inserting? || p.done >= |p.rows| then s
    else if Collides(RowsOf(s.table, p.read + 1), Chunk(p)) then Failed(s, i)
    else
      Moved(s.(table := s.table[p.read + 1 := RowsOf(s.table, p.read + 1) + Chunk(p)]), i,
            p.(done := p.done + |Chunk(p)|))
  }

  function PublishStep(s: System, i: nat, at: int): System {
    var p := At(s, i);
    if !p.Inserting? || p.done != |p.rows| then s
    else if MayPublish(s, p) then Moved(Committed(s, p, at), i, Published(p.token, p.read))
    else Failed(s, i)
  }

  /** The update commits but the call throws, so the catch block runs. */
  function UnseenStep(s: System, i: nat, at: int): System {
    if MayPublish(s, At(s, i)) then Failed(Committed(s, At(s, i), at), i) else s
  }

  function CleanUpStep(s: System, i: nat): System {
    var p := At(s, i);
    if !p.Published? then s
    else Moved(s.(table := Only(s.table, p.read + 1)), i, Closing(p.token, None))
  }

  function SkipCleanUpStep(s: System, i: nat): System {
    if At(s, i).Published? then Moved(s, i, Closing(At(s, i).token, None)) else s
  }

  function MarkStep(s: System, i: nat, at: int): System {
    if (At(s, i).Closing? || At(s, i).Releasing?) && Holds(s, At(s, i)) then Moved(s.(row := s.row.(attemptedAt := Some(at))), i, At(s, i)) else s
  }

  function DeleteOwnedStep(s: System, i: nat): System {
    var p := At(s, i);
    if !p.Closing? then s
    else if p.owned.None? then Moved(s, i, Releasing(p.token))
    else Moved(s.(table := Without(s.table, p.owned.value)), i, Releasing(p.token))
  }

  function SkipDeleteStep(s: System, i: nat): System {
    if At(s, i).Closing? then Moved(s, i, Releasing(At(s, i).token)) else s
  }

  function ReleaseStep(s: System, i: nat): System {
    var p := At(s, i);
    if !p.Releasing? then s
    else if Holds(s, p) then Moved(s.(row := s.row.(lockedToken := None, lockedUntil := None)), i, Ended)
    else Moved(s, i, Ended)
  }

  /** One statement of one process. */
  ghost function Next(s: System, step: Step): System {
    var i := step.process;
    match step.action
    case Start => if At(s, i).Ended? || i !in s.processes then Moved(s, i, Begin) else s
    case FirstRead(now, hasCreds) => FirstReadStep(s, i, now, hasCreds)
    case TryLease(newToken, now, until) => LeaseStep(s, i, newToken, now, until)
    case SecondRead(now) => SecondReadStep(s, i, now)
    case DeleteOthers => DeleteOthersStep(s, i)
    case PageBeat(until) => PageBeatStep(s, i, until)
    case FinishWalk(rows) => FinishWalkStep(s, i, rows)
    case FinalBeat(until) => FinalBeatStep(s, i, until)
    case InsertChunk => InsertStep(s, i)
    case Publish(at) => PublishStep(s, i, at)
    case PublishUnseen(at) => UnseenStep(s, i, at)
    case CleanUp => CleanUpStep(s, i)
    case SkipCleanUp => SkipCleanUpStep(s, i)
    case MarkAttempt(at) => MarkStep(s, i, at)
    case DeleteOwned => DeleteOwnedStep(s, i)
    case SkipDelete => SkipDeleteStep(s, i)
    case Release => ReleaseStep(s, i)
    case Throw => Failed(s, i)
    case Crash => Moved(s, i, Ended)
  }

  ghost function Run(s: System, steps: seq<Step>): System
    decreases |steps|
  {
    if steps == [] then s else Run(Next(s, steps[0]), steps[1..])
  }

  // ----- without any assumption on time: the generation

  lemma GenerationFixed(s: System, step: Step)
    requires !step.action.Publish? && !step.action.PublishUnseen?
    ensures Next(s, step).row.generation == s.row.generation
  {
    hide RowsOf, Only, Without, Collides, Chunk, FromCompleteWalk, Holds, SnapshotDue, LeaseFree;
  }

  /** The generation moves by one, only at a publish, and only for the process whose token is in the row. */
  lemma GenerationStep(s: System, step: Step)
    ensures
      var p, after := At(s, step.process), Next(s, step);
      && s.row.generation <= after.row.generation <= s.row.generation + 1
      && (after.row.generation != s.row.generation ==>
            && (step.action.Publish? || step.action.PublishUnseen?)
            && p.Inserting? && Holds(s, p) && p.read == s.row.generation && p.done == |p.rows|)
  {
    if !(step.action.Publish? || step.action.PublishUnseen?) {
      GenerationFixed(s, step);
      hide Next;
    }
  }

  function CountPublishes(steps: seq<Step>): nat {
    if steps == [] then 0
    else (if steps[0].action.Publish? || steps[0].action.PublishUnseen? then 1 else 0) + CountPublishes(steps[1..])
  }

  lemma {:induction false} GenerationGrows(s: System, steps: seq<Step>)
    ensures s.row.generation <= Run(s, steps).row.generation <= s.row.generation + CountPublishes(steps)
    decreases |steps|
  {
    if steps != [] {
      GenerationStep(s, steps[0]);
      GenerationGrows(Next(s, steps[0]), steps[1..]);
    }
  }

  // ----- what readers should see

  /** Readers see exactly what the process that published the generation had walked, and nothing before the first. */
  ghost predicate VisibleComplete(s: System) {
    if s.row.generation == 0 then Visible(s) == []
    else
      && s.row.generation in s.walks
      && Visible(s) == s.walks[s.row.generation]
      && FromCompleteWalk(s.walks[s.row.generation])
  }

  /** The statement changes the stored rows of generation `g`. */
  predicate Touches(s: System, step: Step, g: nat) {
    var p := At(s, step.process);
    match step.action
    case DeleteOthers => p.Planned? && g != p.read && RowsOf(s.table, g) != []
    case InsertChunk =>
      p.Inserting? && p.done < |p.rows| && g == p.read + 1 && !Collides(RowsOf(s.table, g), Chunk(p))
    case CleanUp => p.Published? && g != p.read + 1 && RowsOf(s.table, g) != []
    case DeleteOwned => p.Closing? && p.owned == Some(g) && RowsOf(s.table, g) != []
    case _ => false
  }

  lemma TouchesIff(s: System, step: Step, g: nat)
    ensures RowsOf(Next(s, step).table, g) != RowsOf(s.table, g) <==> Touches(s, step, g)
  {
    hide Collides, FromCompleteWalk;
  }

  predicate Publishes(s: System, step: Step) {
    (step.action.Publish? || step.action.PublishUnseen?) && MayPublish(s, At(s, step.process))
  }

  /**
   * What can go wrong in one statement: a delete or an insert that changes the visible
   * generation, or a publish of a generation that does not hold the publisher's rows.
   */
  predicate Harmful(s: System, step: Step) {
    || Touches(s, step, s.row.generation)
    || (Publishes(s, step) && RowsOf(s.table, At(s, step.process).read + 1) != At(s, step.process).rows)
  }

  // ----- what holds with no assumption at all

  /** A walk in hand is complete, and no more of it is inserted than there is. */
  ghost predicate WalkInHand(p: Process) {
    match p
    case Walked(_, _, rows) => FromCompleteWalk(rows)
    case Inserting(_, _, rows, done) => FromCompleteWalk(rows) && done <= |rows|
    case _ => true
  }

  /** While its token is in the row nobody else can publish. */
  predicate GenerationView(s: System, p: Process) {
    match p
    case Planned(_, g) => s.row.generation == g
    case Walking(_, g) => s.row.generation == g
    case Walked(_, g, _) => s.row.generation == g
    case Inserting(_, g, _, _) => s.row.generation == g
    case Published(_, g) => s.row.generation == g + 1
    case _ => true
  }

  ghost predicate Base(s: System) {
    && (s.row.lockedToken.Some? ==> s.row.lockedToken.value in s.tokens)
    && (forall i | i in s.processes && TokenOf(s.processes[i]).Some? :: TokenOf(s.processes[i]).value in s.tokens)
    && (forall i, j | i in s.processes && j in s.processes && i != j && TokenOf(s.processes[i]).Some? ::
          TokenOf(s.processes[i]) != TokenOf(s.processes[j]))
    && (forall i | i in s.processes :: WalkInHand(s.processes[i]))
    && (forall i | i in s.processes && Holds(s, s.processes[i]) :: GenerationView(s, s.processes[i]))
  }

  /** What the holder has put into the generation it is building. */
  predicate StoredView(s: System, p: Process) {
    match p
    case Walking(_, g) => RowsOf(s.table, g + 1) == []
    case Walked(_, g, _) => RowsOf(s.table, g + 1) == []
    case Inserting(_, g, rows, done) => done <= |rows| && RowsOf(s.table, g + 1) == rows[..done]
    case _ => true
  }

  ghost predicate TableView(s: System) {
    forall i | i in s.processes && Holds(s, s.processes[i]) :: StoredView(s, s.processes[i])
  }

  /** What the holder is about to delete is not what it published. */
  predicate OwnedView(s: System, p: Process) {
    p.Closing? && p.owned.Some? ==> p.owned.value == s.row.generation + 1
  }

  ghost predicate ClosingView(s: System) {
    forall i | i in s.processes && Holds(s, s.processes[i]) :: OwnedView(s, s.processes[i])
  }

  /** A process changes the generation under construction although its token is not in the row. */
  predicate Intrudes(s: System, step: Step) {
    !Holds(s, At(s, step.process)) && Touches(s, step, s.row.generation + 1)
  }

  predicate PublishesUnseen(s: System, step: Step) {
    step.action.PublishUnseen? && Publishes(s, step)
  }

  // ----- one statement, seen from its own process

  /** A statement of process `i` that is not a lease: what it may change, and what it knows afterwards. */
  ghost predicate Local(s: System, after: System, i: nat) {
    var p, q := At(s, i), At(after, i);
    && after.tokens == s.tokens
    && (after.processes == s.processes || after.processes == s.processes[i := q])
    && (TokenOf(q) == TokenOf(p) || TokenOf(q).None?)
    && (after.row.lockedToken == s.row.lockedToken || after.row.lockedToken.None?)
    && (WalkInHand(p) ==> WalkInHand(q))
    && (after.row.generation == s.row.generation || Holds(s, p))
    && (after.row.generation == s.row.generation ==> after.walks == s.walks)
    && (WalkInHand(p) && GenerationView(s, p) && Holds(after, q) ==> GenerationView(after, q))
    && (WalkInHand(p) && GenerationView(s, p) && StoredView(s, p) && Holds(after, q) ==> StoredView(after, q))
  }

  lemma BaseFrame(s: System, after: System, i: nat)
    requires Base(s) && Local(s, after, i)
    ensures Base(after)
  {
    hide WalkInHand, GenerationView, StoredView;
    if i !in s.processes {
      BeginKnows(s);
    }
    forall j | j in after.processes && Holds(after, after.processes[j]) ensures GenerationView(after, after.processes[j]) {
      if j != i {
        assert Holds(s, s.processes[j]) && !Holds(s, At(s, i));
        OthersView(s, after, s.processes[j]);
      }
    }
  }

  lemma BeginKnows(s: System)
    ensures WalkInHand(Begin) && GenerationView(s, Begin) && StoredView(s, Begin) && OwnedView(s, Begin)
  {
  }

  lemma OthersView(s: System, after: System, p: Process)
    requires after.row.generation == s.row.generation
    ensures GenerationView(after, p) == GenerationView(s, p) && OwnedView(after, p) == OwnedView(s, p)
    ensures GenerationView(s, p) && RowsOf(after.table, s.row.generation + 1) == RowsOf(s.table, s.row.generation + 1) ==>
      StoredView(after, p) == StoredView(s, p)
  {
  }

  lemma TableFrame(s: System, after: System, i: nat)
    requires Base(s) && TableView(s) && Local(s, after, i)
    requires Holds(s, At(s, i)) || RowsOf(after.table, s.row.generation + 1) == RowsOf(s.table, s.row.generation + 1)
    ensures TableView(after)
  {
    hide WalkInHand, GenerationView, StoredView, RowsOf;
    if i !in s.processes {
      BeginKnows(s);
    }
    forall j | j in after.processes && Holds(after, after.processes[j]) ensures StoredView(after, after.processes[j]) {
      if j != i {
        assert Holds(s, s.processes[j]) && !Holds(s, At(s, i));
        OthersView(s, after, s.processes[j]);
      }
    }
  }

  lemma ClosingFrame(s: System, after: System, i: nat)
    requires Base(s) && ClosingView(s) && Local(s, after, i)
    requires GenerationView(s, At(s, i)) && OwnedView(s, At(s, i)) && Holds(after, At(after, i)) ==> OwnedView(after, At(after, i))
    ensures ClosingView(after)
  {
    hide WalkInHand, GenerationView, StoredView, OwnedView;
    if i !in s.processes {
      BeginKnows(s);
    }
    forall j | j in after.processes && Holds(after, after.processes[j]) ensures OwnedView(after, after.processes[j]) {
      if j != i {
        assert Holds(s, s.processes[j]) && !Holds(s, At(s, i));
        OthersView(s, after, s.processes[j]);
      }
    }
  }

  lemma FailedLocal(s: System, i: nat)
    ensures Local(s, Failed(s, i), i)
  {
    hide FromCompleteWalk, RowsOf;
  }

  lemma ReadsLocal(s: System, i: nat, now: int, hasCreds: bool, rows: seq<Row>)
    ensures Local(s, FirstReadStep(s, i, now, hasCreds), i) && Local(s, SecondReadStep(s, i, now), i)
    ensures Local(s, FinishWalkStep(s, i, rows), i)
    ensures Local(s, Moved(s, i, Begin), i) && Local(s, Moved(s, i, Ended), i) && Local(s, s, i)
  {
    hide FromCompleteWalk, RowsOf, SnapshotDue;
  }

  lemma BeatsLocal(s: System, i: nat, until: int)
    ensures Local(s, PageBeatStep(s, i, until), i) && Local(s, FinalBeatStep(s, i, until), i)
  {
    FailedLocal(s, i);
    hide FromCompleteWalk, RowsOf, Failed;
    var p := At(s, i);
    if p.Walked? {
      assert p.rows[..0] == [];
    }
  }

  lemma InsertLocal(s: System, i: nat)
    ensures Local(s, InsertStep(s, i), i)
  {
    hide Local, FromCompleteWalk, Failed, Collides, RowsOf;
    var p := At(s, i);
    if !p.Inserting? || p.done >= |p.rows| {
      ReadsLocal(s, i, 0, true, []);
    } else if Collides(RowsOf(s.table, p.read + 1), Chunk(p)) {
      FailedLocal(s, i);
    } else {
      AcceptedLocal(s, i);
    }
  }

  lemma AcceptedLocal(s: System, i: nat)
    requires At(s, i).Inserting? && At(s, i).done < |At(s, i).rows|
    requires !Collides(RowsOf(s.table, At(s, i).read + 1), Chunk(At(s, i)))
    ensures Local(s, InsertStep(s, i), i)
  {
    var p := At(s, i);
    assert p.rows[..p.done] + Chunk(p) == p.rows[..p.done + |Chunk(p)|];
    var stored := RowsOf(s.table, p.read + 1) + Chunk(p);
    InsertAccepted(s, i, stored);
    hide FromCompleteWalk, Collides, Failed, InsertStep;
  }

  lemma PublishLocal(s: System, i: nat, at: int)
    ensures Local(s, PublishStep(s, i, at), i) && Local(s, UnseenStep(s, i, at), i)
  {
    FailedLocal(s, i);
    hide FromCompleteWalk, RowsOf;
  }

  lemma DeletesLocal(s: System, i: nat)
    ensures Local(s, DeleteOthersStep(s, i), i) && Local(s, CleanUpStep(s, i), i) && Local(s, DeleteOwnedStep(s, i), i)
  {
    hide FromCompleteWalk;
  }

  lemma ClosingLocal(s: System, i: nat, at: int)
    ensures Local(s, SkipCleanUpStep(s, i), i) && Local(s, MarkStep(s, i, at), i)
    ensures Local(s, SkipDeleteStep(s, i), i) && Local(s, ReleaseStep(s, i), i)
  {
    hide FromCompleteWalk, RowsOf;
  }

  lemma StepLocal(s: System, step: Step)
    requires !step.action.TryLease?
    ensures Local(s, Next(s, step), step.process)
  {
    hide Local, Failed, FirstReadStep, SecondReadStep, FinishWalkStep, PageBeatStep, FinalBeatStep, InsertStep, PublishStep;
    hide UnseenStep, DeleteOthersStep, CleanUpStep, DeleteOwnedStep, SkipCleanUpStep, MarkStep, SkipDeleteStep, ReleaseStep;
    var i := step.process;
    match step.action
    case Start => ReadsLocal(s, i, 0, true, []);
    case FirstRead(now, hasCreds) => ReadsLocal(s, i, now, hasCreds, []);
    case SecondRead(now) => ReadsLocal(s, i, now, true, []);
    case FinishWalk(rows) => ReadsLocal(s, i, 0, true, rows);
    case Crash => ReadsLocal(s, i, 0, true, []);
    case DeleteOthers => DeletesLocal(s, i);
    case CleanUp => DeletesLocal(s, i);
    case DeleteOwned => DeletesLocal(s, i);
    case PageBeat(until) => BeatsLocal(s, i, until);
    case FinalBeat(until) => BeatsLocal(s, i, until);
    case InsertChunk => InsertLocal(s, i);
    case Publish(at) => PublishLocal(s, i, at);
    case PublishUnseen(at) => PublishLocal(s, i, at);
    case Throw => FailedLocal(s, i);
    case MarkAttempt(at) => ClosingLocal(s, i, at);
    case SkipCleanUp => ClosingLocal(s, i, 0);
    case SkipDelete => ClosingLocal(s, i, 0);
    case Release => ClosingLocal(s, i, 0);
  }

  lemma LeasedKnows(s: System, token: Token)
    ensures
      var p := Leased(token);
      WalkInHand(p) && GenerationView(s, p) && StoredView(s, p) && OwnedView(s, p) && TokenOf(p) == Some(token)
  {
  }

  /** A new holder has not looked at anything yet, and the old one holds no more. */
  lemma LeaseTaken(s: System, after: System, i: nat, token: Token)
    requires Base(s) && token !in s.tokens
    requires after.processes == s.processes[i := Leased(token)] && after.tokens == s.tokens + {token}
    requires after.row.lockedToken == Some(token)
    ensures Base(after) && TableView(after) && ClosingView(after)
  {
    LeasedKnows(after, token);
    hide WalkInHand, GenerationView, StoredView, OwnedView;
    forall j | j in after.processes && j != i ensures !Holds(after, after.processes[j]) {
      assert TokenOf(s.processes[j]).Some? ==> TokenOf(s.processes[j]).value in s.tokens;
    }
  }

  lemma LeaseCases(s: System, i: nat, newToken: Token, now: int, until: int)
    ensures
      var after := LeaseStep(s, i, newToken, now, until);
      && after.table == s.table && after.walks == s.walks && after.row.generation == s.row.generation
      && (|| Local(s, after, i)
          || (newToken !in s.tokens && after.row.lockedToken == Some(newToken)
              && after.processes == s.processes[i := Leased(newToken)] && after.tokens == s.tokens + {newToken}))
  {
    hide FromCompleteWalk, RowsOf;
  }

  lemma LeaseKeeps(s: System, i: nat, newToken: Token, now: int, until: int)
    requires Base(s)
    ensures
      var after := LeaseStep(s, i, newToken, now, until);
      && Base(after)
      && (TableView(s) ==> TableView(after))
      && (ClosingView(s) ==> ClosingView(after))
  {
    var after := LeaseStep(s, i, newToken, now, until);
    LeaseCases(s, i, newToken, now, until);
    LeaseOwned(s, i, newToken, now, until);
    hide LeaseStep, Base, TableView, ClosingView, Local, OwnedView, GenerationView;
    if Local(s, after, i) {
      BaseFrame(s, after, i);
      if TableView(s) {
        TableFrame(s, after, i);
      }
      if ClosingView(s) {
        ClosingFrame(s, after, i);
      }
    } else {
      LeaseTaken(s, after, i, newToken);
    }
  }

  lemma LeaseOwned(s: System, i: nat, newToken: Token, now: int, until: int)
    ensures OwnedView(s, At(s, i)) ==> OwnedView(LeaseStep(s, i, newToken, now, until), At(LeaseStep(s, i, newToken, now, until), i))
  {
    hide RowsOf;
  }

  /** With no assumption on time, on the lease or on what a caller hears back. */
  lemma BaseKept(s: System, step: Step)
    requires Base(s)
    ensures Base(Next(s, step))
  {
    if step.action.TryLease? {
      LeaseKeeps(s, step.process, step.action.newToken, step.action.now, step.action.until);
    } else {
      StepLocal(s, step);
      hide Next, Base, Local;
      BaseFrame(s, Next(s, step), step.process);
    }
  }

  /** The holder finds what it stored unless a process without the token intrudes. */
  lemma TableKept(s: System, step: Step)
    requires Base(s) && TableView(s) && !Intrudes(s, step)
    ensures TableView(Next(s, step))
  {
    hide Next, Base, Local, TableView, Touches, RowsOf, LeaseStep;
    if step.action.TryLease? {
      LeaseKeeps(s, step.process, step.action.newToken, step.action.now, step.action.until);
      LeaseIsNext(s, step);
    } else {
      StepLocal(s, step);
      TouchesIff(s, step, s.row.generation + 1);
      TableFrame(s, Next(s, step), step.process);
    }
  }

  lemma LeaseIsNext(s: System, step: Step)
    requires step.action.TryLease?
    ensures Next(s, step) == LeaseStep(s, step.process, step.action.newToken, step.action.now, step.action.until)
  {
  }

  lemma OwnedStep(s: System, step: Step)
    requires !step.action.TryLease? && !PublishesUnseen(s, step)
    requires GenerationView(s, At(s, step.process)) && OwnedView(s, At(s, step.process))
    ensures
      var after := Next(s, step);
      Holds(after, At(after, step.process)) ==> OwnedView(after, At(after, step.process))
  {
    hide FromCompleteWalk, RowsOf, SnapshotDue, Collides;
  }

  lemma ClosingKept(s: System, step: Step)
    requires Base(s) && ClosingView(s) && !PublishesUnseen(s, step)
    ensures ClosingView(Next(s, step))
  {
    if step.action.TryLease? {
      LeaseKeeps(s, step.process, step.action.newToken, step.action.now, step.action.until);
    } else {
      StepLocal(s, step);
      if GenerationView(s, At(s, step.process)) && OwnedView(s, At(s, step.process)) {
        OwnedStep(s, step);
      }
      hide Next, Base, Local, ClosingView, OwnedView, GenerationView, PublishesUnseen;
      ClosingFrame(s, Next(s, step), step.process);
    }
  }

  // ----- when the visible generation stays complete

  lemma WalkKnown(s: System, i: nat)
    requires Base(s)
    ensures WalkInHand(At(s, i))
  {
  }

  lemma QuietStep(s: System, step: Step)
    requires !Publishes(s, step)
    ensures Next(s, step).row.generation == s.row.generation && Next(s, step).walks == s.walks
  {
    GenerationStep(s, step);
    if step.action.TryLease? {
      LeaseCases(s, step.process, step.action.newToken, step.action.now, step.action.until);
      hide LeaseStep;
    } else {
      StepLocal(s, step);
      hide Next;
    }
  }

  lemma LoudStep(s: System, step: Step)
    requires Publishes(s, step)
    ensures
      var p, after := At(s, step.process), Next(s, step);
      && after.row.generation == p.read + 1 && after.walks == s.walks[p.read + 1 := p.rows] && after.table == s.table
  {
    hide FromCompleteWalk, RowsOf;
  }

  /** After any statement readers see the whole published walk if and only if the statement was not a harmful one. */
  lemma StepCompleteIff(s: System, step: Step)
    requires Base(s) && VisibleComplete(s)
    ensures VisibleComplete(Next(s, step)) <==> !Harmful(s, step)
  {
    TouchesIff(s, step, s.row.generation);
    if Publishes(s, step) {
      LoudStep(s, step);
      WalkKnown(s, step.process);
      hide Next, Base, FromCompleteWalk;
      assert !Touches(s, step, s.row.generation);
    } else {
      QuietStep(s, step);
      hide Next, Base, FromCompleteWalk, Touches;
    }
  }

  lemma PublisherStored(s: System, i: nat)
    requires TableView(s) && MayPublish(s, At(s, i))
    ensures RowsOf(s.table, At(s, i).read + 1) == At(s, i).rows
  {
    hide RowsOf;
    var p := At(s, i);
    assert StoredView(s, p);
    assert p.rows[..p.done] == p.rows;
  }

  /** A holder publishes what it walked, unless somebody intruded. */
  lemma HolderPublishesItsRows(s: System, step: Step)
    requires Base(s) && TableView(s)
    ensures Harmful(s, step) <==> Touches(s, step, s.row.generation)
  {
    hide Base, TableView, Touches, RowsOf, MayPublish;
    if Publishes(s, step) {
      PublisherStored(s, step.process);
    }
  }

  // ----- runs

  ghost predicate AlwaysComplete(s: System, steps: seq<Step>)
    decreases |steps|
  {
    VisibleComplete(s) && (steps == [] || AlwaysComplete(Next(s, steps[0]), steps[1..]))
  }

  ghost predicate NeverHarmful(s: System, steps: seq<Step>)
    decreases |steps|
  {
    steps == [] || (!Harmful(s, steps[0]) && NeverHarmful(Next(s, steps[0]), steps[1..]))
  }

  /** Over any run at all, readers always see a complete walk if and only if no statement of it is harmful. */
  lemma {:induction false} CompleteIffHarmless(s: System, steps: seq<Step>)
    requires Base(s) && VisibleComplete(s)
    ensures AlwaysComplete(s, steps) <==> NeverHarmful(s, steps)
    decreases |steps|
  {
    hide Base, Next, Harmful, VisibleComplete;
    if steps != [] {
      BaseKept(s, steps[0]);
      StepCompleteIff(s, steps[0]);
      var next, rest := Next(s, steps[0]), steps[1..];
      if VisibleComplete(next) {
        CompleteIffHarmless(next, rest);
      }
    }
  }

  ghost predicate NeverIntrudes(s: System, steps: seq<Step>)
    decreases |steps|
  {
    steps == [] || (!Intrudes(s, steps[0]) && NeverIntrudes(Next(s, steps[0]), steps[1..]))
  }

  ghost predicate NeverTouchesVisible(s: System, steps: seq<Step>)
    decreases |steps|
  {
    steps == [] || (!Touches(s, steps[0], s.row.generation) && NeverTouchesVisible(Next(s, steps[0]), steps[1..]))
  }

  /** Where nobody intrudes on the holder, only a delete or an insert of the visible generation itself can harm. */
  lemma {:induction false} CompleteIffUntouched(s: System, steps: seq<Step>)
    requires Base(s) && TableView(s) && VisibleComplete(s) && NeverIntrudes(s, steps)
    ensures AlwaysComplete(s, steps) <==> NeverTouchesVisible(s, steps)
    decreases |steps|
  {
    hide Base, TableView, Next, Harmful, VisibleComplete, Touches, Intrudes;
    if steps != [] {
      BaseKept(s, steps[0]);
      TableKept(s, steps[0]);
      StepCompleteIff(s, steps[0]);
      HolderPublishesItsRows(s, steps[0]);
      if VisibleComplete(Next(s, steps[0])) {
        CompleteIffUntouched(Next(s, steps[0]), steps[1..]);
      }
    }
  }

  // ----- the lease assumption

  /**
   * A process changes the visible generation, or the one under construction, only while
   * its token is in the row, and hears of its own publish.
   */
  predicate LeaseRespected(s: System, step: Step) {
    && (Touches(s, step, s.row.generation) || Touches(s, step, s.row.generation + 1) ==> Holds(s, At(s, step.process)))
    && !PublishesUnseen(s, step)
  }

  ghost predicate Disciplined(s: System, steps: seq<Step>)
    decreases |steps|
  {
    steps == [] || (LeaseRespected(s, steps[0]) && Disciplined(Next(s, steps[0]), steps[1..]))
  }

  ghost predicate Inv(s: System) {
    Base(s) && TableView(s) && ClosingView(s) && VisibleComplete(s)
  }

  /** A holder that heard of its publish never changes what readers see. */
  lemma HolderSparesVisible(s: System, step: Step)
    requires Base(s) && ClosingView(s) && Holds(s, At(s, step.process))
    ensures !Touches(s, step, s.row.generation)
  {
    var p := At(s, step.process);
    assert GenerationView(s, p) && OwnedView(s, p);
    hide FromCompleteWalk, RowsOf, Collides, Base;
  }

  lemma StepKeeps(s: System, step: Step)
    requires Inv(s) && LeaseRespected(s, step)
    ensures Inv(Next(s, step))
  {
    hide Base, TableView, ClosingView, VisibleComplete, Next, Harmful, Touches, PublishesUnseen;
    BaseKept(s, step);
    TableKept(s, step);
    ClosingKept(s, step);
    StepCompleteIff(s, step);
    HolderPublishesItsRows(s, step);
    if Holds(s, At(s, step.process)) {
      HolderSparesVisible(s, step);
    }
  }

  /**
   * Over all interleavings, failures and crashes that respect the lease, readers always
   * see exactly the rows the publisher of the generation collapsed out of one complete walk.
   */
  lemma {:induction false} VisibleIsComplete(s: System, steps: seq<Step>)
    requires Inv(s) && Disciplined(s, steps)
    ensures Inv(Run(s, steps)) && VisibleComplete(Run(s, steps)) && AlwaysComplete(s, steps)
    decreases |steps|
  {
    hide Base, TableView, ClosingView, VisibleComplete, Next, LeaseRespected;
    if steps != [] {
      StepKeeps(s, steps[0]);
      VisibleIsComplete(Next(s, steps[0]), steps[1..]);
    }
  }

  /** A database with no process at work starts such a life, whether or not it has published before. */
  lemma QuietDatabase(row: StateRow, table: map<nat, seq<Row>>)
    requires row.lockedToken.None?
    requires if row.generation == 0 then RowsOf(table, 0) == [] else FromCompleteWalk(RowsOf(table, row.generation))
    ensures Inv(System(row, table, map[], {}, map[row.generation := RowsOf(table, row.generation)]))
  {
  }

  // ----- a holder's inserts

  lemma WalkKeysDiffer(rows: seq<Row>)
    requires FromCompleteWalk(rows)
    ensures forall i, j | 0 <= i < j < |rows| :: rows[i].matchKey != rows[j].matchKey
  {
    var pages: seq<Page>, naming: Naming :|
      CompleteWalk(pages) && IsCollapse(rows, ItemsOf(Raws(pages)), naming);
  }

  /** Rows of a complete walk never collide with each other. */
  lemma ChunkFits(p: Process)
    requires p.Inserting? && p.done <= |p.rows| && FromCompleteWalk(p.rows)
    ensures !Collides(p.rows[..p.done], Chunk(p))
    ensures p.done + |Chunk(p)| <= |p.rows| && p.rows[..p.done] + Chunk(p) == p.rows[..p.done + |Chunk(p)|]
  {
    WalkKeysDiffer(p.rows);
    hide FromCompleteWalk;
    NoCollision(p.rows, p.done, p.done + |Chunk(p)|);
  }

  lemma NoCollision(rows: seq<Row>, lo: nat, hi: nat)
    requires lo <= hi <= |rows|
    requires forall i, j | 0 <= i < j < |rows| :: rows[i].matchKey != rows[j].matchKey
    ensures !Collides(rows[..lo], rows[lo..hi])
    ensures rows[..lo] + rows[lo..hi] == rows[..hi]
  {
    forall i, j | 0 <= i < lo && 0 <= j < hi - lo ensures rows[..lo][i].matchKey != rows[lo..hi][j].matchKey {
      assert rows[lo..hi][j] == rows[lo + j];
    }
  }

  lemma InsertAccepted(s: System, i: nat, stored: seq<Row>)
    requires At(s, i).Inserting? && At(s, i).done < |At(s, i).rows|
    requires !Collides(RowsOf(s.table, At(s, i).read + 1), Chunk(At(s, i)))
    requires stored == RowsOf(s.table, At(s, i).read + 1) + Chunk(At(s, i))
    ensures
      var p := At(s, i);
      InsertStep(s, i) == Moved(s.(table := s.table[p.read + 1 := stored]), i, p.(done := p.done + |Chunk(p)|))
  {
    hide Collides, RowsOf, Chunk, Failed;
  }

  /** A chunk of a walk goes in behind the rows of that walk already there. */
  lemma InsertEffect(s: System, i: nat)
    requires At(s, i).Inserting? && At(s, i).done < |At(s, i).rows| && FromCompleteWalk(At(s, i).rows)
    requires RowsOf(s.table, At(s, i).read + 1) == At(s, i).rows[..At(s, i).done]
    ensures
      var p := At(s, i);
      var done := p.done + |Chunk(p)|;
      && done <= |p.rows|
      && InsertStep(s, i) == Moved(s.(table := s.table[p.read + 1 := p.rows[..done]]), i, p.(done := done))
  {
    hide InsertStep, Collides, RowsOf, Chunk, FromCompleteWalk, Moved, At;
    ChunkFits(At(s, i));
    InsertAccepted(s, i, At(s, i).rows[..At(s, i).done + |Chunk(At(s, i))|]);
  }

  /** A holder's insert is never refused: its next chunk follows the rows it put there before. */
  lemma HolderInserts(s: System, i: nat)
    requires Base(s) && TableView(s) && Holds(s, At(s, i))
    requires At(s, i).Inserting? && At(s, i).done < |At(s, i).rows|
    ensures
      var p := At(s, i);
      var done := p.done + |Chunk(p)|;
      && p.done < done <= |p.rows|
      && InsertStep(s, i) == Moved(s.(table := s.table[p.read + 1 := p.rows[..done]]), i, p.(done := done))
  {
    WalkKnown(s, i);
    assert StoredView(s, At(s, i));
    hide Base, TableView, FromCompleteWalk, InsertStep, RowsOf, Holds, Moved;
    InsertEffect(s, i);
  }

  // ----- the lease assumption is needed

  lemma {:induction false} RunCons(s: System, step: Step, rest: seq<Step>)
    ensures Run(s, [step] + rest) == Run(Next(s, step), rest)
  {
    assert ([step] + rest)[1..] == rest;
  }

  lemma RunTwo(s: System, a: Step, b: Step)
    ensures Run(s, [a] + [b]) == Next(Next(s, a), b)
  {
    RunCons(s, a, [b]);
    RunCons(Next(s, a), b, []);
    assert [b] + [] == [b];
  }

  lemma {:induction false} RunAppend(s: System, a: seq<Step>, b: seq<Step>)
    ensures Run(s, a + b) == Run(Run(s, a), b)
    decreases |a|
  {
    if a == [] {
      assert a + b == b;
    } else {
      assert a + b == [a[0]] + (a[1..] + b);
      RunCons(s, a[0], a[1..] + b);
      RunAppend(Next(s, a[0]), a[1..], b);
    }
  }

  /** A run of process `i` from its start to the end of its walk, taking the lease on the way. */
  function WalkSteps(i: nat, token: Token, now: int, rows: seq<Row>): seq<Step> {
    [Step(i, FirstRead(now, true))] + ([Step(i, TryLease(token, now, now + 1))] + ([Step(i, SecondRead(now))]
      + ([Step(i, DeleteOthers)] + [Step(i, FinishWalk(rows))])))
  }

  /** It only needs a due state, a lease that is free or has run out, and a new token. */
  lemma WalkRun(s: System, i: nat, token: Token, now: int, rows: seq<Row>)
    requires At(s, i) == Begin && SnapshotDue(s.row, now) && LeaseFree(s.row, now) && token !in s.tokens
    requires FromCompleteWalk(rows)
    ensures Run(s, WalkSteps(i, token, now, rows)) ==
      System(s.row.(lockedToken := Some(token), lockedUntil := Some(now + 1)), Only(s.table, s.row.generation),
             s.processes[i := Walked(token, s.row.generation, rows)], s.tokens + {token}, s.walks)
  {
    hide FromCompleteWalk;
    var s1 := Next(s, Step(i, FirstRead(now, true)));
    var s2 := Next(s1, Step(i, TryLease(token, now, now + 1)));
    var s3 := Next(s2, Step(i, SecondRead(now)));
    var s4 := Next(s3, Step(i, DeleteOthers));
    var last := [Step(i, FinishWalk(rows))];
    RunCons(s4, last[0], []);
    assert [last[0]] + [] == last;
    RunCons(s3, Step(i, DeleteOthers), last);
    RunCons(s2, Step(i, SecondRead(now)), [Step(i, DeleteOthers)] + last);
    RunCons(s1, Step(i, TryLease(token, now, now + 1)), [Step(i, SecondRead(now))] + ([Step(i, DeleteOthers)] + last));
    RunCons(s, Step(i, FirstRead(now, true)),
      [Step(i, TryLease(token, now, now + 1))] + ([Step(i, SecondRead(now))] + ([Step(i, DeleteOthers)] + last)));
    assert Next(s4, last[0]).processes == s.processes[i := Walked(token, s.row.generation, rows)];
  }

  function PublishSteps(i: nat, at: int): seq<Step> {
    [Step(i, FinalBeat(at))] + ([Step(i, InsertChunk)] + [Step(i, Publish(at))])
  }

  lemma WholeInsert(s: System, i: nat)
    requires At(s, i).Inserting? && At(s, i).done == 0 && 0 < |At(s, i).rows| <= INSERT_CHUNK
    requires RowsOf(s.table, At(s, i).read + 1) == []
    ensures
      var p := At(s, i);
      InsertStep(s, i) == Moved(s.(table := s.table[p.read + 1 := p.rows]), i, p.(done := |p.rows|))
  {
    var p := At(s, i);
    assert p.rows[0..|p.rows|] == p.rows && [] + p.rows == p.rows;
  }

  lemma BeatEffect(s: System, i: nat, at: int)
    requires At(s, i).Walked? && Holds(s, At(s, i))
    ensures
      var p := At(s, i);
      FinalBeatStep(s, i, at) == Moved(Renewed(s, at), i, Inserting(p.token, p.read, p.rows, 0))
  {
  }

  lemma PublishEffect(s: System, i: nat, at: int)
    requires MayPublish(s, At(s, i))
    ensures PublishStep(s, i, at) == Moved(Committed(s, At(s, i), at), i, Published(At(s, i).token, At(s, i).read))
  {
  }

  lemma PublishRun(s: System, i: nat, at: int)
    requires At(s, i).Walked? && Holds(s, At(s, i)) && At(s, i).read == s.row.generation
    requires 0 < |At(s, i).rows| <= INSERT_CHUNK && RowsOf(s.table, s.row.generation + 1) == []
    ensures
      var p, after := At(s, i), Run(s, PublishSteps(i, at));
      && after == System(s.row.(generation := p.read + 1, refreshedAt := Some(at), lockedUntil := Some(at)),
                         s.table[p.read + 1 := p.rows], s.processes[i := Published(p.token, p.read)], s.tokens,
                         s.walks[p.read + 1 := p.rows])
  {
    var p := At(s, i);
    var s1 := FinalBeatStep(s, i, at);
    var s2 := InsertStep(s1, i);
    var s3 := PublishStep(s2, i, at);
    assert Run(s, PublishSteps(i, at)) == s3 by {
      hide FinalBeatStep, InsertStep, PublishStep;
      RunCons(s2, Step(i, Publish(at)), []);
      assert [Step(i, Publish(at))] + [] == [Step(i, Publish(at))];
      RunCons(s1, Step(i, InsertChunk), [Step(i, Publish(at))]);
      RunCons(s, Step(i, FinalBeat(at)), [Step(i, InsertChunk)] + [Step(i, Publish(at))]);
    }
    hide Run, PublishSteps;
    hide FinalBeatStep, InsertStep, PublishStep, RowsOf;
    BeatEffect(s, i, at);
    WholeInsert(s1, i);
    PublishEffect(s2, i, at);
    assert s3.processes == s.processes[i := Published(p.token, p.read)];
  }

  const EMPTY_DATABASE := System(StateRow(0, None, None, None, None), map[], map[], {}, map[])

  /** Process 0 walks and loses its lease; process 1 publishes generation 1; process 0 then deletes what it owns. */
  function LateDelete(rows: seq<Row>): seq<Step> {
    WalkSteps(0, 0, 0, rows) + (WalkSteps(1, 1, 2, rows) + (PublishSteps(1, 3)
      + ([Step(0, FinalBeat(4))] + [Step(0, DeleteOwned)])))
  }

  lemma EmptyIsQuiet()
    ensures Base(EMPTY_DATABASE) && TableView(EMPTY_DATABASE) && ClosingView(EMPTY_DATABASE) && VisibleComplete(EMPTY_DATABASE)
  {
  }

  /** Without the lease assumption a late `finally` empties the visible generation of another process. */
  lemma LateDeleteEmptiesVisible(rows: seq<Row>)
    requires FromCompleteWalk(rows) && 0 < |rows| <= INSERT_CHUNK
    ensures Inv(EMPTY_DATABASE)
    ensures
      var after := Run(EMPTY_DATABASE, LateDelete(rows));
      && after.row.generation == 1 && after.row.lockedToken == Some(1)
      && 1 in after.walks && after.walks[1] == rows && Visible(after) == []
      && !VisibleComplete(after)
  {
    EmptyIsQuiet();
    hide FromCompleteWalk;
    var s := EMPTY_DATABASE;
    WalkRun(s, 0, 0, 0, rows);
    var s1 := Run(s, WalkSteps(0, 0, 0, rows));
    WalkRun(s1, 1, 1, 2, rows);
    var s2 := Run(s1, WalkSteps(1, 1, 2, rows));
    PublishRun(s2, 1, 3);
    var s3 := Run(s2, PublishSteps(1, 3));
    var tail := [Step(0, FinalBeat(4))] + [Step(0, DeleteOwned)];
    hide WalkSteps, PublishSteps;
    RunAppend(s, WalkSteps(0, 0, 0, rows), WalkSteps(1, 1, 2, rows) + (PublishSteps(1, 3) + tail));
    RunAppend(s1, WalkSteps(1, 1, 2, rows), PublishSteps(1, 3) + tail);
    RunAppend(s2, PublishSteps(1, 3), tail);
    LateTail(s3);
  }

  lemma LateTail(s: System)
    requires At(s, 0).Walked? && At(s, 0).read == 0 && s.row.generation == 1 && !Holds(s, At(s, 0))
    ensures
      var after := Run(s, [Step(0, FinalBeat(4))] + [Step(0, DeleteOwned)]);
      after.row == s.row && after.walks == s.walks && Visible(after) == []
  {
    RunCons(s, Step(0, FinalBeat(4)), [Step(0, DeleteOwned)]);
    var s1 := Next(s, Step(0, FinalBeat(4)));
    RunCons(s1, Step(0, DeleteOwned), []);
    assert [Step(0, DeleteOwned)] + [] == [Step(0, DeleteOwned)];
  }

  /** As above, but process 0 deletes between the insert and the publish of process 1. */
  function EarlyDelete(rows: seq<Row>): seq<Step> {
    WalkSteps(0, 0, 0, rows) + (WalkSteps(1, 1, 2, rows) + ([Step(1, FinalBeat(3))] + ([Step(1, InsertChunk)]
      + ([Step(0, FinalBeat(4))] + ([Step(0, DeleteOwned)] + [Step(1, Publish(5))])))))
  }

  lemma EarlyTail(s: System)
    requires At(s, 0).Walked? && At(s, 0).read == 0 && !Holds(s, At(s, 0)) && MayPublish(s, At(s, 1)) && At(s, 1).read == 0
    ensures
      var after := Run(s, [Step(0, FinalBeat(4))] + ([Step(0, DeleteOwned)] + [Step(1, Publish(5))]));
      after.row.generation == 1 && after.walks == s.walks[1 := At(s, 1).rows] && Visible(after) == []
  {
    var s1 := FinalBeatStep(s, 0, 4);
    var s2 := DeleteOwnedStep(s1, 0);
    var s3 := PublishStep(s2, 1, 5);
    assert Run(s, [Step(0, FinalBeat(4))] + ([Step(0, DeleteOwned)] + [Step(1, Publish(5))])) == s3 by {
      hide FinalBeatStep, DeleteOwnedStep, PublishStep;
      RunCons(s, Step(0, FinalBeat(4)), [Step(0, DeleteOwned)] + [Step(1, Publish(5))]);
      RunCons(s1, Step(0, DeleteOwned), [Step(1, Publish(5))]);
      RunCons(s2, Step(1, Publish(5)), []);
      assert [Step(1, Publish(5))] + [] == [Step(1, Publish(5))];
    }
    hide Run;
  }

  /** An intruder can also spoil the publish itself: the token holder then publishes a generation without its rows. */
  lemma EarlyDeleteSpoilsPublish(rows: seq<Row>)
    requires FromCompleteWalk(rows) && 0 < |rows| <= INSERT_CHUNK
    ensures
      var after := Run(EMPTY_DATABASE, EarlyDelete(rows));
      && after.row.generation == 1 && 1 in after.walks && after.walks[1] == rows
      && Visible(after) == [] && !VisibleComplete(after)
  {
    hide FromCompleteWalk;
    var s := EMPTY_DATABASE;
    WalkRun(s, 0, 0, 0, rows);
    var s1 := Run(s, WalkSteps(0, 0, 0, rows));
    WalkRun(s1, 1, 1, 2, rows);
    var s2 := Run(s1, WalkSteps(1, 1, 2, rows));
    var s3 := FinalBeatStep(s2, 1, 3);
    WholeInsert(s3, 1);
    var s4 := InsertStep(s3, 1);
    EarlyTail(s4);
    var tail := [Step(0, FinalBeat(4))] + ([Step(0, DeleteOwned)] + [Step(1, Publish(5))]);
    hide WalkSteps, FinalBeatStep, InsertStep;
    RunAppend(s, WalkSteps(0, 0, 0, rows), WalkSteps(1, 1, 2, rows) + ([Step(1, FinalBeat(3))] + ([Step(1, InsertChunk)] + tail)));
    RunAppend(s1, WalkSteps(1, 1, 2, rows), [Step(1, FinalBeat(3))] + ([Step(1, InsertChunk)] + tail));
    RunCons(s2, Step(1, FinalBeat(3)), [Step(1, InsertChunk)] + tail);
    RunCons(s3, Step(1, InsertChunk), tail);
  }

  /** One process alone: its publish commits, the call throws, and its own `finally` runs. */
  function UnseenPublish(rows: seq<Row>): seq<Step> {
    WalkSteps(0, 0, 0, rows) + ([Step(0, FinalBeat(1))] + ([Step(0, InsertChunk)]
      + ([Step(0, PublishUnseen(1))] + [Step(0, DeleteOwned)])))
  }

  lemma UnseenEffect(s: System, i: nat, at: int)
    requires MayPublish(s, At(s, i))
    ensures UnseenStep(s, i, at) == Moved(Committed(s, At(s, i), at), i, Closing(At(s, i).token, Some(At(s, i).read + 1)))
  {
  }

  lemma DeleteEffect(s: System, i: nat, token: Token, g: nat)
    requires At(s, i) == Closing(token, Some(g))
    ensures DeleteOwnedStep(s, i) == Moved(s.(table := Without(s.table, g)), i, Releasing(token))
    ensures RowsOf(Without(s.table, g), g) == []
  {
  }

  lemma UnseenNext(s: System, i: nat, at: int)
    ensures Next(s, Step(i, PublishUnseen(at))) == UnseenStep(s, i, at)
  {
    hide UnseenStep;
  }

  lemma DeleteNext(s: System, i: nat)
    ensures Next(s, Step(i, DeleteOwned)) == DeleteOwnedStep(s, i)
  {
    hide DeleteOwnedStep;
  }

  lemma UnseenTail(s: System)
    requires At(s, 0).Inserting? && MayPublish(s, At(s, 0))
    ensures
      var p, after := At(s, 0), Run(s, [Step(0, PublishUnseen(1))] + [Step(0, DeleteOwned)]);
      && after.row == s.row.(generation := p.read + 1, refreshedAt := Some(1))
      && after.walks == s.walks[p.read + 1 := p.rows] && Visible(after) == []
      && TokenOf(At(after, 0)) == Some(p.token)
  {
    var p := At(s, 0);
    var s1 := UnseenStep(s, 0, 1);
    var s2 := DeleteOwnedStep(s1, 0);
    hide Run, Next, UnseenStep, DeleteOwnedStep, Without, RowsOf;
    RunTwo(s, Step(0, PublishUnseen(1)), Step(0, DeleteOwned));
    UnseenNext(s, 0, 1);
    DeleteNext(s1, 0);
    UnseenEffect(s, 0, 1);
    DeleteEffect(s1, 0, p.token, p.read + 1);
  }

  /** Such a publish empties the visible generation although the token never leaves the row. */
  lemma UnseenPublishEmptiesVisible(rows: seq<Row>)
    requires FromCompleteWalk(rows) && 0 < |rows| <= INSERT_CHUNK
    ensures
      var after := Run(EMPTY_DATABASE, UnseenPublish(rows));
      && after.row.generation == 1 && Holds(after, At(after, 0))
      && 1 in after.walks && after.walks[1] == rows && Visible(after) == []
      && !VisibleComplete(after)
  {
    var s := EMPTY_DATABASE;
    WalkRun(s, 0, 0, 0, rows);
    var s1 := Run(s, WalkSteps(0, 0, 0, rows));
    var s2 := FinalBeatStep(s1, 0, 1);
    WholeInsert(s2, 0);
    var s3 := InsertStep(s2, 0);
    UnseenTail(s3);
    var last := [Step(0, PublishUnseen(1))] + [Step(0, DeleteOwned)];
    hide WalkSteps, FromCompleteWalk, FinalBeatStep, InsertStep;
    RunAppend(s, WalkSteps(0, 0, 0, rows), [Step(0, FinalBeat(1))] + ([Step(0, InsertChunk)] + last));
    RunCons(s1, Step(0, FinalBeat(1)), [Step(0, InsertChunk)] + last);
    RunCons(s2, Step(0, InsertChunk), last);
  }

  lemma SingleCollapse(item: Item, key: string, naming: Naming)
    requires GeographyMatchKey(item.msisdn) == Some(key)
    ensures IsCollapse([RowFor([item], key, naming)], [item], naming)
  {
    hide GeographyMatchKey, RowFor;
    var row := RowFor([item], key, naming);
    RowHasKey([item], key, naming);
    assert [item][0] == item && item in [item];
    assert KeysOf([item]) == {key};
    assert [row][0].matchKey == key;
  }

  lemma SingleWalk(raw: Raw, item: Item)
    requires Acceptable(raw) && ItemOf(raw) == item && item.msisdn != ""
    ensures var pages := [Page([raw], Some(1))]; CompleteWalk(pages) && ItemsOf(Raws(pages)) == [item]
  {
    hide Acceptable, ItemOf, PairKey;
    var pages := [Page([raw], Some(1))];
    assert [raw][..0] == [] && ItemsOf([raw][..0]) == [];
    assert ItemsOf([raw]) == [item];
    assert pages[..0] == [];
    assert Raws(pages) == [raw];
  }

  const ONE_NUMBER := Record(Str("purchased"), Str("1"), Missing)

  lemma KeyOfOne()
    ensures GeographyMatchKey("1").Some?
    ensures Acceptable(ONE_NUMBER) && ItemOf(ONE_NUMBER) == Item("1", "")
  {
    DigitTextIsItself("1");
  }

  /** Complete walks with rows exist. */
  lemma SomeCompleteWalk() returns (rows: seq<Row>)
    ensures FromCompleteWalk(rows) && |rows| == 1
  {
    hide Acceptable, ItemOf, GeographyMatchKey, CompleteWalk, IsCollapse, RowFor, ItemsOf, Raws;
    KeyOfOne();
    var item := Item("1", "");
    var naming := Naming((code: string) => code, (text: string) => "");
    SingleWalk(ONE_NUMBER, item);
    SingleCollapse(item, GeographyMatchKey("1").value, naming);
    rows := [RowFor([item], GeographyMatchKey("1").value, naming)];
  }
}
