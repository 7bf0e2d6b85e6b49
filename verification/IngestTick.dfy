/**
 * One ingest tick: the read loop over a connection, the reconnect loop around it,
 * the shared byte budget, and the single clock stamp at the end.
 *
 * The outside (file, settings, database) is a script of what each pass sees; where
 * the script ends, the next call throws.
 */
module IngestTick {
  import opened Wrappers
  import opened Splitter
  import opened Ingest

  datatype Stamp = Data(hadRows: bool, clearError: bool) | Idle | NoStamp

  function PlanTickStamp(m: Memory, success: bool): Stamp {
    if m.priorBytes + m.bytes > 0 then Data(m.priorRows || m.rows, success)
    else if success then Idle
    else NoStamp
  }

  // ----- the loops as functions

  datatype Drained = Drained(db: Db, memory: Memory, left: int, outcome: Outcome)

  function ReadLoop(connected: Target, db: Db, memory: Memory, left: int, script: seq<Seen>): Drained
    decreases |script|
  {
    if left <= 0 then Drained(db, memory, left, Succeeded)
    else if script == [] then Drained(db, memory, left, Threw)
    else
      var p := IngestPass(connected, db, memory, script[0]);
      if p.outcome.Some? then Drained(p.db, p.memory, left, p.outcome.value)
      else ReadLoop(connected, p.db, p.memory, left - p.read, script[1..])
  }

  /** One connection attempt: is there a key, where does it go, what is seen there. */
  datatype Session = Session(hasKey: bool, target: Target, script: seq<Seen>)

  function TargetLoop(db: Db, memory: Memory, left: int, sessions: seq<Session>): Drained
    decreases |sessions|
  {
    if sessions == [] then Drained(db, memory, left, Threw)
    else if !sessions[0].hasKey then Drained(db, memory, left, Broke)
    else
      var r := ReadLoop(sessions[0].target, db, memory, left, sessions[0].script);
      if r.outcome != Reconnects then r
      else TargetLoop(r.db, r.memory, r.left, sessions[1..])
  }

  // ----- the loops as code

  class TickMemory {
    var priorBytes: nat
    var priorRows: bool
    var bytes: nat
    var rows: bool

    constructor ()
      ensures View() == Memory(0, false, 0, false)
    {
      priorBytes, priorRows, bytes, rows := 0, false, 0, false;
    }

    ghost function View(): Memory
      reads this
    {
      Memory(priorBytes, priorRows, bytes, rows)
    }

    method FoldFileSwitch()
      modifies this
      ensures View() == Folded(old(View()))
    {
      priorBytes := priorBytes + bytes;
      priorRows := priorRows || rows;
      bytes := 0;
      rows := false;
    }
  }

  class Budget {
    var left: int

    constructor (limit: int)
      ensures left == limit
    {
      left := limit;
    }
  }

  class IngestStore {
    var cursor: Cursor
    var calls: seq<Call>
    var gaps: seq<Gap>

    ghost function View(): Db
      reads this
    {
      Db(cursor, calls, gaps)
    }

    method ApplyReset(stat: Stat, change: FileChange, sourcePath: Option<string>)
      requires change.Reset?
      modifies this
      ensures View() == ResetDb(old(View()), stat, change, sourcePath)
    {
      if |change.flushPending| > 0 && change.flushOffset.Some? && change.flushOffset.value >= 0 {
        calls := InsertSkipping(calls, [Slice(change.flushOffset.value, change.flushPending)], cursor.generation);
      }
      gaps := AddGap(gaps, cursor.generation, change.gap, change.reason);
      cursor := Cursor(cursor.generation + 1, stat.inode, 0, stat.size, [],
                       if sourcePath.Some? then sourcePath.value else cursor.sourcePath);
    }

    method ApplyTruncateTail(stat: Stat, lost: Range)
      modifies this
      ensures View() == TruncateDb(old(View()), stat, lost)
    {
      gaps := AddGap(gaps, cursor.generation, Some(lost), FileShrunk);
      cursor := cursor.(fileSize := stat.size, inode := stat.inode);
    }

    method CommitChunk(stat: Stat, taken: Taken)
      requires taken.nextOffset >= 0
      modifies this
      ensures View() == CommitDb(old(View()), stat, taken)
    {
      if |taken.records| > 0 {
        calls := InsertSkipping(calls, taken.records, cursor.generation);
      }
      cursor := cursor.(inode := stat.inode, byteOffset := taken.nextOffset, fileSize := stat.size,
                        pending := taken.pending);
    }

    method MarkCaughtUp(stat: Stat)
      modifies this
      ensures View() == CaughtUpDb(old(View()), stat)
    {
      cursor := cursor.(inode := stat.inode, fileSize := stat.size);
    }

    method AdoptSource(logPath: string, stat: Stat)
      modifies this
      ensures View() == AdoptDb(old(View()), logPath, stat)
    {
      cursor := cursor.(sourcePath := logPath, inode := stat.inode, fileSize := stat.size);
    }

    /** One turn of the loop on a connection. `done` is the value returned from inside the loop, if any. */
    method ReadOnce(connected: Target, memory: TickMemory, budget: Budget, seen: Seen) returns (done: Option<Outcome>)
      modifies this, memory, budget
      ensures
        var p := IngestPass(connected, old(View()), old(memory.View()), seen);
        && View() == p.db && memory.View() == p.memory && done == p.outcome
        && (done.None? ==> budget.left == old(budget.left) - p.read)
        && (done.Some? ==> budget.left == old(budget.left))
    {
      if seen.target.host != connected.host || seen.target.username != connected.username {
        return Some(Reconnects);
      }
      if seen.stat.None? {
        return Some(Broke);
      }
      var stat := seen.stat.value;
      if cursor.sourcePath != seen.target.logPath {
        if AdoptsSource(cursor, stat) {
          if !seen.commits {
            return Some(Threw);
          }
          AdoptSource(seen.target.logPath, stat);
        } else {
          memory.FoldFileSwitch();
          if !seen.commits {
            return Some(Threw);
          }
          ApplyReset(stat, PlanReset(cursor, SourceChanged), Some(seen.target.logPath));
        }
        return None;
      }
      var change := PlanFileChange(cursor, stat);
      if change.Reset? {
        memory.FoldFileSwitch();
        if !seen.commits {
          return Some(Threw);
        }
        ApplyReset(stat, change, None);
        return None;
      }
      if change.TruncateTail? {
        if !seen.commits {
          return Some(Threw);
        }
        ApplyTruncateTail(stat, change.lost);
        return None;
      }
      if stat.size <= cursor.byteOffset {
        if !seen.commits {
          return Some(Threw);
        }
        MarkCaughtUp(stat);
        return Some(Succeeded);
      }
      if |seen.chunk| == 0 {
        return Some(Broke);
      }
      var taken := TakeCompleteRecords(cursor.pending, seen.chunk, cursor.byteOffset);
      memory.bytes := memory.bytes + |seen.chunk|;
      memory.rows := memory.rows || |taken.records| > 0;
      if !seen.commits {
        return Some(Threw);
      }
      CommitChunk(stat, taken);
      budget.left := budget.left - |seen.chunk|;
      return None;
    }

    method ReadOnConnection(connected: Target, memory: TickMemory, budget: Budget, script: seq<Seen>)
      returns (outcome: Outcome)
      modifies this, memory, budget
      ensures
        Drained(View(), memory.View(), budget.left, outcome)
        == ReadLoop(connected, old(View()), old(memory.View()), old(budget.left), script)
    {
      hide IngestPass;
      var i := 0;
      while budget.left > 0
        invariant 0 <= i <= |script|
        invariant
          ReadLoop(connected, View(), memory.View(), budget.left, script[i..])
          == ReadLoop(connected, old(View()), old(memory.View()), old(budget.left), script)
        decreases |script| - i
      {
        if i == |script| {
          return Threw;
        }
        var done := ReadOnce(connected, memory, budget, script[i]);
        assert script[i..][0] == script[i] && script[i..][1..] == script[i + 1..];
        if done.Some? {
          return done.value;
        }
        i := i + 1;
      }
      return Succeeded;
    }

    method ReadTarget(memory: TickMemory, limit: int, sessions: seq<Session>) returns (outcome: Outcome)
      modifies this, memory
      ensures
        var r := TargetLoop(old(View()), old(memory.View()), limit, sessions);
        View() == r.db && memory.View() == r.memory && outcome == r.outcome
    {
      hide ReadLoop;
      var budget := new Budget(limit);
      var i := 0;
      while true
        invariant 0 <= i <= |sessions|
        invariant fresh(budget)
        invariant
          TargetLoop(View(), memory.View(), budget.left, sessions[i..])
          == TargetLoop(old(View()), old(memory.View()), limit, sessions)
        decreases |sessions| - i
      {
        if i == |sessions| {
          return Threw;
        }
        assert sessions[i..][0] == sessions[i] && sessions[i..][1..] == sessions[i + 1..];
        if !sessions[i].hasKey {
          return Broke;
        }
        outcome := ReadOnConnection(sessions[i].target, memory, budget, sessions[i].script);
        if outcome != Reconnects {
          return outcome;
        }
        i := i + 1;
      }
    }
  }

  class Gate {
    var running: bool
  }

  const TICK_BUDGET_BYTES := 64 * 1024 * 1024
  const READ_CHUNK_BYTES := 1_048_576

  /** The clock write of the tick, or None when the tick was skipped. */
  method DrainParkingCalls(store: IngestStore, gate: Gate, vacuumActive: bool, hasKey: bool, sessions: seq<Session>)
    returns (stamp: Option<Stamp>)
    modifies store, gate
    ensures gate.running == old(gate.running)
    ensures old(gate.running) || vacuumActive || !hasKey ==> stamp == None && store.View() == old(store.View())
    ensures !old(gate.running) && !vacuumActive && hasKey ==>
      var r := TargetLoop(old(store.View()), Memory(0, false, 0, false), TICK_BUDGET_BYTES, sessions);
      && store.View() == r.db
      && stamp == Some(PlanTickStamp(r.memory, r.outcome == Succeeded))
  {
    if gate.running || vacuumActive {
      return None;
    }
    gate.running := true;
    if !hasKey {
      gate.running := false;
      return None;
    }
    var memory := new TickMemory();
    var outcome := store.ReadTarget(memory, TICK_BUDGET_BYTES, sessions);
    stamp := Some(PlanTickStamp(
      Memory(memory.priorBytes, memory.priorRows, memory.bytes, memory.rows), outcome == Succeeded));
    gate.running := false;
  }

  // ----- what a tick keeps

  lemma {:induction false} ReadLoopKeeps(connected: Target, db: Db, memory: Memory, left: int, script: seq<Seen>)
    requires Inv(db)
    ensures Inv(ReadLoop(connected, db, memory, left, script).db)
    decreases |script|
  {
    hide IngestPass, Inv, Content, IsReset;
    if left > 0 && script != [] {
      PassKeeps(connected, db, memory, script[0]);
      var p := IngestPass(connected, db, memory, script[0]);
      ReadLoopKeeps(connected, p.db, p.memory, left - p.read, script[1..]);
    }
  }

  lemma {:induction false} TickKeeps(db: Db, memory: Memory, left: int, sessions: seq<Session>)
    requires Inv(db)
    ensures Inv(TargetLoop(db, memory, left, sessions).db)
    decreases |sessions|
  {
    if sessions != [] && sessions[0].hasKey {
      var r := ReadLoop(sessions[0].target, db, memory, left, sessions[0].script);
      ReadLoopKeeps(sessions[0].target, db, memory, left, sessions[0].script);
      TickKeeps(r.db, r.memory, r.left, sessions[1..]);
    }
  }

  function Total(m: Memory): nat {
    m.priorBytes + m.bytes
  }

  ghost predicate ReadsAtMost(script: seq<Seen>, limit: nat) {
    forall i | 0 <= i < |script| :: |script[i].chunk| <= limit
  }

  lemma PassBudget(connected: Target, db: Db, memory: Memory, seen: Seen)
    ensures
      var p := IngestPass(connected, db, memory, seen);
      && Total(memory) + p.read <= Total(p.memory) <= Total(memory) + |seen.chunk|
      && (p.outcome.None? ==> Total(p.memory) == Total(memory) + p.read)
      && (p.outcome == Some(Reconnects) ==> p.memory == memory)
  {
  }

  lemma {:induction false} ReadLoopBudget(connected: Target, db: Db, memory: Memory, left: int, script: seq<Seen>, limit: nat)
    requires ReadsAtMost(script, limit)
    ensures
      var r := ReadLoop(connected, db, memory, left, script);
      && Total(memory) <= Total(r.memory) <= Total(memory) + Max(0, left - 1 + limit)
      && (r.outcome == Reconnects ==> Total(r.memory) + r.left == Total(memory) + left && r.left > 0)
    decreases |script|
  {
    hide IngestPass;
    if left > 0 && script != [] {
      assert |script[0].chunk| <= limit;
      PassBudget(connected, db, memory, script[0]);
      var p := IngestPass(connected, db, memory, script[0]);
      ReadLoopBudget(connected, p.db, p.memory, left - p.read, script[1..], limit);
    }
  }

  /**
   * A tick reads less than its budget plus one read, however often it reconnects,
   * switches files, or fails: the budget is shared.
   */
  lemma {:induction false} TickBudget(db: Db, memory: Memory, left: int, sessions: seq<Session>, limit: nat)
    requires left > 0
    requires forall i | 0 <= i < |sessions| :: ReadsAtMost(sessions[i].script, limit)
    ensures Total(TargetLoop(db, memory, left, sessions).memory) < Total(memory) + left + limit
    decreases |sessions|
  {
    if sessions != [] && sessions[0].hasKey {
      var r := ReadLoop(sessions[0].target, db, memory, left, sessions[0].script);
      ReadLoopBudget(sessions[0].target, db, memory, left, sessions[0].script, limit);
      if r.outcome == Reconnects {
        TickBudget(r.db, r.memory, r.left, sessions[1..], limit);
      }
    }
  }

  // ----- the stamp does not see file switches

  datatype MemoryEvent = ReadChunk(bytes: nat, rows: bool) | FileSwitch

  function Happened(m: Memory, event: MemoryEvent): Memory {
    match event
    case ReadChunk(n, rows) => m.(bytes := m.bytes + n, rows := m.rows || rows)
    case FileSwitch => Folded(m)
  }

  function Play(m: Memory, events: seq<MemoryEvent>): Memory
    decreases |events|
  {
    if events == [] then m else Play(Happened(m, events[0]), events[1..])
  }

  function TotalRead(events: seq<MemoryEvent>): nat {
    if events == [] then 0
    else (if events[0].ReadChunk? then events[0].bytes else 0) + TotalRead(events[1..])
  }

  predicate AnyRows(events: seq<MemoryEvent>) {
    exists i | 0 <= i < |events| :: events[i].ReadChunk? && events[i].rows
  }

  lemma {:induction false} PlayTotals(m: Memory, events: seq<MemoryEvent>)
    ensures Total(Play(m, events)) == Total(m) + TotalRead(events)
    ensures (Play(m, events).priorRows || Play(m, events).rows) <==> (m.priorRows || m.rows || AnyRows(events))
    decreases |events|
  {
    if events != [] {
      PlayTotals(Happened(m, events[0]), events[1..]);
      assert AnyRows(events) <==> (events[0].ReadChunk? && events[0].rows) || AnyRows(events[1..]) by {
        if AnyRows(events[1..]) {
          var i :| 0 <= i < |events[1..]| && events[1..][i].ReadChunk? && events[1..][i].rows;
          assert events[i + 1].rows;
        }
        if AnyRows(events) {
          var i :| 0 <= i < |events| && events[i].ReadChunk? && events[i].rows;
          assert i > 0 ==> events[1..][i - 1].rows;
        }
      }
    }
  }

  lemma {:induction false} PlayAppend(m: Memory, a: seq<MemoryEvent>, b: seq<MemoryEvent>)
    ensures Play(m, a + b) == Play(Play(m, a), b)
    decreases |a|
  {
    if a == [] {
      assert a + b == b;
    } else {
      assert (a + b)[1..] == a[1..] + b;
      PlayAppend(Happened(m, a[0]), a[1..], b);
    }
  }

  /** What one pass reads, or the file switch it folds; nothing on every other path. */
  function PassReads(connected: Target, db: Db, seen: Seen): seq<MemoryEvent> {
    var c := db.cursor;
    if seen.target.host != connected.host || seen.target.username != connected.username || seen.stat.None? then []
    else if c.sourcePath != seen.target.logPath then
      if AdoptsSource(c, seen.stat.value) then [] else [FileSwitch]
    else
      match PlanFileChange(c, seen.stat.value)
      case TruncateTail(_) => []
      case Reset(_, _, _, _) => [FileSwitch]
      case KeepReading =>
        if seen.stat.value.size <= c.byteOffset || seen.chunk == [] then []
        else [ReadChunk(|seen.chunk|, |Take(c.pending, seen.chunk, c.byteOffset).records| > 0)]
  }

  /** What the loop on one connection reads, pass by pass. */
  function LoopReads(connected: Target, db: Db, memory: Memory, left: int, script: seq<Seen>): seq<MemoryEvent>
    decreases |script|
  {
    if left <= 0 || script == [] then []
    else
      var p := IngestPass(connected, db, memory, script[0]);
      var first := PassReads(connected, db, script[0]);
      if p.outcome.Some? then first
      else first + LoopReads(connected, p.db, p.memory, left - p.read, script[1..])
  }

  /** What a tick reads, connection by connection. */
  function TickReads(db: Db, memory: Memory, left: int, sessions: seq<Session>): seq<MemoryEvent>
    decreases |sessions|
  {
    if sessions == [] || !sessions[0].hasKey then []
    else
      var r := ReadLoop(sessions[0].target, db, memory, left, sessions[0].script);
      var first := LoopReads(sessions[0].target, db, memory, left, sessions[0].script);
      if r.outcome != Reconnects then first else first + TickReads(r.db, r.memory, r.left, sessions[1..])
  }

  lemma PassPlays(connected: Target, db: Db, memory: Memory, seen: Seen)
    ensures IngestPass(connected, db, memory, seen).memory == Play(memory, PassReads(connected, db, seen))
  {
    hide Take, CommitDb, ResetDb, TruncateDb;
    var events := PassReads(connected, db, seen);
    assert |events| <= 1;
    assert events != [] ==> events[1..] == [];
  }

  lemma {:induction false} LoopPlays(connected: Target, db: Db, memory: Memory, left: int, script: seq<Seen>)
    ensures ReadLoop(connected, db, memory, left, script).memory == Play(memory, LoopReads(connected, db, memory, left, script))
    decreases |script|
  {
    hide IngestPass, PassReads;
    if left > 0 && script != [] {
      var p := IngestPass(connected, db, memory, script[0]);
      PassPlays(connected, db, memory, script[0]);
      if p.outcome.None? {
        LoopPlays(connected, p.db, p.memory, left - p.read, script[1..]);
        PlayAppend(memory, PassReads(connected, db, script[0]), LoopReads(connected, p.db, p.memory, left - p.read, script[1..]));
      }
    }
  }

  lemma {:induction false} TickPlays(db: Db, memory: Memory, left: int, sessions: seq<Session>)
    ensures TargetLoop(db, memory, left, sessions).memory == Play(memory, TickReads(db, memory, left, sessions))
    decreases |sessions|
  {
    hide ReadLoop, LoopReads;
    if sessions != [] && sessions[0].hasKey {
      var r := ReadLoop(sessions[0].target, db, memory, left, sessions[0].script);
      var first := LoopReads(sessions[0].target, db, memory, left, sessions[0].script);
      LoopPlays(sessions[0].target, db, memory, left, sessions[0].script);
      if r.outcome == Reconnects {
        TickPlays(r.db, r.memory, r.left, sessions[1..]);
        PlayAppend(memory, first, TickReads(r.db, r.memory, r.left, sessions[1..]));
      }
    }
  }

  /** The stamp of a tick says how many bytes its reads took in, whether one held a record, and how it ended. */
  lemma TickStamp(db: Db, left: int, sessions: seq<Session>)
    ensures
      var idle := Memory(0, false, 0, false);
      var r, taken := TargetLoop(db, idle, left, sessions), TickReads(db, idle, left, sessions);
      PlanTickStamp(r.memory, r.outcome == Succeeded)
        == if TotalRead(taken) > 0 then Data(AnyRows(taken), r.outcome == Succeeded)
           else if r.outcome == Succeeded then Idle else NoStamp
  {
    var idle := Memory(0, false, 0, false);
    TickPlays(db, idle, left, sessions);
    PlayTotals(idle, TickReads(db, idle, left, sessions));
    hide TargetLoop, TickReads;
  }

  /** Hence ticks that read as much, found records alike and ended alike have one stamp, wherever their switches fell. */
  lemma StampsAgree(db: Db, left: int, sessions: seq<Session>, otherDb: Db, otherLeft: int, others: seq<Session>)
    requires
      var idle := Memory(0, false, 0, false);
      var a, b := TickReads(db, idle, left, sessions), TickReads(otherDb, idle, otherLeft, others);
      TotalRead(a) == TotalRead(b) && (AnyRows(a) <==> AnyRows(b))
    requires
      var idle := Memory(0, false, 0, false);
      TargetLoop(db, idle, left, sessions).outcome == TargetLoop(otherDb, idle, otherLeft, others).outcome
    ensures
      var idle := Memory(0, false, 0, false);
      var r, q := TargetLoop(db, idle, left, sessions), TargetLoop(otherDb, idle, otherLeft, others);
      PlanTickStamp(r.memory, r.outcome == Succeeded) == PlanTickStamp(q.memory, q.outcome == Succeeded)
  {
    TickStamp(db, left, sessions);
    TickStamp(otherDb, otherLeft, others);
    hide TargetLoop, TickReads, PlanTickStamp;
  }

  // ----- an unchanging file is drained

  /** What `stat` and the bounded `dd` show of a file that nobody touches. */
  function Still(target: Target, inode: Inode, file: Bytes, byteOffset: nat): Seen {
    var from := Min(byteOffset, |file|);
    Seen(target, Some(Stat(|file|, inode)), file[from..Min(from + READ_CHUNK_BYTES, |file|)], true)
  }

  datatype StillRun = StillRun(db: Db, memory: Memory, left: int, adopts: nat, switches: nat, pulls: nat, outcome: Outcome)

  /**
   * The read loop against an unchanging file and target. Its termination measure:
   * first the path, then the file state, then the unread bytes.
   */
  function DrainStill(target: Target, inode: Inode, file: Bytes, db: Db, memory: Memory, left: int): StillRun
    decreases
      if db.cursor.sourcePath != target.logPath then 1 else 0,
      if PlanFileChange(db.cursor, Stat(|file|, inode)).KeepReading? then 0 else 1,
      if db.cursor.byteOffset <= |file| then |file| - db.cursor.byteOffset else 0
  {
    if left <= 0 then StillRun(db, memory, left, 0, 0, 0, Succeeded)
    else
      var seen := Still(target, inode, file, db.cursor.byteOffset);
      var p := IngestPass(target, db, memory, seen);
      if p.outcome.Some? then StillRun(p.db, p.memory, left, 0, 0, 0, p.outcome.value)
      else
        var rest := DrainStill(target, inode, file, p.db, p.memory, left - p.read);
        var switched := p.db.cursor.generation != db.cursor.generation || |p.db.gaps| != |db.gaps|;
        var adopted := db.cursor.sourcePath != target.logPath && !switched;
        rest.(adopts := rest.adopts + (if adopted then 1 else 0),
              switches := rest.switches + (if switched then 1 else 0),
              pulls := rest.pulls + (if p.read > 0 then 1 else 0))
  }

  ghost predicate OnPath(db: Db, target: Target) {
    db.cursor.sourcePath == target.logPath
  }

  ghost predicate Steady(db: Db, file: Bytes, inode: Inode) {
    PlanFileChange(db.cursor, Stat(|file|, inode)).KeepReading?
  }

  /** One pass over a still file: a phase is left for good, or some bytes are read, or the loop is done. */
  lemma StillPass(target: Target, inode: Inode, file: Bytes, db: Db, memory: Memory)
    ensures
      var p := IngestPass(target, db, memory, Still(target, inode, file, db.cursor.byteOffset));
      var switched := p.db.cursor.generation != db.cursor.generation || |p.db.gaps| != |db.gaps|;
      && (p.outcome.None? || p.outcome == Some(Succeeded))
      && OnPath(p.db, target)
      && (p.outcome == Some(Succeeded) ==> p.db.cursor.byteOffset == |file| == p.db.cursor.fileSize)
      && (switched ==> Steady(p.db, file, inode) && !(OnPath(db, target) && Steady(db, file, inode)))
      && (!OnPath(db, target) || !Steady(db, file, inode) ==> p.read == 0 && p.outcome.None?)
      && (OnPath(db, target) && !Steady(db, file, inode) ==> Steady(p.db, file, inode) && switched)
      && (OnPath(db, target) && Steady(db, file, inode) ==>
            && Steady(p.db, file, inode) && db.cursor.byteOffset <= |file|
            && (p.outcome.None? ==> p.read > 0 && p.db.cursor.byteOffset == db.cursor.byteOffset + p.read <= |file|))
  {
  }

  /** The stored content is the part of this file that the cursor has passed. */
  ghost predicate Mirrors(db: Db, file: Bytes) {
    db.cursor.byteOffset <= |file| && Content(db) == file[..db.cursor.byteOffset]
  }

  /**
   * The loop ends well: at most one adoption, at most one reset or truncation, at
   * most one read per byte; it stops at the end of the file or at the budget.
   */
  lemma {:induction false} StillTerminates(target: Target, inode: Inode, file: Bytes, db: Db, memory: Memory, left: int)
    ensures
      var r := DrainStill(target, inode, file, db, memory, left);
      var onPath, steady := OnPath(db, target), Steady(db, file, inode);
      && r.outcome == Succeeded
      && r.adopts <= (if onPath then 0 else 1)
      && r.switches <= (if onPath && steady then 0 else 1)
      && r.pulls <= |file|
      && (onPath && steady ==> r.pulls <= |file| - Min(db.cursor.byteOffset, |file|))
      && (r.left > 0 ==> r.db.cursor.byteOffset == |file| && r.db.cursor.fileSize == |file|)
    decreases
      if db.cursor.sourcePath != target.logPath then 1 else 0,
      if PlanFileChange(db.cursor, Stat(|file|, inode)).KeepReading? then 0 else 1,
      if db.cursor.byteOffset <= |file| then |file| - db.cursor.byteOffset else 0
  {
    hide IngestPass;
    if left > 0 {
      var seen := Still(target, inode, file, db.cursor.byteOffset);
      var p := IngestPass(target, db, memory, seen);
      StillPass(target, inode, file, db, memory);
      if p.outcome.None? {
        StillTerminates(target, inode, file, p.db, p.memory, left - p.read);
      }
    }
  }

  /** A pass that shows the unchanging file as it is from some offset on. */
  ghost predicate ShowsStill(seen: Seen, target: Target, inode: Inode, file: Bytes) {
    exists byteOffset: nat :: seen == Still(target, inode, file, byteOffset)
  }

  ghost predicate AllStill(script: seq<Seen>, target: Target, inode: Inode, file: Bytes) {
    forall i | 0 <= i < |script| :: ShowsStill(script[i], target, inode, file)
  }

  lemma AllStillCons(seen: Seen, rest: seq<Seen>, target: Target, inode: Inode, file: Bytes, byteOffset: nat)
    requires seen == Still(target, inode, file, byteOffset) && AllStill(rest, target, inode, file)
    ensures AllStill([seen] + rest, target, inode, file) && ([seen] + rest)[1..] == rest
  {
    assert ShowsStill(seen, target, inode, file);
    hide ShowsStill, Still;
  }

  /** The still run is what `ReadLoop` does on passes that each show the unchanging file. */
  lemma {:induction false} StillIsReadLoop(target: Target, inode: Inode, file: Bytes, db: Db, memory: Memory, left: int)
    returns (script: seq<Seen>)
    ensures AllStill(script, target, inode, file)
    ensures
      var r := DrainStill(target, inode, file, db, memory, left);
      ReadLoop(target, db, memory, left, script) == Drained(r.db, r.memory, r.left, r.outcome)
    decreases
      if db.cursor.sourcePath != target.logPath then 1 else 0,
      if PlanFileChange(db.cursor, Stat(|file|, inode)).KeepReading? then 0 else 1,
      if db.cursor.byteOffset <= |file| then |file| - db.cursor.byteOffset else 0
  {
    hide IngestPass, Still, PlanFileChange, AllStill;
    script := [];
    AllStillNone(target, inode, file);
    if left > 0 {
      var seen := Still(target, inode, file, db.cursor.byteOffset);
      var p := IngestPass(target, db, memory, seen);
      StillPass(target, inode, file, db, memory);
      var rest: seq<Seen> := [];
      if p.outcome.None? {
        rest := StillIsReadLoop(target, inode, file, p.db, p.memory, left - p.read);
      }
      AllStillCons(seen, rest, target, inode, file, db.cursor.byteOffset);
      script := [seen] + rest;
    }
  }

  lemma AllStillNone(target: Target, inode: Inode, file: Bytes)
    ensures AllStill([], target, inode, file)
  {
  }

  /** The next pass leaves the old content behind in a closed generation. */
  predicate StartsOver(db: Db, target: Target, stat: Stat) {
    if db.cursor.sourcePath != target.logPath then !AdoptsSource(db.cursor, stat)
    else PlanFileChange(db.cursor, stat).Reset?
  }

  lemma StillOffsets(target: Target, inode: Inode, file: Bytes, db: Db, memory: Memory)
    ensures
      var p := IngestPass(target, db, memory, Still(target, inode, file, db.cursor.byteOffset));
      && (StartsOver(db, target, Stat(|file|, inode)) ==> IsReset(db, p.db))
      && (if IsReset(db, p.db) then p.db.cursor.byteOffset == 0
          else p.db.cursor.byteOffset == db.cursor.byteOffset + p.read)
  {
  }

  lemma StillMirrors(target: Target, inode: Inode, file: Bytes, db: Db, memory: Memory)
    requires Inv(db) && (Mirrors(db, file) || StartsOver(db, target, Stat(|file|, inode)))
    ensures
      var p := IngestPass(target, db, memory, Still(target, inode, file, db.cursor.byteOffset));
      Inv(p.db) && Mirrors(p.db, file)
  {
    hide IngestPass, Inv, Content, StartsOver;
    var seen := Still(target, inode, file, db.cursor.byteOffset);
    var p := IngestPass(target, db, memory, seen);
    PassKeeps(target, db, memory, seen);
    StillOffsets(target, inode, file, db, memory);
    if IsReset(db, p.db) {
      assert file[..0] == [];
    } else {
      var at := db.cursor.byteOffset;
      assert seen.chunk[..p.read] == file[at..at + p.read];
      assert file[..at] + file[at..at + p.read] == file[..at + p.read];
    }
  }

  /** What is stored afterwards is the file itself, split into its records. */
  lemma {:induction false} StillDrains(target: Target, inode: Inode, file: Bytes, db: Db, memory: Memory, left: int)
    requires Inv(db)
    requires Mirrors(db, file) || (left > 0 && StartsOver(db, target, Stat(|file|, inode)))
    ensures
      var r := DrainStill(target, inode, file, db, memory, left);
      && Inv(r.db) && Mirrors(r.db, file)
      && (r.left > 0 ==>
            && Rows(r.db.calls, r.db.cursor.generation) == Split(file, 0).0
            && r.db.cursor.pending == Split(file, 0).1)
    decreases
      if db.cursor.sourcePath != target.logPath then 1 else 0,
      if PlanFileChange(db.cursor, Stat(|file|, inode)).KeepReading? then 0 else 1,
      if db.cursor.byteOffset <= |file| then |file| - db.cursor.byteOffset else 0
  {
    hide IngestPass;
    var r := DrainStill(target, inode, file, db, memory, left);
    if left > 0 {
      var p := IngestPass(target, db, memory, Still(target, inode, file, db.cursor.byteOffset));
      StillPass(target, inode, file, db, memory);
      StillMirrors(target, inode, file, db, memory);
      if p.outcome.None? {
        StillDrains(target, inode, file, p.db, p.memory, left - p.read);
      } else {
        MirrorsAll(r.db, file);
      }
    }
  }

  lemma MirrorsAll(db: Db, file: Bytes)
    requires Inv(db) && Mirrors(db, file) && db.cursor.byteOffset == |file|
    ensures Rows(db.calls, db.cursor.generation) == Split(file, 0).0 && db.cursor.pending == Split(file, 0).1
  {
    assert file[..|file|] == file;
    SplitUnique(Rows(db.calls, db.cursor.generation), db.cursor.pending, Split(file, 0).0, Split(file, 0).1, 0, file);
  }
}
