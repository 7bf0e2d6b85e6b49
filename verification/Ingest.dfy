/**
 * The byte cursor that tails the parking call log.
 *
 * One database row holds the cursor, one table the stored blocks, one table the
 * gaps. Every write below is one transaction. The remote file may grow, shrink,
 * be replaced, or be reconfigured to another path between any two steps.
 */
module Ingest {
  import opened Wrappers
  import opened Splitter

  /** Digits of `stat -c %i`; anything else is refused before it gets here. */
  type Inode = s: string | s != "" witness "0"

  datatype Stat = Stat(size: nat, inode: Inode)

  datatype Target = Target(host: string, username: string, logPath: string)

  datatype Cursor = Cursor(
    generation: int, inode: string, byteOffset: nat, fileSize: nat, pending: Bytes, sourcePath: string)

  datatype Call = Call(generation: int, byteOffset: int, raw: Bytes)

  datatype Reason = InodeChanged | FileShrunk | SourceChanged

  datatype Range = Range(fromOffset: int, toOffset: int)

  datatype Gap = Gap(generation: int, range: Range, reason: Reason)

  datatype Db = Db(cursor: Cursor, calls: seq<Call>, gaps: seq<Gap>)

  datatype FileChange =
    | KeepReading
    | TruncateTail(lost: Range)
    | Reset(reason: Reason, gap: Option<Range>, flushPending: Bytes, flushOffset: Option<int>)

  // ----- planning, pure in the source

  function UnreadRange(c: Cursor): Option<Range> {
    if c.fileSize > c.byteOffset then Some(Range(c.byteOffset, c.fileSize)) else None
  }

  function PlanReset(c: Cursor, reason: Reason): FileChange {
    Reset(reason, UnreadRange(c), c.pending,
          if |c.pending| > 0 then Some(c.byteOffset - |c.pending|) else None)
  }

  function PlanFileChange(c: Cursor, stat: Stat): FileChange {
    var known := c.inode != "";
    var inodeChanged := known && c.inode != stat.inode;
    if inodeChanged || stat.size < c.byteOffset then
      PlanReset(c, if inodeChanged then InodeChanged else FileShrunk)
    else if known && c.fileSize > stat.size && stat.size >= c.byteOffset then
      TruncateTail(Range(stat.size, c.fileSize))
    else KeepReading
  }

  predicate CursorIsEmpty(c: Cursor) {
    c.inode == "" && c.byteOffset == 0 && c.pending == []
  }

  predicate AdoptsSource(c: Cursor, stat: Stat) {
    CursorIsEmpty(c) || (c.inode != "" && c.inode == stat.inode)
  }

  // ----- what each transaction leaves in the database

  predicate HasKey(calls: seq<Call>, generation: int, byteOffset: int) {
    exists i | 0 <= i < |calls| :: calls[i].generation == generation && calls[i].byteOffset == byteOffset
  }

  /** `createMany` with `skipDuplicates` under the unique key `(generation, byteOffset)`. */
  function InsertSkipping(calls: seq<Call>, rows: seq<Slice>, generation: int): seq<Call>
    decreases |rows|
  {
    if rows == [] then calls
    else
      var row := rows[0];
      var next := if HasKey(calls, generation, row.fileOffset) then calls
                  else calls + [Call(generation, row.fileOffset, row.bytes)];
      InsertSkipping(next, rows[1..], generation)
  }

  function FlushedCalls(db: Db, change: FileChange): seq<Call>
    requires change.Reset?
  {
    if |change.flushPending| > 0 && change.flushOffset.Some? && change.flushOffset.value >= 0 then
      InsertSkipping(db.calls, [Slice(change.flushOffset.value, change.flushPending)], db.cursor.generation)
    else db.calls
  }

  function AddGap(gaps: seq<Gap>, generation: int, range: Option<Range>, reason: Reason): seq<Gap> {
    if range.Some? && range.value.toOffset > range.value.fromOffset
    then gaps + [Gap(generation, range.value, reason)] else gaps
  }

  function ResetDb(db: Db, stat: Stat, change: FileChange, sourcePath: Option<string>): Db
    requires change.Reset?
  {
    var c := db.cursor;
    var path := if sourcePath.Some? then sourcePath.value else c.sourcePath;
    Db(Cursor(c.generation + 1, stat.inode, 0, stat.size, [], path),
       FlushedCalls(db, change),
       AddGap(db.gaps, c.generation, change.gap, change.reason))
  }

  function TruncateDb(db: Db, stat: Stat, lost: Range): Db {
    Db(db.cursor.(fileSize := stat.size, inode := stat.inode), db.calls,
       AddGap(db.gaps, db.cursor.generation, Some(lost), FileShrunk))
  }

  function CommitDb(db: Db, stat: Stat, taken: Taken): Db
    requires taken.nextOffset >= 0
  {
    Db(db.cursor.(inode := stat.inode, byteOffset := taken.nextOffset, fileSize := stat.size, pending := taken.pending),
       InsertSkipping(db.calls, taken.records, db.cursor.generation), db.gaps)
  }

  function CaughtUpDb(db: Db, stat: Stat): Db {
    db.(cursor := db.cursor.(inode := stat.inode, fileSize := stat.size))
  }

  function AdoptDb(db: Db, logPath: string, stat: Stat): Db {
    db.(cursor := db.cursor.(sourcePath := logPath, inode := stat.inode, fileSize := stat.size))
  }

  // ----- one pass of the read loop

  datatype Memory = Memory(priorBytes: nat, priorRows: bool, bytes: nat, rows: bool)

  function Folded(m: Memory): Memory {
    Memory(m.priorBytes + m.bytes, m.priorRows || m.rows, 0, false)
  }

  /** What one pass sees of the outside, and whether its transaction commits. */
  datatype Seen = Seen(target: Target, stat: Option<Stat>, chunk: Bytes, commits: bool)

  datatype Outcome = Succeeded | Broke | Reconnects | Threw

  datatype Pass = Pass(db: Db, memory: Memory, read: nat, outcome: Option<Outcome>)

  function Settle(before: Db, after: Db, memory: Memory, read: nat, seen: Seen): Pass {
    if seen.commits then Pass(after, memory, read, None) else Pass(before, memory, 0, Some(Threw))
  }

  function SwitchPass(db: Db, memory: Memory, seen: Seen, stat: Stat): Pass {
    var c, path := db.cursor, seen.target.logPath;
    if AdoptsSource(c, stat) then Settle(db, AdoptDb(db, path, stat), memory, 0, seen)
    else Settle(db, ResetDb(db, stat, PlanReset(c, SourceChanged), Some(path)), Folded(memory), 0, seen)
  }

  function ReadPass(db: Db, memory: Memory, seen: Seen, stat: Stat): Pass {
    var c := db.cursor;
    if stat.size <= c.byteOffset then
      (if seen.commits then Pass(CaughtUpDb(db, stat), memory, 0, Some(Succeeded)) else Pass(db, memory, 0, Some(Threw)))
    else if seen.chunk == [] then Pass(db, memory, 0, Some(Broke))
    else
      var taken := Take(c.pending, seen.chunk, c.byteOffset);
      var counted := memory.(bytes := memory.bytes + |seen.chunk|, rows := memory.rows || |taken.records| > 0);
      Settle(db, CommitDb(db, stat, taken), counted, |seen.chunk|, seen)
  }

  function IngestPass(connected: Target, db: Db, memory: Memory, seen: Seen): Pass {
    var c := db.cursor;
    if seen.target.host != connected.host || seen.target.username != connected.username then
      Pass(db, memory, 0, Some(Reconnects))
    else if seen.stat.None? then Pass(db, memory, 0, Some(Broke))
    else
      var stat := seen.stat.value;
      if c.sourcePath != seen.target.logPath then SwitchPass(db, memory, seen, stat)
      else
        match PlanFileChange(c, stat)
        case KeepReading => ReadPass(db, memory, seen, stat)
        case TruncateTail(lost) => Settle(db, TruncateDb(db, stat, lost), memory, 0, seen)
        case Reset(reason, gap, flushed, at) =>
          Settle(db, ResetDb(db, stat, Reset(reason, gap, flushed, at), None), Folded(memory), 0, seen)
  }

  // ----- the rows of one generation

  function Rows(calls: seq<Call>, generation: int): seq<Slice> {
    if calls == [] then []
    else if calls[0].generation == generation then
      [Slice(calls[0].byteOffset, calls[0].raw)] + Rows(calls[1..], generation)
    else Rows(calls[1..], generation)
  }

  function Stamped(rows: seq<Slice>, generation: int): (calls: seq<Call>) {
    if rows == [] then []
    else [Call(generation, rows[0].fileOffset, rows[0].bytes)] + Stamped(rows[1..], generation)
  }

  /** Every byte of the current generation that was read and committed, in file order. */
  function Content(db: Db): Bytes {
    Concat(Rows(db.calls, db.cursor.generation)) + db.cursor.pending
  }

  /** Bytes the cursor knows the file to have. */
  function Extent(c: Cursor): nat {
    Max(c.byteOffset, c.fileSize)
  }

  ghost predicate NoLaterRows(db: Db) {
    && (forall i | 0 <= i < |db.calls| :: db.calls[i].generation <= db.cursor.generation)
    && (forall i | 0 <= i < |db.gaps| :: db.gaps[i].generation <= db.cursor.generation)
  }

  ghost predicate Closed(calls: seq<Call>, generation: int) {
    exists end :: Tiles(Rows(calls, generation), 0, end)
  }

  /** What holds in every reachable state. */
  ghost predicate Inv(db: Db) {
    var c := db.cursor;
    && NoLaterRows(db)
    && (c.inode == "" ==> c.byteOffset == 0 && c.fileSize == 0 && c.pending == [])
    && |Content(db)| == c.byteOffset
    && IsSplit(Rows(db.calls, c.generation), c.pending, 0, Content(db))
    && forall g | g < c.generation :: Closed(db.calls, g)
  }

  lemma {:induction false} RowsAppend(a: seq<Call>, b: seq<Call>, g: int)
    ensures Rows(a + b, g) == Rows(a, g) + Rows(b, g)
  {
    if a == [] {
      assert a + b == b;
    } else {
      assert (a + b)[1..] == a[1..] + b;
      RowsAppend(a[1..], b, g);
    }
  }

  lemma {:induction false} RowsStamped(rows: seq<Slice>, generation: int, g: int)
    ensures Rows(Stamped(rows, generation), g) == if g == generation then rows else []
  {
    if rows != [] {
      RowsStamped(rows[1..], generation, g);
      assert Stamped(rows, generation)[1..] == Stamped(rows[1..], generation);
    }
  }

  lemma {:induction false} RowsMember(calls: seq<Call>, i: nat)
    requires i < |calls|
    ensures Slice(calls[i].byteOffset, calls[i].raw) in Rows(calls, calls[i].generation)
  {
    if i > 0 {
      RowsMember(calls[1..], i - 1);
    }
  }

  lemma {:induction false} RowsAbsent(calls: seq<Call>, g: int)
    requires forall i | 0 <= i < |calls| :: calls[i].generation != g
    ensures Rows(calls, g) == []
  {
    if calls != [] {
      RowsAbsent(calls[1..], g);
    }
  }

  lemma {:induction false} TilesBounds(rows: seq<Slice>, from: int, to: int)
    requires Tiles(rows, from, to)
    ensures from <= to
    ensures forall r | r in rows :: from <= r.fileOffset < r.fileOffset + |r.bytes| <= to
  {
    if rows != [] {
      TilesBounds(rows[1..], from + |rows[0].bytes|, to);
    }
  }

  ghost predicate AllBelow(calls: seq<Call>, g: int, from: int) {
    forall i | 0 <= i < |calls| && calls[i].generation == g :: calls[i].byteOffset < from
  }

  lemma InsertOne(calls: seq<Call>, row: Slice, g: int)
    requires AllBelow(calls, g, row.fileOffset) && row.bytes != []
    ensures !HasKey(calls, g, row.fileOffset)
    ensures AllBelow(calls + [Call(g, row.fileOffset, row.bytes)], g, row.fileOffset + |row.bytes|)
  {
  }

  lemma StampedCons(calls: seq<Call>, rows: seq<Slice>, g: int)
    requires rows != []
    ensures calls + Stamped(rows, g)
         == (calls + [Call(g, rows[0].fileOffset, rows[0].bytes)]) + Stamped(rows[1..], g)
  {
  }

  /** New rows that tile the space after every stored row are all inserted: `skipDuplicates` drops none. */
  lemma {:induction false} NothingSkipped(calls: seq<Call>, rows: seq<Slice>, g: int, from: int, to: int)
    requires Tiles(rows, from, to) && AllBelow(calls, g, from)
    ensures InsertSkipping(calls, rows, g) == calls + Stamped(rows, g)
    decreases |rows|
  {
    assert rows == [] ==> calls + Stamped(rows, g) == calls;
    hide AllBelow, HasKey, Stamped;
    if rows != [] {
      InsertOne(calls, rows[0], g);
      var next := calls + [Call(g, rows[0].fileOffset, rows[0].bytes)];
      NothingSkipped(next, rows[1..], g, from + |rows[0].bytes|, to);
      StampedCons(calls, rows, g);
    }
  }

  /** Appending tiled rows to the current generation leaves every other one as it was. */
  lemma InsertedRows(db: Db, rows: seq<Slice>, to: int)
    requires Inv(db) && Tiles(rows, db.cursor.byteOffset - |db.cursor.pending|, to)
    ensures
      var g := db.cursor.generation;
      var calls := InsertSkipping(db.calls, rows, g);
      && calls == db.calls + Stamped(rows, g)
      && Rows(calls, g) == Rows(db.calls, g) + rows
      && (forall h | h != g :: Rows(calls, h) == Rows(db.calls, h))
      && (forall i | 0 <= i < |calls| :: calls[i].generation <= g)
  {
    var g, from := db.cursor.generation, db.cursor.byteOffset - |db.cursor.pending|;
    forall i | 0 <= i < |db.calls| && db.calls[i].generation == g
      ensures db.calls[i].byteOffset < from
    {
      RowsMember(db.calls, i);
      TilesBounds(Rows(db.calls, g), 0, from);
    }
    NothingSkipped(db.calls, rows, g, from, to);
    forall h ensures Rows(db.calls + Stamped(rows, g), h) == Rows(db.calls, h) + if h == g then rows else [] {
      RowsAppend(db.calls, Stamped(rows, g), h);
      RowsStamped(rows, g, h);
    }
    StampedGeneration(rows, g);
  }

  lemma {:induction false} StampedGeneration(rows: seq<Slice>, g: int)
    ensures forall i | 0 <= i < |Stamped(rows, g)| :: Stamped(rows, g)[i].generation == g
  {
    if rows != [] {
      StampedGeneration(rows[1..], g);
    }
  }

  // ----- every transaction keeps the invariant

  /** A committed read appends exactly the bytes it read. */
  lemma CommitKeeps(db: Db, stat: Stat, chunk: Bytes)
    requires Inv(db)
    ensures
      var after := CommitDb(db, stat, Take(db.cursor.pending, chunk, db.cursor.byteOffset));
      Inv(after) && Content(after) == Content(db) + chunk && db.calls <= after.calls
  {
    var c := db.cursor;
    var taken := Take(c.pending, chunk, c.byteOffset);
    var rows := Rows(db.calls, c.generation);
    var after := CommitDb(db, stat, taken);
    InsertedRows(db, taken.records, taken.nextOffset - |taken.pending|);
    SplitAppend(rows, c.pending, taken.records, taken.pending, 0, Content(db), chunk);
    forall g | g < c.generation ensures Closed(after.calls, g) {
      assert Closed(db.calls, g) && Rows(after.calls, g) == Rows(db.calls, g);
    }
  }

  /** The flushed pending block always lands: its offset is never negative and never taken. */
  lemma FlushLands(db: Db, reason: Reason)
    requires Inv(db)
    ensures
      var c := db.cursor;
      var calls := FlushedCalls(db, PlanReset(c, reason));
      var flushed := if c.pending == [] then [] else [Slice(c.byteOffset - |c.pending|, c.pending)];
      && calls == db.calls + Stamped(flushed, c.generation)
      && Rows(calls, c.generation) == Rows(db.calls, c.generation) + flushed
      && Tiles(Rows(calls, c.generation), 0, c.byteOffset)
      && (forall h | h != c.generation :: Rows(calls, h) == Rows(db.calls, h))
      && (forall i | 0 <= i < |calls| :: calls[i].generation <= c.generation)
  {
    var c := db.cursor;
    var flushed := if c.pending == [] then [] else [Slice(c.byteOffset - |c.pending|, c.pending)];
    var at := c.byteOffset - |c.pending|;
    assert Content(db) == Concat(Rows(db.calls, c.generation)) + c.pending;
    if c.pending != [] {
      assert flushed[1..] == [];
    }
    assert Tiles(flushed, at, c.byteOffset);
    InsertedRows(db, flushed, c.byteOffset);
    TilesAppend(Rows(db.calls, c.generation), flushed, 0, at, c.byteOffset);
    if c.pending == [] {
      assert db.calls + Stamped(flushed, c.generation) == db.calls;
    }
  }

  lemma ResetKeeps(db: Db, stat: Stat, reason: Reason, sourcePath: Option<string>)
    requires Inv(db)
    ensures
      var after := ResetDb(db, stat, PlanReset(db.cursor, reason), sourcePath);
      Inv(after) && Content(after) == [] && db.calls <= after.calls
  {
    var c := db.cursor;
    var after := ResetDb(db, stat, PlanReset(c, reason), sourcePath);
    FlushLands(db, reason);
    RowsAbsent(after.calls, c.generation + 1);
    assert Concat([]) + [] == [];
    forall g | g < c.generation + 1 ensures Closed(after.calls, g) {
      if g < c.generation {
        assert Closed(db.calls, g) && Rows(after.calls, g) == Rows(db.calls, g);
      }
    }
  }

  /** The four cursor-only writes change neither rows nor content. */
  lemma CursorWriteKeeps(db: Db, after: Db)
    requires Inv(db)
    requires after.calls == db.calls && after.cursor.inode != ""
    requires after.cursor.generation == db.cursor.generation
    requires after.cursor.byteOffset == db.cursor.byteOffset && after.cursor.pending == db.cursor.pending
    requires forall i | 0 <= i < |after.gaps| :: after.gaps[i].generation <= db.cursor.generation
    ensures Inv(after) && Content(after) == Content(db)
  {
    assert forall g | g < after.cursor.generation :: Closed(db.calls, g);
  }

  ghost predicate IsReset(db: Db, after: Db) {
    after.cursor.generation == db.cursor.generation + 1
  }

  /**
   * One pass, whatever the file, the settings and the database do: the invariant
   * holds, and the content grows by the bytes read or starts a new generation empty.
   */
  lemma PassKeeps(connected: Target, db: Db, memory: Memory, seen: Seen)
    requires Inv(db)
    ensures
      var p := IngestPass(connected, db, memory, seen);
      && Inv(p.db)
      && db.calls <= p.db.calls
      && (if IsReset(db, p.db) then Content(p.db) == [] && p.read == 0
          else p.db.cursor.generation == db.cursor.generation
               && Content(p.db) == Content(db) + seen.chunk[..p.read])
      && (p.read == 0 || p.read == |seen.chunk|)
  {
    var p := IngestPass(connected, db, memory, seen);
    assert Content(db) + seen.chunk[..0] == Content(db);
    assert seen.chunk[..|seen.chunk|] == seen.chunk;
    if p.db != db {
      var stat := seen.stat.value;
      if db.cursor.sourcePath != seen.target.logPath {
        if AdoptsSource(db.cursor, stat) {
          CursorWriteKeeps(db, p.db);
        } else {
          ResetKeeps(db, stat, SourceChanged, Some(seen.target.logPath));
        }
      } else {
        match PlanFileChange(db.cursor, stat)
        case KeepReading =>
          if stat.size <= db.cursor.byteOffset {
            CursorWriteKeeps(db, p.db);
          } else {
            CommitKeeps(db, stat, seen.chunk);
          }
        case TruncateTail(lost) => CursorWriteKeeps(db, p.db);
        case Reset(reason, gap, flushed, at) => ResetKeeps(db, stat, reason, None);
      }
    }
  }
}
