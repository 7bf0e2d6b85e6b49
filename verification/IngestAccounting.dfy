/**
 * Byte accounting: every offset the cursor ever knew of is a stored row, a
 * recorded gap, or still ahead of the cursor.
 */
module IngestAccounting {
  import opened Wrappers
  import opened Splitter
  import opened Ingest

  ghost predicate Covers(row: Slice, x: int) {
    row.fileOffset <= x < row.fileOffset + |row.bytes|
  }

  ghost predicate RowCovers(rows: seq<Slice>, x: int) {
    exists i | 0 <= i < |rows| :: Covers(rows[i], x)
  }

  ghost predicate GapHas(gap: Gap, generation: int, x: int) {
    gap.generation == generation && gap.range.fromOffset <= x < gap.range.toOffset
  }

  ghost predicate GapCovers(gaps: seq<Gap>, generation: int, x: int) {
    exists i | 0 <= i < |gaps| :: GapHas(gaps[i], generation, x)
  }

  /** How many rows and gaps of one generation hold offset `x`. */
  ghost function RowCount(rows: seq<Slice>, x: int): nat {
    if rows == [] then 0 else (if Covers(rows[0], x) then 1 else 0) + RowCount(rows[1..], x)
  }

  ghost function GapCount(gaps: seq<Gap>, generation: int, x: int): nat {
    if gaps == [] then 0
    else (if GapHas(gaps[0], generation, x) then 1 else 0) + GapCount(gaps[1..], generation, x)
  }

  lemma {:induction false} TilesCoverOnce(rows: seq<Slice>, from: int, to: int, x: int)
    requires Tiles(rows, from, to)
    ensures RowCount(rows, x) == if from <= x < to then 1 else 0
    ensures RowCovers(rows, x) <==> from <= x < to
  {
    TilesBounds(rows, from, to);
    if rows != [] {
      var mid := from + |rows[0].bytes|;
      TilesCoverOnce(rows[1..], mid, to, x);
      if from <= x < mid {
        assert Covers(rows[0], x);
      } else if mid <= x < to {
        var i :| 0 <= i < |rows[1..]| && Covers(rows[1..][i], x);
        assert rows[i + 1] == rows[1..][i];
      }
    }
  }

  // ----- one pass

  /**
   * Nothing the cursor knew of is forgotten by this step: each known offset is
   * still ahead in the same generation, or a row, or in a gap the step itself wrote.
   */
  ghost predicate Accounts(db: Db, after: Db) {
    var g := db.cursor.generation;
    && db.gaps <= after.gaps
    && forall x | 0 <= x < Extent(db.cursor) ::
         || (after.cursor.generation == g && x < Extent(after.cursor))
         || RowCovers(Rows(after.calls, g), x)
         || GapCovers(after.gaps[|db.gaps|..], g, x)
  }

  /** The path changed, the inode did not, and the file is shorter than the cursor remembers. */
  predicate AdoptsShorter(connected: Target, db: Db, seen: Seen) {
    && seen.target.host == connected.host && seen.target.username == connected.username
    && seen.stat.Some? && seen.commits
    && db.cursor.sourcePath != seen.target.logPath
    && AdoptsSource(db.cursor, seen.stat.value)
    && Max(db.cursor.byteOffset, seen.stat.value.size) < db.cursor.fileSize
  }

  /** Offsets below the cursor that are not pending are rows. */
  lemma ReadIsStored(db: Db, x: int)
    requires Inv(db)
    ensures RowCovers(Rows(db.calls, db.cursor.generation), x) <==> 0 <= x < db.cursor.byteOffset - |db.cursor.pending|
  {
    TilesCoverOnce(Rows(db.calls, db.cursor.generation), 0, db.cursor.byteOffset - |db.cursor.pending|, x);
  }

  lemma AddedGap(gaps: seq<Gap>, g: int, range: Range, reason: Reason, x: int)
    requires range.fromOffset <= x < range.toOffset
    ensures GapCovers(AddGap(gaps, g, Some(range), reason)[|gaps|..], g, x)
  {
    var added := AddGap(gaps, g, Some(range), reason)[|gaps|..];
    assert added == [Gap(g, range, reason)];
    assert GapHas(added[0], g, x);
  }

  lemma ResetAccounts(db: Db, stat: Stat, reason: Reason, sourcePath: Option<string>)
    requires Inv(db)
    ensures Accounts(db, ResetDb(db, stat, PlanReset(db.cursor, reason), sourcePath))
  {
    var c, g := db.cursor, db.cursor.generation;
    var after := ResetDb(db, stat, PlanReset(c, reason), sourcePath);
    FlushLands(db, reason);
    forall x | 0 <= x < Extent(c)
      ensures RowCovers(Rows(after.calls, g), x) || GapCovers(after.gaps[|db.gaps|..], g, x)
    {
      if x < c.byteOffset {
        TilesCoverOnce(Rows(after.calls, g), 0, c.byteOffset, x);
      } else {
        AddedGap(db.gaps, g, Range(c.byteOffset, c.fileSize), reason, x);
      }
    }
  }

  /** Conservation, and the one branch of `readOnConnection` that breaks it. */
  lemma PassAccounts(connected: Target, db: Db, memory: Memory, seen: Seen)
    requires Inv(db)
    ensures Accounts(db, IngestPass(connected, db, memory, seen).db) <==> !AdoptsShorter(connected, db, seen)
  {
    var c, g, after := db.cursor, db.cursor.generation, IngestPass(connected, db, memory, seen).db;
    PassKeeps(connected, db, memory, seen);
    if AdoptsShorter(connected, db, seen) {
      var x := Max(c.byteOffset, seen.stat.value.size);
      assert after.gaps[|db.gaps|..] == [] && after.calls == db.calls && x == Extent(after.cursor);
      ReadIsStored(db, x);
      assert 0 <= x < Extent(c) && !GapCovers([], g, x);
    } else if after != db {
      var stat := seen.stat.value;
      if c.sourcePath != seen.target.logPath {
        if !AdoptsSource(c, stat) {
          ResetAccounts(db, stat, SourceChanged, Some(seen.target.logPath));
        }
      } else {
        match PlanFileChange(c, stat)
        case KeepReading =>
        case TruncateTail(lost) =>
          forall x | stat.size <= x < c.fileSize ensures GapCovers(after.gaps[|db.gaps|..], g, x) {
            AddedGap(db.gaps, g, lost, FileShrunk, x);
          }
        case Reset(reason, gap, flushed, at) => ResetAccounts(db, stat, reason, None);
      }
    }
  }

  /** At every reset each known offset of the closed generation is in exactly one row or in the reset's own gap. */
  lemma ResetTilesOnce(db: Db, stat: Stat, reason: Reason, sourcePath: Option<string>, x: int)
    requires Inv(db)
    ensures
      var g := db.cursor.generation;
      var after := ResetDb(db, stat, PlanReset(db.cursor, reason), sourcePath);
      && db.gaps <= after.gaps
      && RowCount(Rows(after.calls, g), x) + GapCount(after.gaps[|db.gaps|..], g, x)
         == if 0 <= x < Extent(db.cursor) then 1 else 0
  {
    var c, g := db.cursor, db.cursor.generation;
    var after := ResetDb(db, stat, PlanReset(c, reason), sourcePath);
    FlushLands(db, reason);
    TilesCoverOnce(Rows(after.calls, g), 0, c.byteOffset, x);
    var added := after.gaps[|db.gaps|..];
    if c.fileSize > c.byteOffset {
      assert added == [Gap(g, Range(c.byteOffset, c.fileSize), reason)];
      assert added[1..] == [];
    } else {
      assert added == [];
    }
  }

  /** A truncation gap holds no offset that has been read, and all that was known past the new end. */
  lemma TruncationGapIsUnread(db: Db, stat: Stat, x: int)
    requires Inv(db) && PlanFileChange(db.cursor, stat).TruncateTail?
    ensures
      var lost := PlanFileChange(db.cursor, stat).lost;
      (lost.fromOffset <= x < lost.toOffset) <==> (stat.size <= x < Extent(db.cursor))
    ensures PlanFileChange(db.cursor, stat).lost.fromOffset >= |Content(db)|
  {
  }

  // ----- whole runs

  /** Any number of passes over any number of ticks and connections. */
  const NOTHING_READ := Memory(0, false, 0, false)

  function Life(db: Db, passes: seq<(Target, Seen)>): Db
    decreases |passes|
  {
    if passes == [] then db
    else Life(IngestPass(passes[0].0, db, NOTHING_READ, passes[0].1).db, passes[1..])
  }

  function Fresh(sourcePath: string): Db {
    Db(Cursor(1, "", 0, 0, [], sourcePath), [], [])
  }

  lemma FreshInv(sourcePath: string)
    ensures Inv(Fresh(sourcePath))
  {
    var db := Fresh(sourcePath);
    assert Content(db) == [];
    forall g | g < 1 ensures Closed(db.calls, g) {
      assert Tiles(Rows(db.calls, g), 0, 0);
    }
  }

  /** The chunks the passes read and committed since the last reset, in a row. */
  ghost function BytesRead(db: Db, passes: seq<(Target, Seen)>, before: Bytes): Bytes
    decreases |passes|
  {
    if passes == [] then before
    else
      var p := IngestPass(passes[0].0, db, NOTHING_READ, passes[0].1);
      BytesRead(p.db, passes[1..], if IsReset(db, p.db) then [] else before + passes[0].1.chunk[..Min(p.read, |passes[0].1.chunk|)])
  }

  /** Over a whole life, rows and pending of the current generation are the chunks committed since the last reset. */
  lemma {:induction false} ContentIsBytesRead(db: Db, passes: seq<(Target, Seen)>)
    requires Inv(db)
    ensures Inv(Life(db, passes)) && Content(Life(db, passes)) == BytesRead(db, passes, Content(db))
    decreases |passes|
  {
    if passes != [] {
      PassKeeps(passes[0].0, db, NOTHING_READ, passes[0].1);
      hide IngestPass, Inv, Content, IsReset;
      ContentIsBytesRead(IngestPass(passes[0].0, db, NOTHING_READ, passes[0].1).db, passes[1..]);
    }
  }

  /**
   * In every reachable state the rows of every generation tile a range from 0, the
   * current one up to the pending block, and rows and pending are the split of what
   * was read and committed since the last reset.
   */
  lemma ReachableTiling(sourcePath: string, passes: seq<(Target, Seen)>)
    ensures
      var db := Life(Fresh(sourcePath), passes);
      var c := db.cursor;
      var bytes := BytesRead(Fresh(sourcePath), passes, []);
      && |c.pending| <= c.byteOffset == |bytes|
      && Tiles(Rows(db.calls, c.generation), 0, c.byteOffset - |c.pending|)
      && IsSplit(Rows(db.calls, c.generation), c.pending, 0, bytes)
      && (forall g | g < c.generation :: Closed(db.calls, g))
  {
    FreshInv(sourcePath);
    assert Content(Fresh(sourcePath)) == [];
    ContentIsBytesRead(Fresh(sourcePath), passes);
    var db := Life(Fresh(sourcePath), passes);
    hide Life, BytesRead, Fresh;
    TilesBounds(Rows(db.calls, db.cursor.generation), 0, db.cursor.byteOffset - |db.cursor.pending|);
  }

  /** Offset `x` of generation `g` is a row, in a gap, or still known to be ahead. */
  ghost predicate Accounted(db: Db, g: int, x: int) {
    || RowCovers(Rows(db.calls, g), x)
    || GapCovers(db.gaps, g, x)
    || (g == db.cursor.generation && 0 <= x < Extent(db.cursor))
  }

  /** One pass as it began. */
  datatype Moment = Moment(connected: Target, db: Db, seen: Seen)

  function Moments(db: Db, passes: seq<(Target, Seen)>): seq<Moment>
    decreases |passes|
  {
    if passes == [] then []
    else
      [Moment(passes[0].0, db, passes[0].1)]
        + Moments(IngestPass(passes[0].0, db, NOTHING_READ, passes[0].1).db, passes[1..])
  }

  ghost predicate NeverAdoptsShorter(db: Db, passes: seq<(Target, Seen)>) {
    forall m | m in Moments(db, passes) :: !AdoptsShorter(m.connected, m.db, m.seen)
  }

  lemma RowCoversGrows(calls: seq<Call>, more: seq<Call>, g: int, x: int)
    requires calls <= more && RowCovers(Rows(calls, g), x)
    ensures RowCovers(Rows(more, g), x)
  {
    assert more == calls + more[|calls|..];
    RowsAppend(calls, more[|calls|..], g);
    var i :| 0 <= i < |Rows(calls, g)| && Covers(Rows(calls, g)[i], x);
    assert Covers(Rows(more, g)[i], x);
  }

  lemma GapCoversGrows(gaps: seq<Gap>, after: seq<Gap>, g: int, x: int)
    requires gaps <= after && (GapCovers(gaps, g, x) || GapCovers(after[|gaps|..], g, x))
    ensures GapCovers(after, g, x)
  {
    if GapCovers(gaps, g, x) {
      var i :| 0 <= i < |gaps| && GapHas(gaps[i], g, x);
      assert after[i] == gaps[i];
    } else {
      var i :| 0 <= i < |after[|gaps|..]| && GapHas(after[|gaps|..][i], g, x);
      assert after[|gaps| + i] == after[|gaps|..][i];
    }
  }

  /** A step that accounts for what it leaves behind keeps every offset accounted for. */
  lemma AccountedStep(db: Db, after: Db, g: int, x: int)
    requires db.calls <= after.calls && Accounts(db, after) && Accounted(db, g, x)
    ensures Accounted(after, g, x)
  {
    hide RowCovers, GapCovers;
    if RowCovers(Rows(db.calls, g), x) {
      RowCoversGrows(db.calls, after.calls, g, x);
    } else if GapCovers(db.gaps, g, x) || GapCovers(after.gaps[|db.gaps|..], g, x) {
      GapCoversGrows(db.gaps, after.gaps, g, x);
    }
  }

  /** Over a whole life without a shortening adoption no offset is ever forgotten. */
  lemma {:induction false} LifeForgetsNothing(db: Db, passes: seq<(Target, Seen)>, g: int, x: int)
    requires Inv(db) && NeverAdoptsShorter(db, passes) && Accounted(db, g, x)
    ensures Accounted(Life(db, passes), g, x)
    decreases |passes|
  {
    if passes != [] {
      hide IngestPass, Inv, AdoptsShorter, Accounts, Accounted;
      var after := IngestPass(passes[0].0, db, NOTHING_READ, passes[0].1).db;
      assert Moments(db, passes)[0] == Moment(passes[0].0, db, passes[0].1);
      assert Moments(db, passes)[1..] == Moments(after, passes[1..]);
      PassKeeps(passes[0].0, db, NOTHING_READ, passes[0].1);
      PassAccounts(passes[0].0, db, NOTHING_READ, passes[0].1);
      AccountedStep(db, after, g, x);
      LifeForgetsNothing(after, passes[1..], g, x);
    }
  }

  /** Two passes after which known bytes are gone: the path is edited while the same inode is being truncated. */
  lemma ShorterAdoptionForgets()
    ensures
      var first := Seen(Target("h", "u", "/a"), Some(Stat(500, "9")), [65], true);
      var second := Seen(Target("h", "u", "/b"), Some(Stat(200, "9")), [], true);
      var before := Life(Fresh("/a"), [(first.target, first)]);
      var after := Life(Fresh("/a"), [(first.target, first), (second.target, second)]);
      Accounted(before, 1, 300) && !Accounted(after, 1, 300)
  {
    var first := Seen(Target("h", "u", "/a"), Some(Stat(500, "9")), [65], true);
    var second := Seen(Target("h", "u", "/b"), Some(Stat(200, "9")), [], true);
    FreshInv("/a");
    var before := IngestPass(first.target, Fresh("/a"), NOTHING_READ, first).db;
    PassKeeps(first.target, Fresh("/a"), NOTHING_READ, first);
    var after := IngestPass(second.target, before, NOTHING_READ, second).db;
    var last := [(second.target, second)];
    assert Life(Fresh("/a"), [(first.target, first)]) == Life(before, []) == before;
    assert last[1..] == [] && Life(before, last) == Life(after, []) == after;
    assert [(first.target, first), (second.target, second)][1..] == last;
    PassKeeps(second.target, before, NOTHING_READ, second);
    assert "/a"[1] != "/b"[1];
    assert before.cursor == Cursor(1, "9", 1, 500, before.cursor.pending, "/a") && before.gaps == [];
    assert after.cursor == Cursor(1, "9", 1, 200, before.cursor.pending, "/b") && after.gaps == [];
    ReadIsStored(after, 300);
  }

  /** What a closed generation holds is never written again. */
  lemma ClosedIsFrozen(connected: Target, db: Db, memory: Memory, seen: Seen, g: int)
    requires Inv(db) && g < db.cursor.generation
    ensures Rows(IngestPass(connected, db, memory, seen).db.calls, g) == Rows(db.calls, g)
    ensures forall x :: GapCovers(IngestPass(connected, db, memory, seen).db.gaps, g, x) <==> GapCovers(db.gaps, g, x)
  {
    var after := IngestPass(connected, db, memory, seen).db;
    forall x ensures GapCovers(after.gaps, g, x) <==> GapCovers(db.gaps, g, x) {
      if GapCovers(db.gaps, g, x) {
        var i :| 0 <= i < |db.gaps| && GapHas(db.gaps[i], g, x);
        assert GapHas(after.gaps[i], g, x);
      }
    }
    if after.calls != db.calls {
      var stat := seen.stat.value;
      if db.cursor.sourcePath != seen.target.logPath {
        FlushLands(db, SourceChanged);
      } else if PlanFileChange(db.cursor, stat).Reset? {
        FlushLands(db, PlanFileChange(db.cursor, stat).reason);
      } else {
        var taken := Take(db.cursor.pending, seen.chunk, db.cursor.byteOffset);
        InsertedRows(db, taken.records, taken.nextOffset - |taken.pending|);
      }
    }
  }
}
