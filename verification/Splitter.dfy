/**
 * Splitting the parking call log into detail records.
 *
 * A record ends with the first blank line after its start. What follows the
 * last complete record is kept as `pending` and prepended to the next read.
 */
module Splitter {

  newtype byte = x: int | 0 <= x < 256

  type Bytes = seq<byte>

  const NEWLINE: byte := 10

  /** A stored block: where it starts in the file, and its exact bytes. */
  datatype Slice = Slice(fileOffset: int, bytes: Bytes)

  datatype Taken = Taken(records: seq<Slice>, pending: Bytes, nextOffset: int)

  // ----- what a correct split is

  /** The two-byte separator starts at position `i`. */
  predicate SepAt(s: Bytes, i: int) {
    0 <= i <= |s| - 2 && s[i] == NEWLINE && s[i + 1] == NEWLINE
  }

  ghost predicate NoSeparator(s: Bytes) {
    forall i :: !SepAt(s, i)
  }

  /** The separator closes the record and starts nowhere else in it. */
  ghost predicate IsRecord(s: Bytes) {
    |s| >= 2 && forall i :: SepAt(s, i) <==> i == |s| - 2
  }

  function Concat(rows: seq<Slice>): Bytes {
    if rows == [] then [] else rows[0].bytes + Concat(rows[1..])
  }

  /** The rows cover `[from, to)` in file order, without a hole or an overlap. */
  ghost predicate Tiles(rows: seq<Slice>, from: int, to: int) {
    if rows == [] then from == to
    else
      && rows[0].fileOffset == from
      && rows[0].bytes != []
      && Tiles(rows[1..], from + |rows[0].bytes|, to)
  }

  ghost predicate AllRecords(rows: seq<Slice>) {
    forall i | 0 <= i < |rows| :: IsRecord(rows[i].bytes)
  }

  /** `rows` and `tail` are a greedy split of the stream `s` that starts at file position `base`. */
  ghost predicate IsSplit(rows: seq<Slice>, tail: Bytes, base: int, s: Bytes) {
    && Concat(rows) + tail == s
    && Tiles(rows, base, base + |s| - |tail|)
    && AllRecords(rows)
    && NoSeparator(tail)
  }

  lemma {:induction false} ConcatAppend(a: seq<Slice>, b: seq<Slice>)
    ensures Concat(a + b) == Concat(a) + Concat(b)
  {
    if a == [] {
      assert a + b == b;
    } else {
      assert (a + b)[1..] == a[1..] + b;
      ConcatAppend(a[1..], b);
    }
  }

  lemma {:induction false} TilesAppend(a: seq<Slice>, b: seq<Slice>, from: int, mid: int, to: int)
    requires Tiles(a, from, mid) && Tiles(b, mid, to)
    ensures Tiles(a + b, from, to)
  {
    if a == [] {
      assert a + b == b;
    } else {
      assert (a + b)[1..] == a[1..] + b;
      TilesAppend(a[1..], b, from + |a[0].bytes|, mid, to);
    }
  }

  /** Two neighbouring splits make one split of the joined stream. */
  lemma SplitAppend(a: seq<Slice>, mid: Bytes, b: seq<Slice>, tail: Bytes, base: int, s: Bytes, more: Bytes)
    requires IsSplit(a, mid, base, s)
    requires IsSplit(b, tail, base + |s| - |mid|, mid + more)
    ensures IsSplit(a + b, tail, base, s + more)
  {
    ConcatAppend(a, b);
    assert Concat(a + b) + tail == Concat(a) + (Concat(b) + tail);
    TilesAppend(a, b, base, base + |s| - |mid|, base + |s + more| - |tail|);
  }

  /** The form of SplitAppend a left-to-right scan of one stream needs. */
  lemma JoinSplits(a: seq<Slice>, b: seq<Slice>, tail: Bytes, base: int, s: Bytes, start: nat, end: nat)
    requires start <= end <= |s|
    requires IsSplit(a, [], base, s[..start])
    requires IsSplit(b, tail, base + start, s[start..end])
    ensures IsSplit(a + b, tail, base, s[..end])
  {
    assert [] + s[start..end] == s[start..end];
    assert s[..start] + s[start..end] == s[..end];
    SplitAppend(a, [], b, tail, base, s[..start], s[start..end]);
  }

  /** The first record ends at the first separator of the stream. */
  lemma FirstRecordEnd(a: seq<Slice>, tail: Bytes, s: Bytes)
    requires a != [] && IsRecord(a[0].bytes) && Concat(a) + tail == s
    ensures a[0].bytes <= s && SepAt(s, |a[0].bytes| - 2)
    ensures forall i :: SepAt(s, i) ==> i >= |a[0].bytes| - 2
    ensures s[|a[0].bytes|..] == Concat(a[1..]) + tail
  {
    var head, more := a[0].bytes, Concat(a[1..]) + tail;
    assert s == head + more;
    hide Concat;
    assert s[|head|..] == more;
    assert forall i | i <= |head| - 2 :: SepAt(s, i) <==> SepAt(head, i);
  }

  /** A first separator closes a record that the rest of the stream does not affect. */
  lemma HeadSplit(s: Bytes, i: nat, base: int)
    requires SepAt(s, i) && forall k :: 0 <= k < i ==> !SepAt(s, k)
    ensures IsSplit([Slice(base, s[..i + 2])], [], base, s[..i + 2])
  {
    var head := s[..i + 2];
    assert forall k :: k < i + 1 ==> SepAt(head, k) == SepAt(s, k);
    var row := Slice(base, head);
    assert Concat([row]) == head;
    assert Tiles([row][1..], base + |head|, base + |head|);
  }

  /** A stream has only one split: greedy records leave no choice of boundary. */
  lemma {:induction false} SplitUnique(a: seq<Slice>, ta: Bytes, b: seq<Slice>, tb: Bytes, base: int, s: Bytes)
    requires IsSplit(a, ta, base, s) && IsSplit(b, tb, base, s)
    ensures a == b && ta == tb
  {
    if a == [] {
      assert ta == s;
    } else {
      FirstRecordEnd(a, ta, s);
    }
    if b == [] {
      assert tb == s;
    } else {
      FirstRecordEnd(b, tb, s);
    }
    if a != [] && b != [] {
      var n := |a[0].bytes|;
      assert n == |b[0].bytes| && a[0].bytes == s[..n] == b[0].bytes;
      SplitUnique(a[1..], ta, b[1..], tb, base + n, s[n..]);
      assert a == [a[0]] + a[1..] && b == [b[0]] + b[1..];
    }
  }

  // ----- the split as a function

  /** Position of the first separator, or -1. */
  function IndexOfSeparator(s: Bytes): (i: int)
    ensures -1 <= i <= |s| - 2 || i == -1
    ensures i >= 0 ==> SepAt(s, i)
    ensures forall k :: (0 <= k < i || i < 0) ==> !SepAt(s, k)
  {
    if |s| < 2 then -1
    else if SepAt(s, 0) then 0
    else
      var rest := IndexOfSeparator(s[1..]);
      assert forall k :: k > 0 ==> SepAt(s, k) == SepAt(s[1..], k - 1);
      if rest < 0 then -1 else rest + 1
  }

  function Split(s: Bytes, base: int): (r: (seq<Slice>, Bytes))
    ensures IsSplit(r.0, r.1, base, s)
    decreases |s|
  {
    var i := IndexOfSeparator(s);
    if i < 0 then ([], s)
    else
      var head, more := s[..i + 2], s[i + 2..];
      var rest := Split(more, base + i + 2);
      HeadSplit(s, i, base);
      SplitAppend([Slice(base, head)], [], rest.0, rest.1, base, head, [] + more);
      assert [] + more == more && head + more == s;
      ([Slice(base, head)] + rest.0, rest.1)
  }

  function Take(pending: Bytes, incoming: Bytes, fileOffset: int): Taken {
    var r := Split(pending + incoming, fileOffset - |pending|);
    Taken(r.0, r.1, fileOffset + |incoming|)
  }

  /** A record found by the scan extends the split of what has been scanned. */
  lemma ScanStep(records: seq<Slice>, s: Bytes, base: int, start: nat, rel: nat)
    requires start <= |s| && IsSplit(records, [], base, s[..start])
    requires SepAt(s[start..], rel) && forall k :: 0 <= k < rel ==> !SepAt(s[start..], k)
    ensures IsSplit(records + [Slice(base + start, s[start..start + rel + 2])], [], base, s[..start + rel + 2])
  {
    var rest, end := s[start..], start + rel + 2;
    HeadSplit(rest, rel, base + start);
    assert rest[..rel + 2] == s[start..end];
    hide IsSplit;
    JoinSplits(records, [Slice(base + start, s[start..end])], [], base, s, start, end);
  }

  /** What follows the last separator is the pending block. */
  lemma ScanEnd(records: seq<Slice>, s: Bytes, base: int, start: nat)
    requires start <= |s| && IsSplit(records, [], base, s[..start]) && NoSeparator(s[start..])
    ensures IsSplit(records, s[start..], base, s)
  {
    var rest := s[start..|s|];
    assert rest == s[start..] && Concat([]) + rest == rest && s[..|s|] == s;
    assert IsSplit([], rest, base + start, rest);
    hide IsSplit;
    JoinSplits(records, [], rest, base, s, start, |s|);
    assert records + [] == records;
  }

  method TakeCompleteRecords(pending: Bytes, incoming: Bytes, fileOffset: int) returns (taken: Taken)
    ensures taken == Take(pending, incoming, fileOffset)
    ensures IsSplit(taken.records, taken.pending, fileOffset - |pending|, pending + incoming)
    ensures taken.nextOffset == fileOffset + |incoming|
  {
    var combined := pending + incoming;
    var base := fileOffset - |pending|;
    var records: seq<Slice> := [];
    var start := 0;
    assert combined[..0] == [] && IsSplit([], [], base, []);
    hide IsSplit;
    while start < |combined|
      invariant 0 <= start <= |combined|
      invariant IsSplit(records, [], base, combined[..start])
      decreases |combined| - start
    {
      var rel := IndexOfSeparator(combined[start..]);
      if rel < 0 {
        break;
      }
      var end := start + rel + 2;
      ScanStep(records, combined, base, start, rel);
      records := records + [Slice(base + start, combined[start..end])];
      start := end;
    }
    ScanEnd(records, combined, base, start);
    taken := Taken(records, combined[start..], fileOffset + |incoming|);
    SplitUnique(records, taken.pending, Split(combined, base).0, Split(combined, base).1, base, combined);
  }

  // ----- reads may be cut anywhere

  function Flatten(chunks: seq<Bytes>): Bytes {
    if chunks == [] then [] else chunks[0] + Flatten(chunks[1..])
  }

  /** One read after the other, threading `pending` and the next offset. */
  function Thread(pending: Bytes, fileOffset: int, chunks: seq<Bytes>): Taken
    decreases |chunks|
  {
    if chunks == [] then Taken([], pending, fileOffset)
    else
      var first := Take(pending, chunks[0], fileOffset);
      var rest := Thread(first.pending, first.nextOffset, chunks[1..]);
      Taken(first.records + rest.records, rest.pending, rest.nextOffset)
  }

  lemma TakeNothing(pending: Bytes, fileOffset: int)
    requires NoSeparator(pending)
    ensures Take(pending, [], fileOffset) == Taken([], pending, fileOffset)
  {
    assert pending + [] == pending && Concat([]) + pending == pending;
    var whole := Split(pending, fileOffset - |pending|);
    SplitUnique([], pending, whole.0, whole.1, fileOffset - |pending|, pending);
  }

  /** Two reads in a row are worth one read of both. */
  lemma TakeTwice(pending: Bytes, x: Bytes, y: Bytes, fileOffset: int)
    ensures
      var first := Take(pending, x, fileOffset);
      var second := Take(first.pending, y, first.nextOffset);
      Take(pending, x + y, fileOffset) == Taken(first.records + second.records, second.pending, second.nextOffset)
  {
    var base := fileOffset - |pending|;
    var first := Take(pending, x, fileOffset);
    var second := Take(first.pending, y, first.nextOffset);
    SplitAppend(first.records, first.pending, second.records, second.pending, base, pending + x, y);
    assert pending + (x + y) == (pending + x) + y;
    var whole := Split(pending + (x + y), base);
    SplitUnique(first.records + second.records, second.pending, whole.0, whole.1, base, pending + (x + y));
  }

  /**
   * However a stream is cut into reads, even inside a separator or a run of
   * newlines, the same records come out at the same offsets, with the same pending.
   */
  lemma {:induction false} ChunkingIrrelevant(pending: Bytes, fileOffset: int, chunks: seq<Bytes>)
    requires NoSeparator(pending)
    ensures Thread(pending, fileOffset, chunks) == Take(pending, Flatten(chunks), fileOffset)
    decreases |chunks|
  {
    if chunks == [] {
      TakeNothing(pending, fileOffset);
    } else {
      var first := Take(pending, chunks[0], fileOffset);
      TakeTwice(pending, chunks[0], Flatten(chunks[1..]), fileOffset);
      ChunkingIrrelevant(first.pending, first.nextOffset, chunks[1..]);
    }
  }

  /** Hence two ways of cutting one stream cannot be told apart. */
  lemma CutsAgree(pending: Bytes, fileOffset: int, a: seq<Bytes>, b: seq<Bytes>)
    requires NoSeparator(pending) && Flatten(a) == Flatten(b)
    ensures Thread(pending, fileOffset, a) == Thread(pending, fileOffset, b)
  {
    ChunkingIrrelevant(pending, fileOffset, a);
    ChunkingIrrelevant(pending, fileOffset, b);
  }
}
