/**
 * Newest first: the start cell is read in two layouts, and text order of the canonical
 * stamp is calendar order. The list order is a stable rearrangement.
 */
module LiveCallOrder {
  import opened Wrappers
  import opened Text
  import opened Sorting
  import opened LiveCallJoin

  /** The six fields of a start time, as text of fixed width. */
  datatype Fields = Fields(year: string, month: string, day: string, hour: string, minute: string, second: string)

  predicate FixedWidth(f: Fields) {
    && |f.year| == 4 && |f.month| == 2 && |f.day| == 2 && |f.hour| == 2 && |f.minute| == 2 && |f.second| == 2
    && AllDigits(f.year) && AllDigits(f.month) && AllDigits(f.day)
    && AllDigits(f.hour) && AllDigits(f.minute) && AllDigits(f.second)
  }

  predicate CivilRanges(f: Fields)
    requires FixedWidth(f)
  {
    && 1 <= Num(f.month) <= 12
    && 1 <= Num(f.day) <= 31
    && Num(f.hour) <= 23 && Num(f.minute) <= 59 && Num(f.second) <= 59
  }

  /** `YYYY-MM-DD HH:MM:SS`. */
  function IsoFields(s: string): Option<Fields> {
    if |s| != 19 then None
    else
      var f := Fields(s[..4], s[5..7], s[8..10], s[11..13], s[14..16], s[17..]);
      if FixedWidth(f) && s[4] == '-' && s[7] == '-' && s[10] == ' ' && s[13] == ':' && s[16] == ':' then Some(f) else None
  }

  /** `DD.MM.YYYY HH:MM:SS`, with an optional comma after the date. */
  function DmyFields(s: string): Option<Fields> {
    var clock := if |s| == 20 && s[10] == ',' then 11 else 10;
    if |s| != clock + 9 then None
    else
      var f := Fields(s[6..10], s[3..5], s[..2], s[clock + 1..clock + 3], s[clock + 4..clock + 6], s[clock + 7..]);
      if FixedWidth(f) && s[2] == '.' && s[5] == '.' && s[clock] == ' ' && s[clock + 3] == ':' && s[clock + 6] == ':'
      then Some(f) else None
  }

  /** The fields of a start cell, if it is a time. */
  function StartFields(raw: string): (f: Option<Fields>)
    ensures f.Some? ==> FixedWidth(f.value)
  {
    var trimmed := Trim(raw);
    var iso := IsoFields(trimmed);
    if iso.Some? then
      if CivilRanges(iso.value) then iso else None
    else
      var dmy := DmyFields(trimmed);
      if dmy.None? || !CivilRanges(dmy.value) then None else dmy
  }

  function Canonical(f: Fields): string {
    f.year + ("-" + (f.month + ("-" + (f.day + (" " + (f.hour + (":" + (f.minute + (":" + f.second)))))))))
  }

  function StartSortKey(raw: string): Option<string> {
    var f := StartFields(raw);
    if f.None? then None else Some(Canonical(f.value))
  }

  /** ECMAScript `<` on these strings. */
  predicate Less(a: string, b: string) {
    LexLe(a, b) && a != b
  }

  function CompareLiveCallStart(left: string, right: string): int {
    var a, b := StartSortKey(left), StartSortKey(right);
    if a.Some? && b.Some? then
      if a.value == b.value then 0
      else if Less(a.value, b.value) then 1 else -1
    else if a.Some? then -1
    else if b.Some? then 1
    else 0
  }

  // ----- text order is calendar order

  /** Earlier or the same, field by field. */
  predicate NotAfter(a: Fields, b: Fields)
    requires FixedWidth(a) && FixedWidth(b)
  {
    if Num(a.year) != Num(b.year) then Num(a.year) < Num(b.year)
    else if Num(a.month) != Num(b.month) then Num(a.month) < Num(b.month)
    else if Num(a.day) != Num(b.day) then Num(a.day) < Num(b.day)
    else if Num(a.hour) != Num(b.hour) then Num(a.hour) < Num(b.hour)
    else if Num(a.minute) != Num(b.minute) then Num(a.minute) < Num(b.minute)
    else Num(a.second) <= Num(b.second)
  }

  lemma {:induction false} LexConcat(a: string, b: string, x: string, y: string)
    requires |a| == |b|
    ensures LexLe(a + x, b + y) <==> if a == b then LexLe(x, y) else LexLe(a, b)
  {
    if a == [] {
      assert a + x == x && b + y == y;
    } else {
      assert (a + x)[1..] == a[1..] + x && (b + y)[1..] == b[1..] + y;
      LexConcat(a[1..], b[1..], x, y);
      assert a == [a[0]] + a[1..] && b == [b[0]] + b[1..];
    }
  }

  /** Digit texts of one width compare as their numbers. */
  lemma {:induction false} LexIsNumeric(a: string, b: string)
    requires AllDigits(a) && AllDigits(b) && |a| == |b|
    ensures LexLe(a, b) <==> Num(a) <= Num(b)
    ensures a == b <==> Num(a) == Num(b)
  {
    if a != [] {
      var n := |a| - 1;
      LexIsNumeric(a[..n], b[..n]);
      LexConcat(a[..n], b[..n], [a[n]], [b[n]]);
      assert a == a[..n] + [a[n]] && b == b[..n] + [b[n]];
      assert LexLe([a[n]], [b[n]]) <==> a[n] <= b[n];
    }
  }

  lemma LexOfField(a: string, b: string, sep: string, x: string, y: string)
    requires AllDigits(a) && AllDigits(b) && |a| == |b|
    ensures LexLe(a + (sep + x), b + (sep + y)) <==> if Num(a) != Num(b) then Num(a) < Num(b) else LexLe(x, y)
  {
    LexConcat(a, b, sep + x, sep + y);
    LexConcat(sep, sep, x, y);
    LexIsNumeric(a, b);
  }

  lemma CanonicalOrder(a: Fields, b: Fields)
    requires FixedWidth(a) && FixedWidth(b)
    ensures LexLe(Canonical(a), Canonical(b)) <==> NotAfter(a, b)
  {
    hide LexLe, Num, AllDigits;
    LexIsNumeric(a.second, b.second);
    LexOfField(a.minute, b.minute, ":", a.second, b.second);
    var a4, b4 := a.minute + (":" + a.second), b.minute + (":" + b.second);
    LexOfField(a.hour, b.hour, ":", a4, b4);
    var a3, b3 := a.hour + (":" + a4), b.hour + (":" + b4);
    LexOfField(a.day, b.day, " ", a3, b3);
    var a2, b2 := a.day + (" " + a3), b.day + (" " + b3);
    LexOfField(a.month, b.month, "-", a2, b2);
    var a1, b1 := a.month + ("-" + a2), b.month + ("-" + b2);
    LexOfField(a.year, b.year, "-", a1, b1);
  }

  /** The first cell is a time, and the second is none or an earlier one. */
  predicate ComesFirst(a: Option<Fields>, b: Option<Fields>)
    requires (a.Some? ==> FixedWidth(a.value)) && (b.Some? ==> FixedWidth(b.value))
  {
    a.Some? && (b.None? || !NotAfter(a.value, b.value))
  }

  /** A row comes first exactly when it is a time and the other is not, or is an earlier one. */
  lemma ComparesByCalendar(left: string, right: string)
    ensures CompareLiveCallStart(left, right) < 0 <==> ComesFirst(StartFields(left), StartFields(right))
    ensures CompareLiveCallStart(left, right) > 0 <==> ComesFirst(StartFields(right), StartFields(left))
  {
    hide LexLe, Canonical, NotAfter, Num, StartFields, FixedWidth;
    var a, b := StartFields(left), StartFields(right);
    if a.Some? && b.Some? {
      var x, y := Canonical(a.value), Canonical(b.value);
      CanonicalOrder(a.value, b.value);
      CanonicalOrder(b.value, a.value);
      LexTotal(x, y);
      if LexLe(x, y) && LexLe(y, x) {
        LexAntisymmetric(x, y);
      }
    }
  }

  /** Both layouts of one time give one key. */
  lemma LayoutsAgree(f: Fields, comma: bool)
    requires FixedWidth(f)
    ensures
      var dmy := f.day + "." + f.month + "." + f.year + (if comma then "," else "") + " " + f.hour + ":" + f.minute + ":" + f.second;
      DmyFields(dmy) == Some(f) && IsoFields(dmy).None? && IsoFields(Canonical(f)) == Some(f)
  {
    var date := f.day + "." + f.month + "." + f.year;
    var clock := " " + f.hour + ":" + f.minute + ":" + f.second;
    var dmy := date + (if comma then "," else "") + clock;
    assert date[..2] == f.day && date[3..5] == f.month && date[6..10] == f.year && date[2] == '.' && date[5] == '.';
    assert clock[1..3] == f.hour && clock[4..6] == f.minute && clock[7..] == f.second;
    assert clock[0] == ' ' && clock[3] == ':' && clock[6] == ':';
    var at := if comma then 11 else 10;
    assert dmy[..10] == date && dmy[at..] == clock && (comma ==> dmy[10] == ',');
    assert dmy == f.day + "." + f.month + "." + f.year + (if comma then "," else "") + " " + f.hour + ":" + f.minute + ":" + f.second;
    DmyReads(dmy, at, f);
    IsoReads(f);
  }

  lemma DmyReads(s: string, at: nat, f: Fields)
    requires FixedWidth(f) && (at == 10 || (at == 11 && |s| > 10 && s[10] == ',')) && |s| == at + 9
    requires s[..2] == f.day && s[3..5] == f.month && s[6..10] == f.year && s[2] == '.' && s[5] == '.'
    requires s[at] == ' ' && s[at + 3] == ':' && s[at + 6] == ':'
    requires s[at + 1..at + 3] == f.hour && s[at + 4..at + 6] == f.minute && s[at + 7..] == f.second
    ensures DmyFields(s) == Some(f) && IsoFields(s).None?
  {
  }

  lemma IsoReads(f: Fields)
    requires FixedWidth(f)
    ensures IsoFields(Canonical(f)) == Some(f)
  {
    var s := Canonical(f);
    assert s[..4] == f.year && s[5..7] == f.month && s[8..10] == f.day && s[11..13] == f.hour;
    assert s[14..16] == f.minute && s[17..] == f.second;
  }

  // ----- the list

  datatype Indexed = Indexed(row: JoinedCall, index: nat)

  /** The comparator never returns a positive number for these two. */
  predicate ItemLe(a: Indexed, b: Indexed) {
    var byTime := CompareLiveCallStart(a.row.startedAt, b.row.startedAt);
    byTime < 0 || (byTime == 0 && a.index <= b.index)
  }

  lemma CompareTransitive(a: string, b: string, c: string)
    requires CompareLiveCallStart(a, b) <= 0 && CompareLiveCallStart(b, c) <= 0
    ensures CompareLiveCallStart(a, c) <= 0
    ensures CompareLiveCallStart(a, b) < 0 || CompareLiveCallStart(b, c) < 0 ==> CompareLiveCallStart(a, c) < 0
  {
    hide StartSortKey, LexLe;
    var x, y, z := StartSortKey(a), StartSortKey(b), StartSortKey(c);
    if x.Some? && y.Some? && z.Some? {
      LexTotal(x.value, y.value);
      LexTotal(y.value, z.value);
      LexTotal(x.value, z.value);
      LexTransitive(z.value, y.value, x.value);
      if LexLe(x.value, z.value) {
        LexAntisymmetric(x.value, z.value);
        LexAntisymmetric(x.value, y.value);
      }
    }
  }

  lemma CompareOpposite(a: string, b: string)
    ensures CompareLiveCallStart(a, b) == -CompareLiveCallStart(b, a)
  {
    hide StartSortKey, LexLe;
    var x, y := StartSortKey(a), StartSortKey(b);
    if x.Some? && y.Some? {
      LexTotal(x.value, y.value);
      if LexLe(x.value, y.value) && LexLe(y.value, x.value) {
        LexAntisymmetric(x.value, y.value);
      }
    }
  }

  lemma ItemsAreOrdered()
    ensures TotalPreorder(ItemLe)
  {
    hide CompareLiveCallStart;
    forall a: Indexed, b: Indexed ensures ItemLe(a, b) || ItemLe(b, a) {
      CompareOpposite(a.row.startedAt, b.row.startedAt);
    }
    forall a: Indexed, b: Indexed, c: Indexed | ItemLe(a, b) && ItemLe(b, c) ensures ItemLe(a, c) {
      CompareTransitive(a.row.startedAt, b.row.startedAt, c.row.startedAt);
    }
  }

  function WithIndex(rows: seq<JoinedCall>): seq<Indexed> {
    seq(|rows|, i requires 0 <= i < |rows| => Indexed(rows[i], i))
  }

  function RowsOf(items: seq<Indexed>): seq<JoinedCall> {
    seq(|items|, i requires 0 <= i < |items| => items[i].row)
  }

  /**
   * `out` rearranges `rows` by `order`: every index once, newest start first,
   * cells that are not a time last, and equals in their old order.
   */
  ghost predicate IsStableOrder(order: seq<nat>, rows: seq<JoinedCall>, out: seq<JoinedCall>) {
    && |order| == |rows| == |out|
    && (forall i | 0 <= i < |order| :: order[i] < |rows| && out[i] == rows[order[i]])
    && (forall i, j | 0 <= i < j < |order| ::
          order[i] != order[j] && Precedes(rows, order[i], order[j]))
  }

  predicate Precedes(rows: seq<JoinedCall>, a: nat, b: nat)
    requires a < |rows| && b < |rows|
  {
    var byTime := CompareLiveCallStart(rows[a].startedAt, rows[b].startedAt);
    byTime < 0 || (byTime == 0 && a < b)
  }

  function IndicesOf(items: seq<Indexed>): seq<nat> {
    seq(|items|, i requires 0 <= i < |items| => items[i].index)
  }

  method OrderLiveCallsByStart(rows: seq<JoinedCall>) returns (out: seq<JoinedCall>, ghost order: seq<nat>)
    ensures out == RowsOf(Sort(WithIndex(rows), ItemLe))
    ensures IsStableOrder(order, rows, out)
  {
    var items := Sort(WithIndex(rows), ItemLe);
    out := RowsOf(items);
    order := IndicesOf(items);
    SortIsStable(rows, items);
  }

  lemma SortedItems(rows: seq<JoinedCall>)
    ensures
      var items := Sort(WithIndex(rows), ItemLe);
      && |items| == |rows| && multiset(items) == multiset(WithIndex(rows))
      && (forall i, j | 0 <= i < j < |items| :: ItemLe(items[i], items[j]))
      && (forall item :: item in items <==> item in WithIndex(rows))
  {
    ItemsAreOrdered();
    SortSorts(WithIndex(rows), ItemLe);
    SameMembers(Sort(WithIndex(rows), ItemLe), WithIndex(rows));
  }

  lemma SortIsStable(rows: seq<JoinedCall>, items: seq<Indexed>)
    requires items == Sort(WithIndex(rows), ItemLe)
    ensures IsStableOrder(IndicesOf(items), rows, RowsOf(items))
  {
    hide Sort;
    SortedItems(rows);
    forall i | 0 <= i < |items| ensures items[i].index < |rows| && items[i].row == rows[items[i].index] {
      assert items[i] in items;
    }
    hide CompareLiveCallStart, WithIndex;
    forall i, j | 0 <= i < j < |items|
      ensures items[i].index != items[j].index && Precedes(rows, items[i].index, items[j].index)
    {
      IndexedOnce(rows, items, i, j);
      assert ItemLe(items[i], items[j]);
    }
  }

  lemma IndexedOnce(rows: seq<JoinedCall>, items: seq<Indexed>, i: nat, j: nat)
    requires multiset(items) == multiset(WithIndex(rows)) && i < j < |items|
    ensures items[i].index != items[j].index
  {
    SameMembers(items, WithIndex(rows));
    assert items[i] in items && items[j] in items;
    if items[i].index == items[j].index {
      assert items[i] == items[j];
      var s := items;
      assert s == s[..j] + s[j..];
      assert s[i] in s[..j] && s[j] in s[j..];
      IndexCount(rows, items[i]);
    }
  }

  lemma {:induction false} IndexCount(rows: seq<JoinedCall>, item: Indexed)
    ensures multiset(WithIndex(rows))[item] <= 1
    decreases |rows|
  {
    if rows != [] {
      var n := |rows| - 1;
      IndexCount(rows[..n], item);
      assert WithIndex(rows) == WithIndex(rows[..n]) + [Indexed(rows[n], n)];
      if item == Indexed(rows[n], n) {
        assert item !in WithIndex(rows[..n]);
      }
    }
  }

  /** There is one such rearrangement, so any sort the engine uses gives it. */
  lemma StableOrderIsUnique(rows: seq<JoinedCall>, order: seq<nat>, out: seq<JoinedCall>)
    requires IsStableOrder(order, rows, out)
    ensures out == RowsOf(Sort(WithIndex(rows), ItemLe))
  {
    var items := seq(|order|, i requires 0 <= i < |order| => Indexed(out[i], order[i]));
    EveryIndexOnce(rows, order, items);
    ItemsAreOrdered();
    SortSorts(WithIndex(rows), ItemLe);
    hide CompareLiveCallStart, Sort;
    forall i, j | 0 <= i < j < |items| ensures ItemLe(items[i], items[j]) {
      assert Precedes(rows, order[i], order[j]);
    }
    IndexSeparates(items);
    SortedUnique(items, Sort(WithIndex(rows), ItemLe), ItemLe);
    assert out == RowsOf(items);
  }

  lemma IndexSeparates(items: seq<Indexed>)
    requires forall i, j | 0 <= i < j < |items| :: items[i].index != items[j].index
    ensures Separates(items, ItemLe)
  {
    forall x, y | x in items && y in items && ItemLe(x, y) && ItemLe(y, x) ensures x == y {
      CompareOpposite(x.row.startedAt, y.row.startedAt);
      var i :| 0 <= i < |items| && items[i] == x;
      var j :| 0 <= j < |items| && items[j] == y;
      hide CompareLiveCallStart;
      assert x.index == y.index;
      assert i == j;
    }
  }

  lemma EveryIndexOnce(rows: seq<JoinedCall>, order: seq<nat>, items: seq<Indexed>)
    requires |items| == |order| == |rows|
    requires forall i | 0 <= i < |order| :: order[i] < |rows| && items[i] == Indexed(rows[order[i]], order[i])
    requires forall i, j | 0 <= i < j < |order| :: order[i] != order[j]
    ensures multiset(items) == multiset(WithIndex(rows))
  {
    assert Distinct(items);
    forall x: Indexed ensures multiset(items)[x] <= multiset(WithIndex(rows))[x] {
      DistinctCount(items, x);
      if x in items {
        var i :| 0 <= i < |items| && items[i] == x;
        assert WithIndex(rows)[order[i]] == x;
      }
    }
    assert |multiset(items)| == |items| && |multiset(WithIndex(rows))| == |rows|;
    SubsetOfSameSize(multiset(items), multiset(WithIndex(rows)));
  }

  lemma SubsetOfSameSize(a: multiset<Indexed>, b: multiset<Indexed>)
    requires a <= b && |a| == |b|
    ensures a == b
  {
    assert b == a + (b - a);
    assert |b - a| == 0;
  }
}
