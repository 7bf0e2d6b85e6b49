/**
 * Two query plans for one list. The page plan filters, sorts and cuts base rows and labels
 * only what is left; the catalog plan labels everything first. The service picks one by
 * looking at which columns are filtered.
 */
module GeographyPlans {
  import opened Wrappers
  import opened Text
  import opened Sorting
  import opened LikePattern
  import opened GeographyRows

  const EMPTY_FILTER_TOKEN := "__empty__"
  const STATUS_BLOCKED := "Заблокировано"

  datatype Column =
    | Category | Supplier | Source | City | Region | Abc | Telephone
    | Client | Capacity | Operator | Geography | Number | Title | Activation

  const NUMBER_GEOGRAPHY_COLUMNS := [
    Category, Supplier, Source, City, Region, Abc, Telephone, Client, Capacity, Operator, Geography, Number, Title, Activation]

  const EXPENSIVE_COLUMNS := {City, Region, Abc, Telephone, Operator, Geography}

  /** What the tariff function, the digit split and the PSTN cache say of one number. */
  datatype Labels = Labels(
    city: string, cityAlert: bool, region: string, abc: string, telephone: string,
    operator: string, geography: string, pstnStatus: string)

  datatype Labelled = Labelled(base: Base, labels: Labels)

  datatype Request = Request(
    filters: map<Column, seq<string>>, phoneQ: string, blockedOnly: bool, unregisteredOnly: bool, missingOnly: bool)

  datatype Clause = Clause(column: Column, values: seq<string>)

  /** The cheap WHERE: column clauses, an escaped pattern for the number, and the toolbar flags. */
  datatype CheapWhere = CheapWhere(
    clauses: seq<Clause>, pattern: Option<string>, blockedOnly: bool, unregisteredOnly: bool, missingOnly: bool)

  datatype Projection = Page | Catalog

  /** `same` is how ILIKE compares two characters. */
  type Same = (char, char) -> bool

  // ----- cells and clauses

  predicate Expensive(c: Column) {
    c in EXPENSIVE_COLUMNS
  }

  function CheapCell(b: Base, c: Column): string
    requires !Expensive(c)
  {
    match c
    case Category => b.category
    case Supplier => b.supplier
    case Source => b.source
    case Client => b.client
    case Capacity => b.capacity
    case Number => b.number
    case Title => b.title
    case Activation => b.activation
    case _ => assert false; ""
  }

  function CellOf(l: Labelled, c: Column): string {
    match c
    case City => l.labels.city
    case Region => l.labels.region
    case Abc => l.labels.abc
    case Telephone => l.labels.telephone
    case Operator => l.labels.operator
    case Geography => l.labels.geography
    case _ => CheapCell(l.base, c)
  }

  /** The IN list with its empty-cell disjunct. */
  predicate Match(values: seq<string>, cell: string) {
    || values == []
    || (EMPTY_FILTER_TOKEN in values && cell == "")
    || (cell != EMPTY_FILTER_TOKEN && cell in values)
  }

  predicate Active(filters: map<Column, seq<string>>, c: Column, exclude: Option<Column>) {
    exclude != Some(c) && c in filters && filters[c] != []
  }

  predicate CheapClauses(clauses: seq<Clause>) {
    forall k | 0 <= k < |clauses| :: !Expensive(clauses[k].column)
  }

  predicate CheapHolds(w: CheapWhere, b: Base, same: Same)
    requires CheapClauses(w.clauses)
  {
    && (forall k | 0 <= k < |w.clauses| :: Match(w.clauses[k].values, CheapCell(b, w.clauses[k].column)))
    && (w.pattern.Some? ==> Like(w.pattern.value, b.number, same))
    && (w.blockedOnly ==> b.activation == STATUS_BLOCKED)
    && (w.unregisteredOnly ==> b.unregistered)
    && (w.missingOnly ==> b.missing)
  }

  predicate ExpensiveHolds(clauses: seq<Clause>, l: Labelled) {
    forall k | 0 <= k < |clauses| :: Match(clauses[k].values, CellOf(l, clauses[k].column))
  }

  // ----- what a request asks for

  predicate CheapWanted(req: Request, exclude: Option<Column>, b: Base, same: Same) {
    && (forall c: Column | Active(req.filters, c, exclude) && !Expensive(c) :: Match(req.filters[c], CheapCell(b, c)))
    && (Trim(req.phoneQ) != "" ==> Contains(b.number, Trim(req.phoneQ), same))
    && (req.blockedOnly ==> b.activation == STATUS_BLOCKED)
    && (req.unregisteredOnly ==> b.unregistered)
    && (req.missingOnly ==> b.missing)
  }

  predicate ExpensiveWanted(req: Request, exclude: Option<Column>, l: Labelled) {
    forall c: Column | Active(req.filters, c, exclude) && Expensive(c) :: Match(req.filters[c], CellOf(l, c))
  }

  /** A labelled row passes the search, the flags and every filter but the excluded column's. */
  predicate Wanted(req: Request, exclude: Option<Column>, l: Labelled, same: Same) {
    && (forall c: Column | Active(req.filters, c, exclude) :: Match(req.filters[c], CellOf(l, c)))
    && (Trim(req.phoneQ) != "" ==> Contains(l.base.number, Trim(req.phoneQ), same))
    && (req.blockedOnly ==> l.base.activation == STATUS_BLOCKED)
    && (req.unregisteredOnly ==> l.base.unregistered)
    && (req.missingOnly ==> l.base.missing)
  }

  lemma WantedSplits(req: Request, exclude: Option<Column>, l: Labelled, same: Same)
    ensures Wanted(req, exclude, l, same) <==> CheapWanted(req, exclude, l.base, same) && ExpensiveWanted(req, exclude, l)
  {
    hide Match, Contains, Trim;
    assert forall c: Column | !Expensive(c) :: CellOf(l, c) == CheapCell(l.base, c);
  }

  ghost predicate IsCheapWhere(w: CheapWhere, req: Request, exclude: Option<Column>, same: Same) {
    CheapClauses(w.clauses) && forall b :: CheapHolds(w, b, same) <==> CheapWanted(req, exclude, b, same)
  }

  ghost predicate IsExpensiveWhere(clauses: seq<Clause>, req: Request, exclude: Option<Column>) {
    forall l :: ExpensiveHolds(clauses, l) <==> ExpensiveWanted(req, exclude, l)
  }

  // ----- building the clauses

  method ActiveFilterColumns(filters: map<Column, seq<string>>, exclude: Option<Column>) returns (out: seq<Column>)
    ensures forall c :: c in out <==> Active(filters, c, exclude)
  {
    out := [];
    for k := 0 to |NUMBER_GEOGRAPHY_COLUMNS|
      invariant forall c :: c in out <==> c in NUMBER_GEOGRAPHY_COLUMNS[..k] && Active(filters, c, exclude)
    {
      var column := NUMBER_GEOGRAPHY_COLUMNS[k];
      assert NUMBER_GEOGRAPHY_COLUMNS[..k + 1] == NUMBER_GEOGRAPHY_COLUMNS[..k] + [column];
      if exclude == Some(column) {
        continue;
      }
      if column !in filters || filters[column] == [] {
        continue;
      }
      out := out + [column];
    }
    EveryColumnListed();
  }

  lemma EveryColumnListed()
    ensures forall c: Column :: c in NUMBER_GEOGRAPHY_COLUMNS[..|NUMBER_GEOGRAPHY_COLUMNS|]
  {
    var all := NUMBER_GEOGRAPHY_COLUMNS;
    assert all[..|all|] == all;
    forall c: Column ensures c in all {
      match c
      case Category => assert all[0] == c;
      case Supplier => assert all[1] == c;
      case Source => assert all[2] == c;
      case City => assert all[3] == c;
      case Region => assert all[4] == c;
      case Abc => assert all[5] == c;
      case Telephone => assert all[6] == c;
      case Client => assert all[7] == c;
      case Capacity => assert all[8] == c;
      case Operator => assert all[9] == c;
      case Geography => assert all[10] == c;
      case Number => assert all[11] == c;
      case Title => assert all[12] == c;
      case Activation => assert all[13] == c;
    }
  }

  /** The clauses of one scope, as (column, values) pairs: exactly those of the active columns in that scope. */
  ghost predicate AreClauses(clauses: seq<Clause>, filters: map<Column, seq<string>>, expensive: bool, exclude: Option<Column>) {
    && (forall k | 0 <= k < |clauses| ::
          var c := clauses[k].column;
          Active(filters, c, exclude) && Expensive(c) == expensive && clauses[k].values == filters[c])
    && (forall c | Active(filters, c, exclude) && Expensive(c) == expensive :: Clause(c, filters[c]) in clauses)
  }

  method WhereFor(filters: map<Column, seq<string>>, expensive: bool, exclude: Option<Column>) returns (clauses: seq<Clause>)
    ensures AreClauses(clauses, filters, expensive, exclude)
  {
    hide Active;
    clauses := [];
    var columns := ActiveFilterColumns(filters, exclude);
    for i := 0 to |columns|
      invariant forall k | 0 <= k < |clauses| ::
        var c := clauses[k].column;
        c in columns && Expensive(c) == expensive && c in filters && clauses[k].values == filters[c]
      invariant forall c | c in columns[..i] && Expensive(c) == expensive && c in filters :: Clause(c, filters[c]) in clauses
    {
      assert columns[..i + 1] == columns[..i] + [columns[i]];
      if Expensive(columns[i]) != expensive {
        continue;
      }
      var values := if columns[i] in filters then filters[columns[i]] else [];
      assert columns[i] in columns;
      ActiveIsFiltered(filters, columns[i], exclude);
      clauses := clauses + [Clause(columns[i], values)];
    }
    assert columns[..|columns|] == columns;
    forall c | Active(filters, c, exclude) ensures c in filters {
      ActiveIsFiltered(filters, c, exclude);
    }
  }

  lemma ActiveIsFiltered(filters: map<Column, seq<string>>, c: Column, exclude: Option<Column>)
    requires Active(filters, c, exclude)
    ensures c in filters
  {
  }

  method BuildCheapWhere(req: Request, exclude: Option<Column>, ghost same: Same) returns (w: CheapWhere)
    ensures IsCheapWhere(w, req, exclude, same)
  {
    var clauses := WhereFor(req.filters, false, exclude);
    var q := Trim(req.phoneQ);
    var pattern := if q == "" then None else Some(PhoneLikePattern(q));
    w := CheapWhere(clauses, pattern, req.blockedOnly, req.unregisteredOnly, req.missingOnly);
    forall b ensures CheapHolds(w, b, same) <==> CheapWanted(req, exclude, b, same) {
      CheapWhereMeans(w, req, exclude, b, same);
    }
  }

  lemma CheapWhereMeans(w: CheapWhere, req: Request, exclude: Option<Column>, b: Base, same: Same)
    requires AreClauses(w.clauses, req.filters, false, exclude)
    requires w.pattern == if Trim(req.phoneQ) == "" then None else Some(PhoneLikePattern(Trim(req.phoneQ)))
    requires w.blockedOnly == req.blockedOnly && w.unregisteredOnly == req.unregisteredOnly && w.missingOnly == req.missingOnly
    ensures CheapHolds(w, b, same) <==> CheapWanted(req, exclude, b, same)
  {
    EscapedLikeIsContains(Trim(req.phoneQ), b.number, same);
    hide Match, Contains, Trim, Like, PhoneLikePattern, CheapCell;
    if CheapHolds(w, b, same) {
      forall c: Column | Active(req.filters, c, exclude) && !Expensive(c) ensures Match(req.filters[c], CheapCell(b, c)) {
        var k :| 0 <= k < |w.clauses| && w.clauses[k] == Clause(c, req.filters[c]);
      }
    }
  }

  method BuildExpensiveWhere(req: Request, exclude: Option<Column>) returns (clauses: seq<Clause>)
    ensures IsExpensiveWhere(clauses, req, exclude)
  {
    clauses := WhereFor(req.filters, true, exclude);
    hide Match, CellOf;
    forall l ensures ExpensiveHolds(clauses, l) <==> ExpensiveWanted(req, exclude, l) {
      if ExpensiveHolds(clauses, l) {
        forall c: Column | Active(req.filters, c, exclude) && Expensive(c) ensures Match(req.filters[c], CellOf(l, c)) {
          var k :| 0 <= k < |clauses| && clauses[k] == Clause(c, req.filters[c]);
        }
      }
    }
  }

  ghost predicate NoExpensiveFilter(req: Request, exclude: Option<Column>) {
    forall c | Active(req.filters, c, exclude) :: !Expensive(c)
  }

  /** Walks the expensive columns in any order. */
  method ListProjection(filters: map<Column, seq<string>>) returns (projection: Projection)
    ensures projection == Page <==> forall c | Active(filters, c, None) :: !Expensive(c)
  {
    var left := EXPENSIVE_COLUMNS;
    while left != {}
      invariant left <= EXPENSIVE_COLUMNS
      invariant forall c | Active(filters, c, None) && Expensive(c) :: c in left
      decreases |left|
    {
      var column :| column in left;
      left := left - {column};
      if column in filters && |filters[column]| > 0 {
        assert Active(filters, column, None);
        return Catalog;
      }
    }
    return Page;
  }

  method FacetProjection(column: Column, filters: map<Column, seq<string>>) returns (projection: Projection)
    ensures projection == Page <==> !Expensive(column) && forall c | Active(filters, c, Some(column)) :: !Expensive(c)
  {
    var rest := map c | c in filters && c != column :: filters[c];
    var inner := ListProjection(rest);
    assert forall c :: Active(rest, c, None) <==> Active(filters, c, Some(column));
    if Expensive(column) {
      return Catalog;
    }
    return inner;
  }

  // ----- relations

  function Keep(base: seq<Base>, w: CheapWhere, same: Same): seq<Base>
    requires CheapClauses(w.clauses)
  {
    if base == [] then []
    else if CheapHolds(w, base[0], same) then [base[0]] + Keep(base[1..], w, same)
    else Keep(base[1..], w, same)
  }

  function KeepLabelled(rows: seq<Labelled>, clauses: seq<Clause>): seq<Labelled> {
    if rows == [] then []
    else if ExpensiveHolds(clauses, rows[0]) then [rows[0]] + KeepLabelled(rows[1..], clauses)
    else KeepLabelled(rows[1..], clauses)
  }

  /** The rows a request asks for, out of the whole labelled relation. */
  function KeepWanted(rows: seq<Labelled>, req: Request, exclude: Option<Column>, same: Same): seq<Labelled> {
    if rows == [] then []
    else if Wanted(req, exclude, rows[0], same) then [rows[0]] + KeepWanted(rows[1..], req, exclude, same)
    else KeepWanted(rows[1..], req, exclude, same)
  }

  function LabelRow(b: Base, labelOf: string -> Labels): Labelled {
    Labelled(b, labelOf(b.number))
  }

  /** The tariff function gives at most one row, the split exactly one, and cache keys are unique. */
  function Label(base: seq<Base>, labelOf: string -> Labels): seq<Labelled> {
    seq(|base|, i requires 0 <= i < |base| => LabelRow(base[i], labelOf))
  }

  /** `LIMIT … OFFSET …`. */
  function Slice<T>(rows: seq<T>, limit: nat, offset: nat): seq<T> {
    if offset >= |rows| then [] else rows[offset..Min(offset + limit, |rows|)]
  }

  predicate BaseLe(a: Base, b: Base) {
    if a.number == b.number then LexLe(a.id, b.id) else LexLe(a.number, b.number)
  }

  predicate LabelledLe(a: Labelled, b: Labelled) {
    BaseLe(a.base, b.base)
  }

  /** Any arrangement `ORDER BY number ASC, id ASC` may return. */
  ghost predicate BaseOrdered(rows: seq<Base>, out: seq<Base>) {
    Sorted(out, BaseLe) && multiset(out) == multiset(rows)
  }

  ghost predicate LabelledOrdered(rows: seq<Labelled>, out: seq<Labelled>) {
    Sorted(out, LabelledLe) && multiset(out) == multiset(rows)
  }

  /** Rows with one id are one row. */
  ghost predicate UniqueIds(base: seq<Base>) {
    forall x, y | x in base && y in base && x.id == y.id :: x == y
  }

  lemma {:induction false} BaseTransitive(a: Base, b: Base, c: Base)
    requires BaseLe(a, b) && BaseLe(b, c)
    ensures BaseLe(a, c)
  {
    if a.number == b.number && b.number == c.number {
      LexTransitive(a.id, b.id, c.id);
    } else if a.number != b.number && b.number != c.number {
      LexTransitive(a.number, b.number, c.number);
      if a.number == c.number {
        LexAntisymmetric(a.number, b.number);
      }
    }
  }

  lemma OrdersAreOrders()
    ensures TotalPreorder(BaseLe) && TotalPreorder(LabelledLe)
  {
    forall a: Base, b: Base ensures BaseLe(a, b) || BaseLe(b, a) {
      LexTotal(a.id, b.id);
      LexTotal(a.number, b.number);
    }
    forall a: Base, b: Base, c: Base | BaseLe(a, b) && BaseLe(b, c) ensures BaseLe(a, c) {
      BaseTransitive(a, b, c);
    }
    hide BaseLe;
    assert forall a: Labelled, b: Labelled :: LabelledLe(a, b) || LabelledLe(b, a);
    assert forall a: Labelled, b: Labelled, c: Labelled | LabelledLe(a, b) && LabelledLe(b, c) :: LabelledLe(a, c);
  }

  lemma BaseAntisymmetric(a: Base, b: Base)
    requires BaseLe(a, b) && BaseLe(b, a)
    ensures a.id == b.id
  {
    if a.number == b.number {
      LexAntisymmetric(a.id, b.id);
    } else {
      LexAntisymmetric(a.number, b.number);
    }
  }

  // ----- filtering before and after labelling

  lemma LabelCons(base: seq<Base>, labelOf: string -> Labels)
    requires base != []
    ensures Label(base, labelOf) == [LabelRow(base[0], labelOf)] + Label(base[1..], labelOf)
  {
  }

  /** The cheap filter before labelling and the expensive one after it keep what all filters keep after it. */
  lemma {:induction false} SplitIsWhole(base: seq<Base>, labelOf: string -> Labels, req: Request, exclude: Option<Column>,
      same: Same, w: CheapWhere, clauses: seq<Clause>)
    requires IsCheapWhere(w, req, exclude, same) && IsExpensiveWhere(clauses, req, exclude)
    ensures KeepLabelled(Label(Keep(base, w, same), labelOf), clauses) == KeepWanted(Label(base, labelOf), req, exclude, same)
  {
    if base != [] {
      var l := LabelRow(base[0], labelOf);
      WantedSplits(req, exclude, l, same);
      assert CheapHolds(w, base[0], same) <==> CheapWanted(req, exclude, base[0], same);
      assert ExpensiveHolds(clauses, l) <==> ExpensiveWanted(req, exclude, l);
      hide CheapHolds, ExpensiveHolds, CheapWanted, ExpensiveWanted, Wanted, LabelRow, Label;
      SplitIsWhole(base[1..], labelOf, req, exclude, same, w, clauses);
      LabelCons(base, labelOf);
      var kept := Keep(base[1..], w, same);
      if CheapHolds(w, base[0], same) {
        LabelCons([base[0]] + kept, labelOf);
        assert ([base[0]] + kept)[1..] == kept;
        assert Label(Keep(base, w, same), labelOf)[1..] == Label(kept, labelOf);
      }
      assert Label(base, labelOf)[1..] == Label(base[1..], labelOf);
    }
  }

  lemma {:induction false} KeepAll(rows: seq<Labelled>, clauses: seq<Clause>)
    requires forall l :: ExpensiveHolds(clauses, l)
    ensures KeepLabelled(rows, clauses) == rows
  {
    if rows != [] {
      KeepAll(rows[1..], clauses);
    }
  }

  lemma CheapIsWhole(base: seq<Base>, labelOf: string -> Labels, req: Request, exclude: Option<Column>, same: Same, w: CheapWhere)
    requires IsCheapWhere(w, req, exclude, same) && NoExpensiveFilter(req, exclude)
    ensures Label(Keep(base, w, same), labelOf) == KeepWanted(Label(base, labelOf), req, exclude, same)
  {
    hide Wanted, CheapWanted, CheapHolds, Match, CellOf, LabelRow;
    KeepAll(Label(Keep(base, w, same), labelOf), []);
    SplitIsWhole(base, labelOf, req, exclude, same, w, []);
  }

  // ----- ordering before and after labelling

  lemma LabelKeepsOrder(rows: seq<Base>, out: seq<Base>, labelOf: string -> Labels)
    requires BaseOrdered(rows, out)
    ensures LabelledOrdered(Label(rows, labelOf), Label(out, labelOf))
  {
    var labelRow: Base -> Labelled := b => LabelRow(b, labelOf);
    assert Label(rows, labelOf) == Mapped(rows, labelRow) && Label(out, labelOf) == Mapped(out, labelRow);
    hide BaseLe, Mapped;
    MappedRearranged(out, rows, labelRow);
  }

  lemma {:induction false} KeepMembers(base: seq<Base>, w: CheapWhere, same: Same)
    requires CheapClauses(w.clauses)
    ensures forall b | b in Keep(base, w, same) :: b in base
  {
    if base != [] {
      KeepMembers(base[1..], w, same);
    }
  }

  lemma {:induction false} WantedMembers(rows: seq<Labelled>, req: Request, exclude: Option<Column>, same: Same)
    ensures forall l | l in KeepWanted(rows, req, exclude, same) :: l in rows
  {
    if rows != [] {
      WantedMembers(rows[1..], req, exclude, same);
    }
  }

  lemma LabelledSeparates(base: seq<Base>, rows: seq<Labelled>, labelOf: string -> Labels)
    requires UniqueIds(base) && forall l | l in rows :: l in Label(base, labelOf)
    ensures Separates(rows, LabelledLe)
  {
    forall x, y | x in rows && y in rows && LabelledLe(x, y) && LabelledLe(y, x) ensures x == y {
      BaseAntisymmetric(x.base, y.base);
      assert x.base in base && y.base in base;
    }
  }

  /** With unique ids, `ORDER BY` leaves no choice. */
  lemma OrderIsUnique(base: seq<Base>, rows: seq<Labelled>, labelOf: string -> Labels, a: seq<Labelled>, b: seq<Labelled>)
    requires UniqueIds(base) && forall l | l in rows :: l in Label(base, labelOf)
    requires LabelledOrdered(rows, a) && LabelledOrdered(rows, b)
    ensures a == b
  {
    hide LabelledLe;
    OrdersAreOrders();
    SameMembers(a, rows);
    LabelledSeparates(base, a, labelOf);
    SortedUnique(a, b, LabelledLe);
  }

  // ----- the plans

  /** What the page query may return. */
  ghost predicate PageResult(base: seq<Base>, w: CheapWhere, labelOf: string -> Labels, same: Same, limit: nat, offset: nat,
      items: seq<Labelled>)
    requires CheapClauses(w.clauses)
  {
    exists page ::
      BaseOrdered(Keep(base, w, same), page) && LabelledOrdered(Label(Slice(page, limit, offset), labelOf), items)
  }

  /** What the catalog query may return. */
  ghost predicate CatalogResult(base: seq<Base>, w: CheapWhere, clauses: seq<Clause>, labelOf: string -> Labels, same: Same,
      limit: nat, offset: nat, items: seq<Labelled>)
    requires CheapClauses(w.clauses)
  {
    exists full ::
      LabelledOrdered(KeepLabelled(Label(Keep(base, w, same), labelOf), clauses), full) && items == Slice(full, limit, offset)
  }

  /** Label everything, keep what the request asks for, order it, and cut the page out. */
  ghost predicate IsPage(base: seq<Base>, req: Request, labelOf: string -> Labels, same: Same, limit: nat, offset: nat,
      items: seq<Labelled>)
  {
    exists full ::
      LabelledOrdered(KeepWanted(Label(base, labelOf), req, None, same), full) && items == Slice(full, limit, offset)
  }

  lemma PageIsUnique(base: seq<Base>, req: Request, labelOf: string -> Labels, same: Same, limit: nat, offset: nat,
      a: seq<Labelled>, b: seq<Labelled>)
    requires UniqueIds(base)
    requires IsPage(base, req, labelOf, same, limit, offset, a) && IsPage(base, req, labelOf, same, limit, offset, b)
    ensures a == b
  {
    var rows := KeepWanted(Label(base, labelOf), req, None, same);
    WantedMembers(Label(base, labelOf), req, None, same);
    var fullA :| LabelledOrdered(rows, fullA) && a == Slice(fullA, limit, offset);
    var fullB :| LabelledOrdered(rows, fullB) && b == Slice(fullB, limit, offset);
    OrderIsUnique(base, rows, labelOf, fullA, fullB);
  }

  lemma SliceOfLabelled(page: seq<Base>, labelOf: string -> Labels, limit: nat, offset: nat)
    ensures Label(Slice(page, limit, offset), labelOf) == Slice(Label(page, labelOf), limit, offset)
  {
    hide LabelRow;
  }

  lemma SliceSorted(rows: seq<Labelled>, limit: nat, offset: nat)
    requires Sorted(rows, LabelledLe)
    ensures Sorted(Slice(rows, limit, offset), LabelledLe)
    ensures forall l | l in Slice(rows, limit, offset) :: l in rows
  {
    hide LabelledLe;
  }

  /** Limit first, label later: with no expensive column filtered, the page plan returns the catalog's page. */
  lemma PagePlanIsPage(base: seq<Base>, req: Request, labelOf: string -> Labels, same: Same, w: CheapWhere, limit: nat, offset: nat,
      items: seq<Labelled>)
    requires UniqueIds(base) && IsCheapWhere(w, req, None, same) && NoExpensiveFilter(req, None)
    requires PageResult(base, w, labelOf, same, limit, offset, items)
    ensures IsPage(base, req, labelOf, same, limit, offset, items)
  {
    CheapClausesOf(w, req, None, same);
    hide LabelledLe, BaseLe, IsCheapWhere;
    var kept := Keep(base, w, same);
    var page :| BaseOrdered(kept, page) && LabelledOrdered(Label(Slice(page, limit, offset), labelOf), items);
    var full := Label(page, labelOf);
    LabelKeepsOrder(kept, page, labelOf);
    CheapIsWhole(base, labelOf, req, None, same, w);
    SliceOfLabelled(page, labelOf, limit, offset);
    SliceSorted(full, limit, offset);
    KeepMembers(base, w, same);
    SameMembers(page, kept);
    OrderIsUnique(base, Slice(full, limit, offset), labelOf, items, Slice(full, limit, offset)) by {
      forall l | l in Slice(full, limit, offset) ensures l in Label(base, labelOf) {
        LabelledMember(page, base, labelOf, l);
      }
    }
  }

  lemma LabelledMember(page: seq<Base>, base: seq<Base>, labelOf: string -> Labels, l: Labelled)
    requires l in Label(page, labelOf) && forall b | b in page :: b in base
    ensures l in Label(base, labelOf)
  {
    var i :| 0 <= i < |page| && l == LabelRow(page[i], labelOf);
    assert page[i] in base;
    var j :| 0 <= j < |base| && base[j] == page[i];
    assert Label(base, labelOf)[j] == l;
  }

  lemma CatalogPlanIsPage(base: seq<Base>, req: Request, labelOf: string -> Labels, same: Same, w: CheapWhere,
      clauses: seq<Clause>, limit: nat, offset: nat, items: seq<Labelled>)
    requires IsCheapWhere(w, req, None, same) && IsExpensiveWhere(clauses, req, None)
    requires CatalogResult(base, w, clauses, labelOf, same, limit, offset, items)
    ensures IsPage(base, req, labelOf, same, limit, offset, items)
  {
    SplitIsWhole(base, labelOf, req, None, same, w, clauses);
  }

  // ----- the service

  const NUMBER_GEOGRAPHY_MAX_PAGE_SIZE := 200
  const TABLE_PAGE_SIZE := 100

  /** `None` is a page that is missing or not a finite number. */
  function ClampPage(value: Option<real>): (page: nat)
    ensures page >= 1
    ensures value.Some? && value.value >= 1.0 ==> page as real <= value.value < page as real + 1.0
  {
    if value.None? || value.value < 1.0 then 1 else value.value.Floor
  }

  function ClampPageSize(value: Option<real>): (size: nat)
    ensures 1 <= size <= NUMBER_GEOGRAPHY_MAX_PAGE_SIZE
    ensures value.Some? && 1.0 <= value.value < 201.0 ==> size as real <= value.value < size as real + 1.0
  {
    if value.None? then TABLE_PAGE_SIZE
    else Min(NUMBER_GEOGRAPHY_MAX_PAGE_SIZE, Max(1, value.value.Floor))
  }

  datatype Toolbar = Toolbar(blocked: nat, unregistered: nat, missing: nat)

  /** `count(*) FILTER (WHERE …)`, three times over one scan. */
  function ToolbarCounts(base: seq<Base>): Toolbar {
    if base == [] then Toolbar(0, 0, 0)
    else
      var rest := ToolbarCounts(base[1..]);
      Toolbar(
        rest.blocked + if base[0].activation == STATUS_BLOCKED then 1 else 0,
        rest.unregistered + if base[0].unregistered then 1 else 0,
        rest.missing + if base[0].missing then 1 else 0)
  }

  /** How many rows the list has for a request. */
  function Total(base: seq<Base>, labelOf: string -> Labels, req: Request, same: Same): nat {
    |KeepWanted(Label(base, labelOf), req, None, same)|
  }

  const ONLY_BLOCKED := Request(map[], "", true, false, false)
  const ONLY_UNREGISTERED := Request(map[], "", false, true, false)
  const ONLY_MISSING := Request(map[], "", false, false, true)

  /** Each toolbar count is the total the list has with that flag and nothing else. */
  lemma {:induction false} ToolbarCountsAreTotals(base: seq<Base>, labelOf: string -> Labels, same: Same)
    ensures ToolbarCounts(base).blocked == Total(base, labelOf, ONLY_BLOCKED, same)
    ensures ToolbarCounts(base).unregistered == Total(base, labelOf, ONLY_UNREGISTERED, same)
    ensures ToolbarCounts(base).missing == Total(base, labelOf, ONLY_MISSING, same)
  {
    if base != [] {
      ToolbarCountsAreTotals(base[1..], labelOf, same);
      LabelCons(base, labelOf);
      assert Label(base, labelOf)[1..] == Label(base[1..], labelOf);
      OnlyFlags(LabelRow(base[0], labelOf), same);
      hide Wanted, Label;
    }
  }

  lemma OnlyFlags(l: Labelled, same: Same)
    ensures Wanted(ONLY_BLOCKED, None, l, same) <==> l.base.activation == STATUS_BLOCKED
    ensures Wanted(ONLY_UNREGISTERED, None, l, same) <==> l.base.unregistered
    ensures Wanted(ONLY_MISSING, None, l, same) <==> l.base.missing
  {
    hide CellOf, Match, Contains;
    assert Trim("") == "";
  }

  datatype ListResult = ListResult(
    items: seq<Labelled>, total: nat, page: nat, pageSize: nat, blockedCount: nat, unregisteredCount: nat, missingCount: nat)

  /** The three counts ignore the request: each is the total with its own flag alone. */
  ghost predicate CountsIgnoreRequest(r: ListResult, base: seq<Base>, labelOf: string -> Labels, same: Same) {
    && r.blockedCount == Total(base, labelOf, ONLY_BLOCKED, same)
    && r.unregisteredCount == Total(base, labelOf, ONLY_UNREGISTERED, same)
    && r.missingCount == Total(base, labelOf, ONLY_MISSING, same)
  }

  method ListNumberGeography(base: seq<Base>, labelOf: string -> Labels, same: Same, req: Request,
      pageAsked: Option<real>, sizeAsked: Option<real>)
    returns (r: ListResult)
    requires UniqueIds(base)
    ensures r.page == ClampPage(pageAsked) && r.pageSize == ClampPageSize(sizeAsked)
    ensures IsPage(base, req, labelOf, same, r.pageSize, (r.page - 1) * r.pageSize, r.items)
    ensures r.total == Total(base, labelOf, req, same)
    ensures CountsIgnoreRequest(r, base, labelOf, same)
  {
    var page, pageSize := ClampPage(pageAsked), ClampPageSize(sizeAsked);
    var counted := ToolbarCounts(base);
    ToolbarCountsAreTotals(base, labelOf, same);
    hide IsPage, Total, ToolbarCounts, ClampPage, ClampPageSize;
    var items, total := ListItems(base, labelOf, same, req, pageSize, (page - 1) * pageSize);
    r := ListResult(items, total, page, pageSize, counted.blocked, counted.unregistered, counted.missing);
  }

  /** The two plans, and the choice between them. */
  method ListItems(base: seq<Base>, labelOf: string -> Labels, same: Same, req: Request, pageSize: nat, offset: nat)
    returns (items: seq<Labelled>, total: nat)
    requires UniqueIds(base)
    ensures IsPage(base, req, labelOf, same, pageSize, offset, items)
    ensures total == Total(base, labelOf, req, same)
  {
    var projection := ListProjection(req.filters);
    var cheap := BuildCheapWhere(req, None, same);
    hide IsCheapWhere, IsExpensiveWhere, Label, Sort, BaseOrdered, LabelledOrdered, BaseLe, LabelledLe;
    CheapClausesOf(cheap, req, None, same);
    OrdersAreOrders();
    if projection == Page {
      var kept := Keep(base, cheap, same);
      total := |kept|;
      var ordered := Sort(kept, BaseLe);
      items := Sort(Label(Slice(ordered, pageSize, offset), labelOf), LabelledLe);
      DbOrdersBase(kept);
      DbOrdersLabelled(Label(Slice(ordered, pageSize, offset), labelOf));
      PagePlanIsPage(base, req, labelOf, same, cheap, pageSize, offset, items);
      CheapIsWhole(base, labelOf, req, None, same, cheap);
      LabelLength(kept, labelOf);
      return;
    }
    var expensive := BuildExpensiveWhere(req, None);
    var labelled := KeepLabelled(Label(Keep(base, cheap, same), labelOf), expensive);
    total := |labelled|;
    items := Slice(Sort(labelled, LabelledLe), pageSize, offset);
    DbOrdersLabelled(labelled);
    SplitIsWhole(base, labelOf, req, None, same, cheap, expensive);
    CatalogPlanIsPage(base, req, labelOf, same, cheap, expensive, pageSize, offset, items);
  }

  lemma CheapClausesOf(w: CheapWhere, req: Request, exclude: Option<Column>, same: Same)
    requires IsCheapWhere(w, req, exclude, same)
    ensures CheapClauses(w.clauses)
  {
  }

  lemma LabelLength(base: seq<Base>, labelOf: string -> Labels)
    ensures |Label(base, labelOf)| == |base|
  {
  }

  lemma DbOrdersBase(rows: seq<Base>)
    ensures BaseOrdered(rows, Sort(rows, BaseLe))
  {
    OrdersAreOrders();
    SortSorts(rows, BaseLe);
  }

  lemma DbOrdersLabelled(rows: seq<Labelled>)
    ensures LabelledOrdered(rows, Sort(rows, LabelledLe))
  {
    OrdersAreOrders();
    SortSorts(rows, LabelledLe);
  }

  // ----- pages

  function Joined<T>(pages: seq<seq<T>>): seq<T> {
    if pages == [] then [] else Joined(pages[..|pages| - 1]) + pages[|pages| - 1]
  }

  lemma SliceNext<T>(full: seq<T>, size: nat, offset: nat)
    ensures Slice(full, offset, 0) + Slice(full, size, offset) == Slice(full, offset + size, 0)
  {
  }

  lemma {:induction false} SlicesJoin<T>(full: seq<T>, pages: seq<seq<T>>, size: nat)
    requires forall p | 0 <= p < |pages| :: pages[p] == Slice(full, size, p * size)
    ensures Joined(pages) == Slice(full, |pages| * size, 0)
  {
    if pages != [] {
      var p := |pages| - 1;
      var offset := p * size;
      assert pages[p] == Slice(full, size, offset) && |pages| * size == offset + size;
      hide Slice;
      SlicesJoin(full, pages[..p], size);
      SliceNext(full, size, offset);
    }
  }

  /** Enough pages, put together, are the whole ordered list, and the total counts it. */
  lemma PagesCover(base: seq<Base>, req: Request, labelOf: string -> Labels, same: Same, size: nat, pages: seq<seq<Labelled>>)
    requires UniqueIds(base)
    requires forall p | 0 <= p < |pages| :: IsPage(base, req, labelOf, same, size, p * size, pages[p])
    requires |pages| * size >= |KeepWanted(Label(base, labelOf), req, None, same)|
    ensures LabelledOrdered(KeepWanted(Label(base, labelOf), req, None, same), Joined(pages))
    ensures |Joined(pages)| == |KeepWanted(Label(base, labelOf), req, None, same)|
  {
    hide KeepWanted, Label, LabelledLe;
    var rows := KeepWanted(Label(base, labelOf), req, None, same);
    DbOrdersLabelled(rows);
    var full := Sort(rows, LabelledLe);
    hide LabelledOrdered;
    forall p | 0 <= p < |pages| ensures pages[p] == Slice(full, size, p * size) {
      PageIsUnique(base, req, labelOf, same, size, p * size, pages[p], Slice(full, size, p * size));
    }
    SlicesJoin(full, pages, size);
    OrderedLength(rows, full);
    assert full[0..|full|] == full;
  }

  lemma OrderedLength(rows: seq<Labelled>, full: seq<Labelled>)
    requires LabelledOrdered(rows, full)
    ensures |full| == |rows|
  {
    SameLength(full, rows);
  }

  // ----- the base relation of the database

  /** Endpoint ids are a primary key, and ids derived for DID rows differ from them and from each other. */
  ghost predicate DistinctIds(db: Db) {
    && (forall d, e | d in db.endpoints && e in db.endpoints && d.id == e.id :: d == e)
    && (forall a, b | a in db.did && b in db.did && a.rowId == b.rowId :: a == b)
    && (forall e, d | e in db.endpoints && d in db.did :: e.id != d.rowId)
  }

  lemma {:induction false} ListedMembers(endpoints: seq<Endpoint>)
    ensures forall e | e in ListedOf(endpoints) :: e in endpoints
  {
    if endpoints != [] {
      ListedMembers(endpoints[1..]);
    }
  }

  /** A base row is an endpoint's or a DID row's. */
  lemma BaseRowKinds(db: Db, row: Base)
    requires UniqueKeys(db.did) && row in BaseRows(db)
    ensures (exists e :: e in db.endpoints && row == UniqueEndpointRow(db, e)) || (exists d :: d in db.did && row == MissingRow(db, d))
  {
    hide ListedOf, EndpointRows, Unmatched, UniqueEndpointRow, MissingRow;
    var listed := ListedOf(db.endpoints);
    var unmatched := Unmatched(listed, db.did);
    EndpointRowsAre(db, listed);
    ListedMembers(db.endpoints);
    UnmatchedAre(listed, db.did);
    if row in EndpointRows(db, listed) {
      var i :| 0 <= i < |listed| && EndpointRows(db, listed)[i] == row;
      assert listed[i] in listed;
    } else {
      var i :| 0 <= i < |unmatched| && MissingRow(db, unmatched[i]) == row;
      assert unmatched[i] in unmatched;
    }
  }

  /** So the plans' assumption on ids holds of every such database. */
  lemma BaseIdsAreUnique(db: Db)
    requires UniqueKeys(db.did) && DistinctIds(db)
    ensures UniqueIds(BaseRows(db))
  {
    forall x, y | x in BaseRows(db) && y in BaseRows(db) && x.id == y.id ensures x == y {
      BaseRowKinds(db, x);
      BaseRowKinds(db, y);
      hide BaseRows;
      forall e: Endpoint ensures UniqueEndpointRow(db, e).id == e.id {
      }
      forall d ensures MissingRow(db, d).id == d.rowId {
      }
      hide UniqueEndpointRow, MissingRow;
    }
  }
}
