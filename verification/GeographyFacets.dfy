/**
 * The filter menu of a column: how often each of its values occurs in the list under the
 * other filters, and what the list holds once such a value is picked.
 */
module GeographyFacets {
  import opened Wrappers
  import opened Text
  import opened Sorting
  import opened LikePattern
  import opened GeographyRows
  import opened GeographyPlans

  const EMPTY_FACET_LABEL := "(пусто)"

  datatype FacetItem = FacetItem(value: string, count: nat)

  datatype FacetResponse = FacetResponse(items: seq<FacetItem>, truncated: bool)

  /** `toLowerCase` and `localeCompare(…, "ru") <= 0`. */
  datatype Locale = Locale(lower: string -> string, le: (string, string) -> bool)

  // ----- tokens

  function CellToFilterToken(cell: string): (token: string)
    ensures token != "" && Trim(token) == token
  {
    var trimmed := Trim(cell);
    if trimmed == "" then EMPTY_FILTER_TOKEN else trimmed
  }

  function Tokens(cells: seq<string>): seq<string> {
    Mapped(cells, CellToFilterToken)
  }

  function DisplayFacetValue(value: string): string {
    if value == "" || value == EMPTY_FILTER_TOKEN then EMPTY_FACET_LABEL else value
  }

  /** Higher counts first, equal counts by label. */
  predicate FacetLe(locale: Locale, a: FacetItem, b: FacetItem) {
    a.count > b.count || (a.count == b.count && locale.le(DisplayFacetValue(a.value), DisplayFacetValue(b.value)))
  }

  function FacetOrder(locale: Locale): (FacetItem, FacetItem) -> bool {
    (a, b) => FacetLe(locale, a, b)
  }

  lemma FacetOrderIsOrder(locale: Locale)
    requires TotalPreorder(locale.le)
    ensures TotalPreorder(FacetOrder(locale))
  {
    var le := FacetOrder(locale);
    forall x, y ensures le(x, y) || le(y, x) {
      assert locale.le(DisplayFacetValue(x.value), DisplayFacetValue(y.value))
          || locale.le(DisplayFacetValue(y.value), DisplayFacetValue(x.value));
    }
    forall x, y, z | le(x, y) && le(y, z) ensures le(x, z) {
      hide DisplayFacetValue;
    }
  }

  // ----- counting, sorting, searching, cutting

  /** A search that is not blank keeps the values whose label contains it. */
  predicate Found(locale: Locale, q: string, value: string) {
    q == "" || Contains(locale.lower(DisplayFacetValue(value)), q, (a, b) => a == b)
  }

  /** The items of `tokens` that the search finds, cut to the `limit` first of the order. */
  ghost predicate IsFacetAnswer(r: FacetResponse, tokens: multiset<string>, q: string, limit: nat, locale: Locale) {
    Listed(r.items, tokens, q, locale) && IsCut(r, tokens, q, limit, locale)
  }

  /** Tokens the search finds, each once and with its count, in order. */
  ghost predicate Listed(items: seq<FacetItem>, tokens: multiset<string>, q: string, locale: Locale) {
    && (forall i | 0 <= i < |items| ::
          items[i].value in tokens && items[i].count == tokens[items[i].value] && Found(locale, q, items[i].value))
    && (forall i, j | 0 <= i < j < |items| :: items[i].value != items[j].value)
    && Sorted(items, FacetOrder(locale))
  }

  /** Truncated exactly when a token it finds is missing; then the list is full and nothing missing belongs before its end. */
  ghost predicate IsCut(r: FacetResponse, tokens: multiset<string>, q: string, limit: nat, locale: Locale) {
    && |r.items| <= limit
    && (r.truncated ==> |r.items| == limit)
    && (r.truncated <==> exists t :: Unlisted(r, tokens, q, locale, t))
    && (forall i, t | 0 <= i < |r.items| && Unlisted(r, tokens, q, locale, t) ::
          FacetLe(locale, r.items[i], FacetItem(t, tokens[t])))
  }

  ghost predicate Unlisted(r: FacetResponse, tokens: multiset<string>, q: string, locale: Locale, t: string) {
    t in tokens && Found(locale, q, t) && FacetItem(t, tokens[t]) !in r.items
  }

  /** The entries of the count table: each token once, with how often it occurs. */
  ghost predicate AreEntries(items: seq<FacetItem>, tokens: multiset<string>) {
    && (forall i | 0 <= i < |items| :: items[i].value in tokens && items[i].count == tokens[items[i].value])
    && (forall i, j | 0 <= i < j < |items| :: items[i].value != items[j].value)
    && (forall t | t in tokens :: FacetItem(t, tokens[t]) in items)
  }

  function Search(items: seq<FacetItem>, locale: Locale, q: string): seq<FacetItem> {
    if items == [] then []
    else if Found(locale, q, items[0].value) then [items[0]] + Search(items[1..], locale, q)
    else Search(items[1..], locale, q)
  }

  lemma {:induction false} SearchKeeps(items: seq<FacetItem>, locale: Locale, q: string)
    requires Sorted(items, FacetOrder(locale))
    requires forall i, j | 0 <= i < j < |items| :: items[i].value != items[j].value
    ensures Sorted(Search(items, locale, q), FacetOrder(locale))
    ensures forall x :: x in Search(items, locale, q) <==> x in items && Found(locale, q, x.value)
    ensures
      var s := Search(items, locale, q);
      forall i, j | 0 <= i < j < |s| :: s[i].value != s[j].value
  {
    hide Found, FacetOrder;
    if items != [] {
      var rest := Search(items[1..], locale, q);
      SearchKeeps(items[1..], locale, q);
      if Found(locale, q, items[0].value) {
        SortedCons(items[0], rest, FacetOrder(locale));
        forall j | 0 <= j < |rest| ensures rest[j].value != items[0].value {
          assert rest[j] in items[1..];
        }
      }
    }
  }

  /** `counts` has each token of `seen` with its multiplicity, and `order` lists its keys once each. */
  ghost predicate IsTable(order: seq<string>, counts: map<string, nat>, seen: multiset<string>) {
    && (forall t :: t in counts <==> t in seen)
    && (forall t | t in counts :: counts[t] == seen[t])
    && (forall t :: t in order <==> t in counts)
    && (forall i, j | 0 <= i < j < |order| :: order[i] != order[j])
  }

  lemma TableStep(order: seq<string>, counts: map<string, nat>, seen: multiset<string>, token: string)
    requires IsTable(order, counts, seen)
    ensures IsTable(if token in counts then order else order + [token],
      counts[token := (if token in counts then counts[token] else 0) + 1], seen + multiset{token})
  {
    assert token in counts <==> token in order;
  }

  /** The count table, and its keys in the order they were first seen. */
  method CountTokens(values: seq<string>) returns (order: seq<string>, counts: map<string, nat>)
    ensures IsTable(order, counts, multiset(Tokens(values)))
  {
    order, counts := [], map[];
    assert IsTable(order, counts, multiset(Tokens(values[..0])));
    hide IsTable;
    for k := 0 to |values|
      invariant IsTable(order, counts, multiset(Tokens(values[..k])))
    {
      var token := CellToFilterToken(values[k]);
      TokensNext(values, k);
      TableStep(order, counts, multiset(Tokens(values[..k])), token);
      if token !in counts {
        order := order + [token];
      }
      counts := counts[token := (if token in counts then counts[token] else 0) + 1];
    }
    assert values[..|values|] == values;
  }

  lemma TokensNext(values: seq<string>, k: nat)
    requires k < |values|
    ensures multiset(Tokens(values[..k + 1])) == multiset(Tokens(values[..k])) + multiset{CellToFilterToken(values[k])}
  {
    assert Tokens(values[..k + 1]) == Tokens(values[..k]) + [CellToFilterToken(values[k])];
  }

  /** `[...counts.entries()].sort(…)`. */
  method SortedEntries(values: seq<string>, locale: Locale) returns (items: seq<FacetItem>)
    requires TotalPreorder(locale.le)
    ensures AreEntries(items, multiset(Tokens(values))) && Sorted(items, FacetOrder(locale))
  {
    hide Tokens, Sorted, TotalPreorder, FacetOrder, AreEntries, Sort;
    var order, counts := CountTokens(values);
    var entries := Entries(order, counts);
    items := Sort(entries, FacetOrder(locale));
    FacetOrderIsOrder(locale);
    SortSorts(entries, FacetOrder(locale));
    EntriesAre(order, counts, multiset(Tokens(values)));
    EntriesRearranged(entries, items, multiset(Tokens(values)));
  }

  function Entries(order: seq<string>, counts: map<string, nat>): seq<FacetItem>
    requires forall t | t in order :: t in counts
  {
    seq(|order|, i requires 0 <= i < |order| => FacetItem(order[i], counts[order[i]]))
  }

  lemma EntriesAre(order: seq<string>, counts: map<string, nat>, tokens: multiset<string>)
    requires IsTable(order, counts, tokens)
    ensures AreEntries(Entries(order, counts), tokens)
  {
    forall t | t in tokens ensures FacetItem(t, tokens[t]) in Entries(order, counts) {
      assert t in order;
      var i :| 0 <= i < |order| && order[i] == t;
      assert Entries(order, counts)[i] == FacetItem(t, counts[t]);
    }
  }

  lemma EntriesRearranged(entries: seq<FacetItem>, items: seq<FacetItem>, tokens: multiset<string>)
    requires AreEntries(entries, tokens) && multiset(items) == multiset(entries)
    ensures AreEntries(items, tokens)
  {
    SameMembers(items, entries);
    assert forall i | 0 <= i < |items| :: items[i] in entries;
    forall i, j | 0 <= i < j < |items| ensures items[i].value != items[j].value {
      if items[i].value == items[j].value {
        assert items[i] == items[j];
        assert Distinct(entries);
        DistinctRearranged(entries, items);
      }
    }
  }

  function ClampLimit(limit: Option<real>): real {
    var asked := if limit.Some? then limit.value else 200.0;
    var atLeast := if asked < 1.0 then 1.0 else asked;
    if atLeast > 500.0 then 500.0 else atLeast
  }

  method AggregateFacetItems(values: seq<string>, q: Option<string>, limit: Option<real>, locale: Locale)
    returns (r: FacetResponse)
    requires TotalPreorder(locale.le)
    ensures IsFacetAnswer(r, multiset(Tokens(values)), QueryOf(q, locale), ClampLimit(limit).Floor, locale)
  {
    var most := ClampLimit(limit);
    var query := QueryOf(q, locale);
    var items := SortedEntries(values, locale);
    var found := if query != "" then Search(items, locale, query) else items;
    var truncated := |found| as real > most;
    r := FacetResponse(if truncated then found[..most.Floor] else found, truncated);
    AnswerIs(items, found, r, multiset(Tokens(values)), query, most.Floor, locale) by {
      SearchKeeps(items, locale, query);
    }
  }

  /** `q?.trim().toLowerCase() ?? ""`. */
  function QueryOf(q: Option<string>, locale: Locale): string {
    if q.Some? then locale.lower(Trim(q.value)) else ""
  }

  lemma AnswerIs(items: seq<FacetItem>, found: seq<FacetItem>, r: FacetResponse, tokens: multiset<string>, q: string, limit: nat,
      locale: Locale)
    requires AreEntries(items, tokens) && Sorted(found, FacetOrder(locale))
    requires forall x :: x in found <==> x in items && Found(locale, q, x.value)
    requires forall i, j | 0 <= i < j < |found| :: found[i].value != found[j].value
    requires r.truncated == (|found| > limit) && r.items == if r.truncated then found[..limit] else found
    ensures IsFacetAnswer(r, tokens, q, limit, locale)
  {
    hide Found, FacetOrder, FacetLe, Unlisted, AreEntries, Sorted, Listed;
    FoundAreEntries(items, found, tokens, q, locale);
    FoundAreListed(found, if r.truncated then limit else |found|, tokens, q, locale);
    assert found[..|found|] == found;
    forall i, t | 0 <= i < |r.items| && Unlisted(r, tokens, q, locale, t)
      ensures FacetLe(locale, r.items[i], FacetItem(t, tokens[t]))
    {
      UnlistedComesLater(items, found, r, tokens, q, limit, locale, t, i);
    }
    forall t | Unlisted(r, tokens, q, locale, t) ensures r.truncated {
      UnlistedIsCut(items, found, r, tokens, q, limit, locale, t);
    }
    if r.truncated {
      CutIsUnlisted(found, r, tokens, q, limit, locale);
    }
  }

  lemma FoundAreListed(found: seq<FacetItem>, n: nat, tokens: multiset<string>, q: string, locale: Locale)
    requires n <= |found| && Sorted(found, FacetOrder(locale))
    requires forall x | x in found :: x.value in tokens && x.count == tokens[x.value] && Found(locale, q, x.value)
    requires forall i, j | 0 <= i < j < |found| :: found[i].value != found[j].value
    ensures Listed(found[..n], tokens, q, locale)
  {
    hide Found, FacetOrder;
    assert forall i | 0 <= i < n :: found[..n][i] == found[i] && found[i] in found;
  }

  lemma FoundAreEntries(items: seq<FacetItem>, found: seq<FacetItem>, tokens: multiset<string>, q: string, locale: Locale)
    requires AreEntries(items, tokens) && forall x :: x in found <==> x in items && Found(locale, q, x.value)
    ensures forall x | x in found :: x.value in tokens && x.count == tokens[x.value] && Found(locale, q, x.value)
    ensures forall t | t in tokens && Found(locale, q, t) :: FacetItem(t, tokens[t]) in found
  {
    hide Found;
  }

  lemma UnlistedIsCut(items: seq<FacetItem>, found: seq<FacetItem>, r: FacetResponse, tokens: multiset<string>, q: string,
      limit: nat, locale: Locale, t: string)
    requires AreEntries(items, tokens) && forall x :: x in found <==> x in items && Found(locale, q, x.value)
    requires r.truncated == (|found| > limit) && r.items == if r.truncated then found[..limit] else found
    requires Unlisted(r, tokens, q, locale, t)
    ensures r.truncated && exists j | limit <= j < |found| :: found[j] == FacetItem(t, tokens[t])
  {
    FoundAreEntries(items, found, tokens, q, locale);
    hide Found, AreEntries;
    assert forall k | 0 <= k < |r.items| :: found[k] == r.items[k] && r.items[k] in r.items;
    var j :| 0 <= j < |found| && found[j] == FacetItem(t, tokens[t]);
  }

  lemma UnlistedComesLater(items: seq<FacetItem>, found: seq<FacetItem>, r: FacetResponse, tokens: multiset<string>, q: string,
      limit: nat, locale: Locale, t: string, i: nat)
    requires AreEntries(items, tokens) && forall x :: x in found <==> x in items && Found(locale, q, x.value)
    requires r.truncated == (|found| > limit) && r.items == if r.truncated then found[..limit] else found
    requires Sorted(found, FacetOrder(locale)) && i < |r.items| && Unlisted(r, tokens, q, locale, t)
    ensures FacetLe(locale, r.items[i], FacetItem(t, tokens[t]))
  {
    UnlistedIsCut(items, found, r, tokens, q, limit, locale, t);
    hide Found, AreEntries, FacetLe, Unlisted;
    var j :| limit <= j < |found| && found[j] == FacetItem(t, tokens[t]);
    assert FacetOrder(locale)(found[i], found[j]);
  }

  lemma CutIsUnlisted(found: seq<FacetItem>, r: FacetResponse, tokens: multiset<string>, q: string, limit: nat, locale: Locale)
    requires forall x | x in found :: x.value in tokens && x.count == tokens[x.value] && Found(locale, q, x.value)
    requires forall i, j | 0 <= i < j < |found| :: found[i].value != found[j].value
    requires |found| > limit && r.items == found[..limit]
    ensures Unlisted(r, tokens, q, locale, found[limit].value)
  {
    hide Found;
    assert found[limit] in found;
  }

  // ----- the service

  function CheapCells(base: seq<Base>, c: Column): seq<string>
    requires !Expensive(c)
  {
    seq(|base|, i requires 0 <= i < |base| => CheapCell(base[i], c))
  }

  function Cells(rows: seq<Labelled>, c: Column): seq<string> {
    seq(|rows|, i requires 0 <= i < |rows| => CellOf(rows[i], c))
  }

  lemma CheapCellsAre(base: seq<Base>, labelOf: string -> Labels, c: Column)
    requires !Expensive(c)
    ensures CheapCells(base, c) == Cells(Label(base, labelOf), c)
  {
    forall i | 0 <= i < |base| ensures CheapCells(base, c)[i] == Cells(Label(base, labelOf), c)[i] {
      assert Label(base, labelOf)[i].base == base[i];
    }
  }

  /** `GROUP BY 1`, the groups in any order, and the generator that repeats each value as often as it was counted. */
  method Regroup(cells: seq<string>) returns (values: seq<string>)
    ensures multiset(values) == multiset(cells)
  {
    values := [];
    var left := multiset(cells);
    while left != multiset{}
      invariant multiset(values) + left == multiset(cells)
      decreases |left|
    {
      var value :| value in left;
      var n := left[value];
      left := left[value := 0];
      ghost var before := multiset(values);
      for i := 0 to n
        invariant multiset(values) == before[value := before[value] + i]
      {
        values := values + [value];
      }
    }
  }

  /** The tokens of the rows that pass every filter but the column's own. */
  ghost function FacetTokens(base: seq<Base>, labelOf: string -> Labels, same: Same, req: Request, column: Column): multiset<string> {
    multiset(Tokens(Cells(KeepWanted(Label(base, labelOf), req, Some(column), same), column)))
  }

  /** `column` is `None` for a name that is no column. Whichever plan runs, the menu is that of the labelled relation. */
  method ListFacets(base: seq<Base>, labelOf: string -> Labels, same: Same, req: Request, column: Option<Column>,
      q: Option<string>, limit: Option<real>, locale: Locale)
    returns (r: FacetResponse)
    requires TotalPreorder(locale.le)
    ensures column.None? ==> r == FacetResponse([], false)
    ensures column.Some? ==>
      IsFacetAnswer(r, FacetTokens(base, labelOf, same, req, column.value), QueryOf(q, locale), ClampLimit(limit).Floor, locale)
  {
    if column.None? {
      return FacetResponse([], false);
    }
    var cells := FacetCells(base, labelOf, same, req, column.value);
    var values := Regroup(cells);
    MappedRearranged(values, cells, CellToFilterToken);
    r := AggregateFacetItems(values, q, limit, locale);
  }

  method FacetCells(base: seq<Base>, labelOf: string -> Labels, same: Same, req: Request, column: Column)
    returns (cells: seq<string>)
    ensures cells == Cells(KeepWanted(Label(base, labelOf), req, Some(column), same), column)
  {
    var projection := FacetProjection(column, req.filters);
    var cheap := BuildCheapWhere(req, Some(column), same);
    hide IsCheapWhere, IsExpensiveWhere;
    CheapClausesOf(cheap, req, Some(column), same);
    if projection == Page {
      cells := CheapCells(Keep(base, cheap, same), column);
      CheapIsWhole(base, labelOf, req, Some(column), same, cheap);
      CheapCellsAre(Keep(base, cheap, same), labelOf, column);
      return;
    }
    var expensive := BuildExpensiveWhere(req, Some(column));
    cells := Cells(KeepLabelled(Label(Keep(base, cheap, same), labelOf), expensive), column);
    SplitIsWhole(base, labelOf, req, Some(column), same, cheap, expensive);
  }

  // ----- picking a value of the menu

  /** The request with one value of the column picked. */
  function Picked(req: Request, column: Column, value: string): Request {
    req.(filters := req.filters[column := [value]])
  }

  /** A cell that is its own token, or empty. */
  predicate Plain(cell: string) {
    cell == "" || (cell != EMPTY_FILTER_TOKEN && Trim(cell) == cell)
  }

  /** Of the cells with a token, the filter on that token finds exactly the plain ones. */
  lemma TokenMatches(cell: string, token: string)
    requires Trim(token) == token && token != ""
    ensures Match([token], cell) <==> CellToFilterToken(cell) == token && Plain(cell)
  {
    assert Trim("") == "";
  }

  lemma PickedWants(req: Request, column: Column, value: string, l: Labelled, same: Same)
    ensures Wanted(Picked(req, column, value), None, l, same)
      <==> Wanted(req, Some(column), l, same) && Match([value], CellOf(l, column))
  {
    hide Match, Contains, Trim, CellOf;
    var picked := Picked(req, column, value);
    assert Active(picked.filters, column, None) && picked.filters[column] == [value];
    assert forall c: Column | c != column ::
      (Active(picked.filters, c, None) <==> Active(req.filters, c, Some(column)))
      && (Active(req.filters, c, Some(column)) ==> picked.filters[c] == req.filters[c]);
  }

  ghost predicate AllPlain(rows: seq<Labelled>, column: Column, value: string) {
    forall l | l in rows && CellToFilterToken(CellOf(l, column)) == value :: Plain(CellOf(l, column))
  }

  lemma {:induction false} PickedRows(rows: seq<Labelled>, req: Request, column: Column, value: string, same: Same)
    requires Trim(value) == value && value != ""
    ensures
      var others := KeepWanted(rows, req, Some(column), same);
      var shown := |KeepWanted(rows, Picked(req, column, value), None, same)|;
      var counted := multiset(Tokens(Cells(others, column)))[value];
      shown <= counted && (shown == counted <==> AllPlain(others, column, value))
  {
    hide Wanted, Match, CellOf, Plain, CellToFilterToken;
    if rows != [] {
      PickedRows(rows[1..], req, column, value, same);
      PickedWants(req, column, value, rows[0], same);
      TokenMatches(CellOf(rows[0], column), value);
      var rest := KeepWanted(rows[1..], req, Some(column), same);
      TokensCons(rows[0], rest, column);
      assert forall l :: l in [rows[0]] + rest <==> l == rows[0] || l in rest;
    }
  }

  lemma TokensCons(l: Labelled, rest: seq<Labelled>, column: Column)
    ensures multiset(Tokens(Cells([l] + rest, column)))
         == multiset{CellToFilterToken(CellOf(l, column))} + multiset(Tokens(Cells(rest, column)))
  {
    hide CellOf, CellToFilterToken;
    var cell := CellOf(l, column);
    assert Cells([l] + rest, column) == [cell] + Cells(rest, column);
    assert Tokens([cell] + Cells(rest, column)) == [CellToFilterToken(cell)] + Tokens(Cells(rest, column));
  }

  lemma TokenShape(cells: seq<string>, value: string)
    requires value in Tokens(cells)
    ensures Trim(value) == value && value != ""
  {
    var i :| 0 <= i < |cells| && Tokens(cells)[i] == value;
    assert value == CellToFilterToken(cells[i]);
  }

  /**
   * The count beside a value is never below the total of the list filtered by that value, and
   * equals it exactly when each counted cell is plain: no white space around it that `btrim`
   * left, not the empty-cell token itself.
   */
  lemma CountIsTotal(base: seq<Base>, labelOf: string -> Labels, same: Same, req: Request, column: Column, value: string)
    requires value in FacetTokens(base, labelOf, same, req, column)
    ensures
      var counted := FacetTokens(base, labelOf, same, req, column)[value];
      var total := Total(base, labelOf, Picked(req, column, value), same);
      && total <= counted
      && (total == counted <==>
            AllPlain(KeepWanted(Label(base, labelOf), req, Some(column), same), column, value))
  {
    TokenShape(Cells(KeepWanted(Label(base, labelOf), req, Some(column), same), column), value);
    hide KeepWanted, Label, AllPlain, Tokens, Cells, Trim;
    PickedRows(Label(base, labelOf), req, column, value, same);
  }

  const TABBED := Base("1", "100", "", "", "", "\tA", "", "", "", false, false)
  const EVERYTHING := Request(map[], "", false, false, false)

  /** A tab before the category: the menu counts one `A`, and the list filtered by it is empty. */
  lemma TabbedCellIsLost(labelOf: string -> Labels, same: Same)
    ensures FacetTokens([TABBED], labelOf, same, EVERYTHING, Category)["A"] == 1
    ensures Total([TABBED], labelOf, Picked(EVERYTHING, Category, "A"), same) == 0
  {
    var l := LabelRow(TABBED, labelOf);
    assert Label([TABBED], labelOf) == [l];
    assert TrimStart("\tA") == TrimStart("A") == "A" by {
      assert "\tA"[1..] == "A";
    }
    assert Trim("\tA") == "A" && Trim("") == "";
    assert Wanted(EVERYTHING, Some(Category), l, same);
    assert KeepWanted([l], EVERYTHING, Some(Category), same) == [l];
    TokensCons(l, [], Category);
    assert [l] + [] == [l] && Tokens(Cells([], Category)) == [];
    PickedRows([l], EVERYTHING, Category, "A", same);
    assert l in [l] && !Plain(CellOf(l, Category));
  }
}
