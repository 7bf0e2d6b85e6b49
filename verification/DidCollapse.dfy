/**
 * One row per full phone number out of the purchased DID list.
 */
module DidCollapse {
  import opened Wrappers
  import opened Text
  import opened Sorting

  datatype Item = Item(msisdn: string, providerCode: string)

  datatype Row = Row(matchKey: string, displayNumber: string, provider: string, rowId: string)

  type Hex = s: string | forall i | 0 <= i < |s| :: '0' <= s[i] <= '9' || 'a' <= s[i] <= 'f'

  /** The shared provider label, and the hex digest of a text; neither is part of this model. */
  datatype Naming = Naming(labelOf: string -> string, digestOf: string -> Hex)

  const PROVIDER_MAX := 200
  const ROW_ID_MAX := 64
  const DIGEST_KEPT := 32

  // ----- the identity of a full number

  predicate ElevenDigits(digits: string) {
    |digits| == 11 && AllDigits(digits) && (digits[0] == '7' || digits[0] == '8')
  }

  predicate TenDigits(digits: string) {
    |digits| == 10 && AllDigits(digits)
  }

  function PstnCacheKey(raw: string): Option<string> {
    var digits := Digits(raw);
    if ElevenDigits(digits) then Some(digits[1..])
    else if TenDigits(digits) then Some(digits)
    else None
  }

  function GeographyMatchKey(raw: string): Option<string> {
    var trimmed := Trim(raw);
    if trimmed == "" then None
    else if PstnCacheKey(trimmed).Some? then Some("p:" + PstnCacheKey(trimmed).value)
    else if Digits(trimmed) != "" then Some("d:" + Digits(trimmed))
    else Some("e:" + trimmed)
  }

  predicate SevenForm(s: string) {
    |s| == 11 && AllDigits(s) && s[0] == '7'
  }

  function GeographyDisplayNumber(raw: string): string {
    var trimmed := Trim(raw);
    var digits := Digits(trimmed);
    if SevenForm(digits) then digits
    else if ElevenDigits(digits) then "7" + digits[1..]
    else if digits != "" then digits
    else trimmed
  }

  /** A displayed number still has the key of the number it stands for. */
  lemma DisplayKeepsKey(raw: string)
    requires GeographyMatchKey(raw).Some?
    ensures GeographyMatchKey(GeographyDisplayNumber(raw)) == GeographyMatchKey(raw)
  {
    hide Trim, Digits;
    if Digits(Trim(raw)) != "" {
      DigitTextIsItself(GeographyDisplayNumber(raw));
    }
  }

  lemma DigitTextIsItself(s: string)
    requires s != "" && AllDigits(s)
    ensures Trim(s) == s && Digits(s) == s
  {
    assert IsDigit(s[0]) && IsDigit(s[|s| - 1]);
  }

  lemma {:induction false} HexLength(s: Hex)
    ensures Utf16Length(s) == |s|
  {
    if s != [] {
      HexLength(s[1..]);
    }
  }

  lemma NaturalLength(tail: string)
    ensures Utf16Length("did:" + tail) == 4 + Utf16Length(tail)
  {
    HexLength("d");
    Utf16LengthAppend("did:", tail);
    assert Utf16Length("did:") == 4 by {
      assert "did:"[1..] == "id:" && "id:"[1..] == "d:" && "d:"[1..] == ":";
    }
  }

  /** The id of a row: its key if that is short enough, else the head of a digest. */
  function GeographyDidRowId(matchKey: string, naming: Naming): (id: string)
    ensures "did:" <= id && Utf16Length(id) <= ROW_ID_MAX
  {
    var natural := "did:" + matchKey;
    if Utf16Length(natural) <= ROW_ID_MAX then natural
    else
      var digest := naming.digestOf(matchKey);
      var head: Hex := if |digest| > DIGEST_KEPT then digest[..DIGEST_KEPT] else digest;
      NaturalLength(head);
      HexLength(head);
      "did:" + head
  }

  /** Keys of sixty code units or fewer have distinct ids. */
  lemma ShortKeysHaveOwnIds(a: string, b: string, naming: Naming)
    requires Utf16Length(a) <= 60 && Utf16Length(b) <= 60
    requires GeographyDidRowId(a, naming) == GeographyDidRowId(b, naming)
    ensures a == b
  {
    NaturalLength(a);
    NaturalLength(b);
    assert ("did:" + a)[4..] == a && ("did:" + b)[4..] == b;
  }

  // ----- the group of one key

  function Displays(items: seq<Item>, key: string): seq<string> {
    if items == [] then []
    else if GeographyMatchKey(items[0].msisdn) == Some(key) then
      [GeographyDisplayNumber(items[0].msisdn)] + Displays(items[1..], key)
    else Displays(items[1..], key)
  }

  function ProviderLabel(item: Item, naming: Naming): string {
    var full := naming.labelOf(item.providerCode);
    if |full| > PROVIDER_MAX then full[..PROVIDER_MAX] else full
  }

  function Providers(items: seq<Item>, key: string, naming: Naming): set<string> {
    set item | item in items && GeographyMatchKey(item.msisdn) == Some(key) && ProviderLabel(item, naming) != ""
      :: ProviderLabel(item, naming)
  }

  function SevenForms(displays: seq<string>): seq<string> {
    if displays == [] then []
    else if SevenForm(displays[0]) then [displays[0]] + SevenForms(displays[1..])
    else SevenForms(displays[1..])
  }

  function PickDisplay(displays: seq<string>): string {
    var seven := Sort(SevenForms(displays), LexLe);
    if |seven| > 0 then seven[0]
    else
      var all := Sort(displays, LexLe);
      if |all| > 0 then all[0] else ""
  }

  function KeysOf(items: seq<Item>): set<string> {
    set item | item in items && GeographyMatchKey(item.msisdn).Some? :: GeographyMatchKey(item.msisdn).value
  }

  ghost function OnlyProvider(providers: set<string>): string {
    if exists p :: providers == {p} then
      var p :| providers == {p};
      p
    else ""
  }

  ghost function RowFor(items: seq<Item>, key: string, naming: Naming): Row {
    Row(key, PickDisplay(Displays(items, key)), OnlyProvider(Providers(items, key, naming)), GeographyDidRowId(key, naming))
  }

  predicate KeyLe(a: Row, b: Row) {
    LexLe(a.matchKey, b.matchKey)
  }

  /** One row per match key, in key order, each computed from its group. */
  ghost predicate IsCollapse(rows: seq<Row>, items: seq<Item>, naming: Naming) {
    && Sorted(rows, KeyLe)
    && (forall i, j | 0 <= i < j < |rows| :: rows[i].matchKey != rows[j].matchKey)
    && (forall key :: key in KeysOf(items) <==> exists i | 0 <= i < |rows| :: rows[i].matchKey == key)
    && (forall i | 0 <= i < |rows| :: rows[i] == RowFor(items, rows[i].matchKey, naming))
  }

  // ----- the order is a total order

  lemma LexIsOrder()
    ensures TotalPreorder(LexLe)
  {
    forall a: string, b: string ensures LexLe(a, b) || LexLe(b, a) {
      LexTotal(a, b);
    }
    forall a: string, b: string, c: string | LexLe(a, b) && LexLe(b, c) ensures LexLe(a, c) {
      LexTransitive(a, b, c);
    }
  }

  lemma KeyIsOrder()
    ensures TotalPreorder(KeyLe)
  {
    LexIsOrder();
    assert forall a: Row, b: Row, c: Row | KeyLe(a, b) && KeyLe(b, c) :: LexLe(a.matchKey, c.matchKey);
  }

  lemma {:induction false} SevenFormsMember(displays: seq<string>, d: string)
    ensures d in SevenForms(displays) <==> d in displays && SevenForm(d)
  {
    if displays != [] {
      SevenFormsMember(displays[1..], d);
    }
  }

  lemma {:induction false} DisplaysMember(items: seq<Item>, key: string, d: string)
    ensures d in Displays(items, key) <==>
      exists item | item in items :: GeographyMatchKey(item.msisdn) == Some(key) && GeographyDisplayNumber(item.msisdn) == d
  {
    if items != [] {
      DisplaysMember(items[1..], key, d);
      assert forall item :: item in items <==> item == items[0] || item in items[1..];
    }
  }

  lemma FirstOfSort(s: seq<string>)
    requires s != []
    ensures Sort(s, LexLe) != [] && Sort(s, LexLe)[0] in s
    ensures forall d | d in s :: LexLe(Sort(s, LexLe)[0], d)
  {
    LexIsOrder();
    SortSorts(s, LexLe);
    SameMembers(s, Sort(s, LexLe));
    var t := Sort(s, LexLe);
    forall d | d in s ensures LexLe(t[0], d) {
      var i :| 0 <= i < |t| && t[i] == d;
      LexTotal(d, d);
    }
  }

  /** The display is the least 7-form if there is one, else the least display. */
  ghost predicate IsPick(d: string, displays: seq<string>) {
    && d in displays
    && (forall e | e in displays && SevenForm(e) :: SevenForm(d))
    && (forall e | e in displays && (SevenForm(d) ==> SevenForm(e)) :: LexLe(d, e))
  }

  lemma PickIsLeast(displays: seq<string>)
    requires displays != []
    ensures IsPick(PickDisplay(displays), displays)
  {
    forall d ensures d in SevenForms(displays) <==> d in displays && SevenForm(d) {
      SevenFormsMember(displays, d);
    }
    if SevenForms(displays) != [] {
      FirstOfSort(SevenForms(displays));
    } else {
      assert forall d | d in displays :: !SevenForm(d);
      FirstOfSort(displays);
    }
  }

  lemma PickUnique(a: string, b: string, displays: seq<string>, others: seq<string>)
    requires forall d :: d in displays <==> d in others
    requires IsPick(a, displays) && IsPick(b, others)
    ensures a == b
  {
    LexAntisymmetric(a, b);
  }

  // ----- what the collapse means

  /** Only the set of items matters: any permutation, or any repetition, gives the same rows. */
  lemma CollapseIgnoresOrder(items: seq<Item>, others: seq<Item>, rows: seq<Row>, naming: Naming)
    requires forall item :: item in items <==> item in others
    ensures IsCollapse(rows, items, naming) ==> IsCollapse(rows, others, naming)
  {
    if IsCollapse(rows, items, naming) {
      assert KeysOf(items) == KeysOf(others);
      forall i | 0 <= i < |rows| ensures rows[i] == RowFor(others, rows[i].matchKey, naming) {
        var key := rows[i].matchKey;
        assert key in KeysOf(items);
        SameGroup(items, others, key, naming);
      }
    }
  }

  lemma SameGroup(items: seq<Item>, others: seq<Item>, key: string, naming: Naming)
    requires forall item :: item in items <==> item in others
    requires key in KeysOf(items)
    ensures RowFor(items, key, naming) == RowFor(others, key, naming)
  {
    assert Providers(items, key, naming) == Providers(others, key, naming);
    forall d ensures d in Displays(items, key) <==> d in Displays(others, key) {
      DisplaysMember(items, key, d);
      DisplaysMember(others, key, d);
    }
    var item :| item in items && GeographyMatchKey(item.msisdn) == Some(key);
    DisplaysMember(items, key, GeographyDisplayNumber(item.msisdn));
    PickIsLeast(Displays(items, key));
    PickIsLeast(Displays(others, key));
    PickUnique(PickDisplay(Displays(items, key)), PickDisplay(Displays(others, key)),
               Displays(items, key), Displays(others, key));
  }

  /** The collapse is a function of the items. */
  lemma CollapseUnique(a: seq<Row>, b: seq<Row>, items: seq<Item>, naming: Naming)
    requires IsCollapse(a, items, naming) && IsCollapse(b, items, naming)
    ensures a == b
  {
    KeyIsOrder();
    forall row ensures row in a <==> row in b {
      RowMember(a, items, naming, row);
      RowMember(b, items, naming, row);
    }
    assert Distinct(a) && Distinct(b);
    DistinctMultiset(a, b);
    forall x, y | x in a && y in a && KeyLe(x, y) && KeyLe(y, x) ensures x == y {
      LexAntisymmetric(x.matchKey, y.matchKey);
    }
    SortedUnique(a, b, KeyLe);
  }

  lemma RowMember(rows: seq<Row>, items: seq<Item>, naming: Naming, row: Row)
    requires IsCollapse(rows, items, naming)
    ensures row in rows <==> row.matchKey in KeysOf(items) && row == RowFor(items, row.matchKey, naming)
  {
    if row.matchKey in KeysOf(items) && row == RowFor(items, row.matchKey, naming) {
      var i :| 0 <= i < |rows| && rows[i].matchKey == row.matchKey;
      assert rows[i] == row;
    }
  }

  /**
   * A row shows a member of its group: the 7-form of the number if any member is
   * eleven digits long, else the bare ten digits, else the digits or the text itself.
   */
  lemma RowShowsMember(items: seq<Item>, key: string, naming: Naming)
    requires key in KeysOf(items)
    ensures
      var shown := RowFor(items, key, naming).displayNumber;
      && (exists item | item in items :: GeographyMatchKey(item.msisdn) == Some(key) && GeographyDisplayNumber(item.msisdn) == shown)
      && (key[0] == 'p' ==>
            shown == if exists item | item in items ::
                          GeographyMatchKey(item.msisdn) == Some(key) && ElevenDigits(Digits(Trim(item.msisdn)))
                     then "7" + key[2..] else key[2..])
      && (key[0] != 'p' ==> shown == key[2..])
  {
    var displays := Displays(items, key);
    var shown := PickDisplay(displays);
    var item :| item in items && GeographyMatchKey(item.msisdn) == Some(key);
    DisplaysMember(items, key, GeographyDisplayNumber(item.msisdn));
    PickIsLeast(displays);
    DisplaysMember(items, key, shown);
    var member :| member in items && GeographyMatchKey(member.msisdn) == Some(key)
                  && GeographyDisplayNumber(member.msisdn) == shown;
    DisplayForms(member.msisdn);
    if key[0] == 'p' {
      forall other | other in items && GeographyMatchKey(other.msisdn) == Some(key) && ElevenDigits(Digits(Trim(other.msisdn)))
        ensures SevenForm(shown)
      {
        DisplayForms(other.msisdn);
        DisplaysMember(items, key, GeographyDisplayNumber(other.msisdn));
      }
    }
  }

  lemma DisplayForms(raw: string)
    requires GeographyMatchKey(raw).Some?
    ensures
      var key, shown := GeographyMatchKey(raw).value, GeographyDisplayNumber(raw);
      && |key| > 2
      && (key[0] == 'p' ==> |key| == 12)
      && (key[0] == 'p' ==>
            (if ElevenDigits(Digits(Trim(raw))) then shown == "7" + key[2..] && SevenForm(shown)
             else shown == key[2..] && !SevenForm(shown)))
      && (key[0] != 'p' ==> shown == key[2..])
  {
  }

  /** The provider is shown exactly when the group has one distinct label. */
  lemma ProviderIffOne(items: seq<Item>, key: string, naming: Naming)
    ensures
      var shown, all := RowFor(items, key, naming).provider, Providers(items, key, naming);
      (shown != "" <==> |all| == 1) && (shown != "" ==> all == {shown})
  {
    var all := Providers(items, key, naming);
    assert "" !in all;
    if |all| == 1 {
      var p :| p in all;
      assert |all - {p}| == 0;
      assert all == {p};
    }
  }

  // ----- the code

  datatype Group = Group(displays: seq<string>, providers: set<string>)

  ghost predicate GroupsOf(groups: map<string, Group>, items: seq<Item>, naming: Naming) {
    && groups.Keys == KeysOf(items)
    && forall key | key in groups ::
         groups[key] == Group(Displays(items, key), Providers(items, key, naming))
  }

  lemma {:induction false} DisplaysSnoc(items: seq<Item>, item: Item, key: string)
    ensures Displays(items + [item], key)
         == Displays(items, key) + if GeographyMatchKey(item.msisdn) == Some(key) then [GeographyDisplayNumber(item.msisdn)] else []
  {
    if items == [] {
      assert [] + [item] == [item] && [item][1..] == [];
    } else {
      assert (items + [item])[1..] == items[1..] + [item];
      DisplaysSnoc(items[1..], item, key);
    }
  }

  lemma {:induction false} DisplaysOutside(items: seq<Item>, key: string)
    requires key !in KeysOf(items)
    ensures Displays(items, key) == []
  {
    if items != [] {
      assert items[0] in items && forall item | item in items[1..] :: item in items;
      DisplaysOutside(items[1..], key);
    }
  }

  lemma KeysSnoc(items: seq<Item>, item: Item)
    ensures
      var key := GeographyMatchKey(item.msisdn);
      KeysOf(items + [item]) == KeysOf(items) + if key.Some? then {key.value} else {}
  {
    assert forall x :: x in items + [item] <==> x in items || x == item;
  }

  lemma ProvidersSnoc(items: seq<Item>, item: Item, key: string, naming: Naming)
    ensures
      var adds := GeographyMatchKey(item.msisdn) == Some(key) && ProviderLabel(item, naming) != "";
      Providers(items + [item], key, naming) == Providers(items, key, naming) + if adds then {ProviderLabel(item, naming)} else {}
    ensures key !in KeysOf(items) ==> Providers(items, key, naming) == {}
  {
    assert forall x :: x in items + [item] <==> x in items || x == item;
  }

  /** The group map after one more item. */
  function AddItem(groups: map<string, Group>, item: Item, naming: Naming): map<string, Group> {
    var key := GeographyMatchKey(item.msisdn);
    if key.None? then groups
    else
      var was := if key.value in groups then groups[key.value] else Group([], {});
      var name := ProviderLabel(item, naming);
      groups[key.value := Group(was.displays + [GeographyDisplayNumber(item.msisdn)],
                                if name != "" then was.providers + {name} else was.providers)]
  }

  lemma AddItemAt(groups: map<string, Group>, items: seq<Item>, item: Item, naming: Naming, key: string)
    requires GroupsOf(groups, items, naming)
    ensures key in AddItem(groups, item, naming) <==> key in KeysOf(items + [item])
    ensures key in AddItem(groups, item, naming) ==>
      AddItem(groups, item, naming)[key] == Group(Displays(items + [item], key), Providers(items + [item], key, naming))
  {
    hide Displays, Providers, KeysOf, GeographyMatchKey, ProviderLabel, GeographyDisplayNumber;
    KeysSnoc(items, item);
    DisplaysSnoc(items, item, key);
    ProvidersSnoc(items, item, key, naming);
    if key !in groups {
      DisplaysOutside(items, key);
    }
  }

  lemma AddItemGroups(groups: map<string, Group>, items: seq<Item>, item: Item, naming: Naming)
    requires GroupsOf(groups, items, naming)
    ensures GroupsOf(AddItem(groups, item, naming), items + [item], naming)
  {
    hide AddItem, Displays, Providers, KeysOf;
    forall key: string
      ensures key in AddItem(groups, item, naming) <==> key in KeysOf(items + [item])
      ensures key in AddItem(groups, item, naming) ==>
        AddItem(groups, item, naming)[key] == Group(Displays(items + [item], key), Providers(items + [item], key, naming))
    {
      AddItemAt(groups, items, item, naming, key);
    }
  }

  /** First pass: the groups, and their keys in insertion order. */
  method GroupItems(items: seq<Item>, naming: Naming) returns (groups: map<string, Group>, order: seq<string>)
    ensures GroupsOf(groups, items, naming)
    ensures Distinct(order) && forall key :: key in groups <==> key in order
  {
    groups, order := map[], [];
    for k := 0 to |items|
      invariant GroupsOf(groups, items[..k], naming)
      invariant Distinct(order) && forall key :: key in groups <==> key in order
    {
      assert items[..k + 1] == items[..k] + [items[k]];
      AddItemGroups(groups, items[..k], items[k], naming);
      hide GroupsOf;
      var key := GeographyMatchKey(items[k].msisdn);
      if key.None? {
        continue;
      }
      var group := if key.value in groups then groups[key.value] else Group([], {});
      if key.value !in groups {
        order := order + [key.value];
      }
      var name := ProviderLabel(items[k], naming);
      groups := groups[key.value := Group(group.displays + [GeographyDisplayNumber(items[k].msisdn)],
                                          if name != "" then group.providers + {name} else group.providers)];
    }
    assert items[..|items|] == items;
  }

  method RowOfGroup(key: string, group: Group, ghost items: seq<Item>, naming: Naming) returns (row: Row)
    requires group == Group(Displays(items, key), Providers(items, key, naming))
    ensures row == RowFor(items, key, naming)
  {
    hide Displays, Providers, OnlyProvider, PickDisplay;
    var provider := "";
    if |group.providers| == 1 {
      provider :| provider in group.providers;
    }
    ProviderShown(group.providers, provider);
    row := Row(key, PickDisplay(group.displays), provider, GeographyDidRowId(key, naming));
  }

  method CollapseDidSources(items: seq<Item>, naming: Naming) returns (rows: seq<Row>)
    ensures IsCollapse(rows, items, naming)
  {
    var groups, order := GroupItems(items, naming);
    hide RowFor, KeysOf, Displays, Providers, IsCollapse;
    var unsorted: seq<Row> := [];
    for k := 0 to |order|
      invariant |unsorted| == k
      invariant forall i | 0 <= i < k :: unsorted[i] == RowFor(items, order[i], naming)
    {
      assert order[k] in groups;
      var row := RowOfGroup(order[k], groups[order[k]], items, naming);
      unsorted := unsorted + [row];
    }
    SortedRows(unsorted, order, items, naming);
    rows := Sort(unsorted, KeyLe);
  }

  lemma ProviderShown(providers: set<string>, provider: string)
    requires if |providers| == 1 then provider in providers else provider == ""
    ensures OnlyProvider(providers) == provider
  {
    if |providers| == 1 {
      assert |providers - {provider}| == 0;
      assert providers == {provider};
    }
  }

  lemma SortedRows(unsorted: seq<Row>, order: seq<string>, items: seq<Item>, naming: Naming)
    requires |unsorted| == |order| && Distinct(order)
    requires forall i | 0 <= i < |order| :: unsorted[i] == RowFor(items, order[i], naming)
    requires forall key :: key in KeysOf(items) <==> key in order
    ensures IsCollapse(Sort(unsorted, KeyLe), items, naming)
  {
    var rows := Sort(unsorted, KeyLe);
    forall i | 0 <= i < |order| ensures unsorted[i].matchKey == order[i] {
      RowHasKey(items, order[i], naming);
    }
    hide RowFor, KeysOf, Sort, Sorted, KeyLe, Distinct;
    SortedFacts(unsorted);
    forall i | 0 <= i < |rows| ensures rows[i] == RowFor(items, rows[i].matchKey, naming) && rows[i].matchKey in order {
      RowFromOrder(unsorted, order, items, naming, rows[i]);
    }
    forall key | key in order ensures exists i | 0 <= i < |rows| :: rows[i].matchKey == key {
      var k :| 0 <= k < |order| && order[k] == key;
      assert unsorted[k] in rows;
    }
  }

  lemma RowFromOrder(unsorted: seq<Row>, order: seq<string>, items: seq<Item>, naming: Naming, row: Row)
    requires row in unsorted && |unsorted| == |order|
    requires forall i | 0 <= i < |order| :: unsorted[i] == RowFor(items, order[i], naming) && unsorted[i].matchKey == order[i]
    ensures row.matchKey in order && row == RowFor(items, row.matchKey, naming)
  {
    hide RowFor;
    var k :| 0 <= k < |unsorted| && unsorted[k] == row;
    assert order[k] in order;
  }

  lemma SortedFacts(unsorted: seq<Row>)
    requires forall i, j | 0 <= i < j < |unsorted| :: unsorted[i].matchKey != unsorted[j].matchKey
    ensures
      var rows := Sort(unsorted, KeyLe);
      && Sorted(rows, KeyLe)
      && (forall row :: row in rows <==> row in unsorted)
      && forall i, j | 0 <= i < j < |rows| :: rows[i].matchKey != rows[j].matchKey
  {
    KeyIsOrder();
    SortSorts(unsorted, KeyLe);
    SameMembers(unsorted, Sort(unsorted, KeyLe));
    StaysDistinct(unsorted, Sort(unsorted, KeyLe));
  }

  lemma RowHasKey(items: seq<Item>, key: string, naming: Naming)
    ensures RowFor(items, key, naming).matchKey == key
  {
  }

  lemma StaysDistinct(unsorted: seq<Row>, rows: seq<Row>)
    requires multiset(unsorted) == multiset(rows)
    requires forall i, j | 0 <= i < j < |unsorted| :: unsorted[i].matchKey != unsorted[j].matchKey
    ensures forall i, j | 0 <= i < j < |rows| :: rows[i].matchKey != rows[j].matchKey
  {
    SameMembers(unsorted, rows);
    forall i, j | 0 <= i < j < |rows| ensures rows[i].matchKey != rows[j].matchKey {
      assert rows[i] in unsorted && rows[j] in unsorted;
      if rows[i].matchKey == rows[j].matchKey {
        assert rows[i] == rows[j];
        assert Distinct(unsorted);
        DistinctRearranged(unsorted, rows);
      }
    }
  }
}
