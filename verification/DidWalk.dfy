/**
 * One walk over the purchased DID list: it yields rows only if every page agrees on
 * the total, the objects add up to it, and no pair is repeated.
 */
module DidWalk {
  import opened Wrappers
  import opened Text
  import opened DidCollapse

  const DID_SOURCE_MAX_TOTAL := 250_000
  const CATALOG_EXPORT_PAGE_SIZE := 500

  /** A JSON field as the walk tells its values apart. */
  datatype Field = Missing | Str(text: string) | SafeInteger(decimal: string) | Unreadable

  datatype Raw = NotObject | Record(inventoryKind: Field, msisdn: Field, providerCode: Field)

  datatype Code = TOTAL | TOTAL_CHANGED | KIND | MSISDN | DUPLICATE | SHORT | LEASE | ERROR

  /** `total` is None when it is not an integer. */
  datatype Page = Page(items: seq<Raw>, total: Option<int>)

  /** One page request: is the lease still held before it, and what came back. */
  datatype Load = Load(held: bool, page: Option<Page>, size: int)

  function ReadMsisdn(f: Field): Option<string> {
    match f
    case Missing => Some("")
    case Str(text) => Some(Trim(text))
    case SafeInteger(decimal) => Some(decimal)
    case Unreadable => None
  }

  function ReadProviderCode(f: Field): Option<string> {
    match f
    case Missing => Some("")
    case Str(text) => Some(Trim(text))
    case SafeInteger(_) => None
    case Unreadable => None
  }

  function PairKey(item: Item): string {
    item.msisdn + ['\0'] + item.providerCode
  }

  // ----- what a complete walk is

  predicate Purchased(raw: Raw) {
    raw.Record? && raw.inventoryKind == Str("purchased")
  }

  predicate Acceptable(raw: Raw) {
    Purchased(raw) && ReadMsisdn(raw.msisdn).Some? && ReadProviderCode(raw.providerCode).Some?
  }

  function ItemOf(raw: Raw): Item
    requires Acceptable(raw)
  {
    Item(ReadMsisdn(raw.msisdn).value, ReadProviderCode(raw.providerCode).value)
  }

  predicate AllAcceptable(raws: seq<Raw>) {
    forall i | 0 <= i < |raws| :: Acceptable(raws[i])
  }

  /** The items a list of objects contributes: those with a number. */
  function ItemsOf(raws: seq<Raw>): seq<Item>
    requires AllAcceptable(raws)
  {
    if raws == [] then []
    else
      var init := ItemsOf(raws[..|raws| - 1]);
      var item := ItemOf(raws[|raws| - 1]);
      if item.msisdn == "" then init else init + [item]
  }

  ghost predicate NoRepeatedPair(items: seq<Item>) {
    forall i, j | 0 <= i < j < |items| :: PairKey(items[i]) != PairKey(items[j])
  }

  function Raws(pages: seq<Page>): seq<Raw> {
    if pages == [] then [] else Raws(pages[..|pages| - 1]) + pages[|pages| - 1].items
  }

  predicate GoodTotal(total: Option<int>) {
    total.Some? && 0 <= total.value <= DID_SOURCE_MAX_TOTAL
  }

  ghost predicate GoodRaws(raws: seq<Raw>) {
    AllAcceptable(raws) && NoRepeatedPair(ItemsOf(raws))
  }

  ghost predicate OneTotal(pages: seq<Page>) {
    && (forall i | 0 <= i < |pages| :: GoodTotal(pages[i].total))
    && (forall i, j | 0 <= i < |pages| && 0 <= j < |pages| :: pages[i].total == pages[j].total)
  }

  ghost predicate CompleteWalk(pages: seq<Page>) {
    && pages != []
    && OneTotal(pages)
    && GoodRaws(Raws(pages))
    && |Raws(pages)| == pages[0].total.value
  }

  // ----- which pages a drain takes

  predicate LastPage(page: Page, size: int, n: nat) {
    var accepted := if size >= 1 then size else CATALOG_EXPORT_PAGE_SIZE;
    || page.items == []
    || |page.items| < accepted
    || (page.total.Some? && 0 <= page.total.value <= n * accepted)
  }

  /** The pages of a drain that reaches its own stop with the lease held, numbering them from `n`. */
  function DrainPages(script: seq<Load>, n: nat): Option<seq<Page>> {
    if script == [] || !script[0].held || script[0].page.None? then None
    else
      var page := script[0].page.value;
      if LastPage(page, script[0].size, n) then Some([page])
      else
        match DrainPages(script[1..], n + 1)
        case None => None
        case Some(rest) => Some([page] + rest)
  }

  // ----- prefixes of good walks are good

  lemma AcceptableParts(a: seq<Raw>, b: seq<Raw>)
    requires AllAcceptable(a + b)
    ensures AllAcceptable(a) && AllAcceptable(b)
  {
    assert forall i | 0 <= i < |a| :: (a + b)[i] == a[i];
    assert forall i | 0 <= i < |b| :: (a + b)[|a| + i] == b[i];
  }

  lemma {:induction false} ItemsOfAppend(a: seq<Raw>, b: seq<Raw>)
    requires AllAcceptable(a + b)
    ensures AllAcceptable(a) && AllAcceptable(b)
    ensures ItemsOf(a + b) == ItemsOf(a) + ItemsOf(b)
    decreases |b|
  {
    AcceptableParts(a, b);
    hide AllAcceptable, Acceptable;
    if b == [] {
      assert a + b == a;
    } else {
      var init := b[..|b| - 1];
      assert (a + b)[..|a + b| - 1] == a + init;
      assert (a + init) + [b[|b| - 1]] == a + b;
      AcceptableParts(a + init, [b[|b| - 1]]);
      ItemsOfAppend(a, init);
    }
  }

  lemma {:induction false} RawsAppend(a: seq<Page>, b: seq<Page>)
    ensures Raws(a + b) == Raws(a) + Raws(b)
    decreases |b|
  {
    if b == [] {
      assert a + b == a;
    } else {
      assert (a + b)[..|a + b| - 1] == a + b[..|b| - 1];
      RawsAppend(a, b[..|b| - 1]);
    }
  }

  lemma GoodPrefix(a: seq<Raw>, b: seq<Raw>)
    requires GoodRaws(a + b)
    ensures GoodRaws(a)
  {
    ItemsOfAppend(a, b);
    var all := ItemsOf(a + b);
    assert forall i | 0 <= i < |ItemsOf(a)| :: all[i] == ItemsOf(a)[i];
  }

  // ----- the code

  class PurchasedWalk {
    var total: Option<int>
    var seen: nat
    var pairs: set<string>
    var items: seq<Item>

    constructor ()
      ensures total == None && seen == 0 && pairs == {} && items == []
    {
      total, seen, pairs, items := None, 0, {}, [];
    }

    /** The walk holds exactly what these accepted objects contribute. */
    ghost predicate Holds(raws: seq<Raw>)
      reads this
    {
      && GoodRaws(raws)
      && seen == |raws|
      && items == ItemsOf(raws)
      && (forall i | 0 <= i < |items| :: PairKey(items[i]) in pairs)
      && (forall key | key in pairs :: exists i | 0 <= i < |items| :: PairKey(items[i]) == key)
    }

    method NotePurchasedTotal(reported: Option<int>) returns (error: Option<Code>)
      modifies this`total
      ensures error.None? <==> GoodTotal(reported) && (old(total).None? || old(total) == reported)
      ensures error.None? ==> total == reported && reported.Some?
    {
      if reported.None? || reported.value < 0 || reported.value > DID_SOURCE_MAX_TOTAL {
        return Some(TOTAL);
      }
      if total.None? {
        total := reported;
      } else if total != reported {
        return Some(TOTAL_CHANGED);
      }
      return None;
    }

    method AcceptOne(raw: Raw, ghost raws: seq<Raw>) returns (error: Option<Code>)
      requires Holds(raws)
      modifies this`seen, this`pairs, this`items
      ensures error.None? <==> GoodRaws(raws + [raw])
      ensures error.None? ==> Holds(raws + [raw])
    {
      ghost var more := raws + [raw];
      assert more[..|more| - 1] == raws && more[|more| - 1] == raw;
      seen := seen + 1;
      if raw.NotObject? || raw.inventoryKind != Str("purchased") {
        return Some(KIND);
      }
      var msisdn := ReadMsisdn(raw.msisdn);
      var providerCode := ReadProviderCode(raw.providerCode);
      if msisdn.None? || providerCode.None? {
        return Some(MSISDN);
      }
      assert AllAcceptable(more);
      if msisdn.value == "" {
        return None;
      }
      var item := Item(msisdn.value, providerCode.value);
      assert ItemsOf(more) == items + [item];
      if PairKey(item) in pairs {
        ghost var i :| 0 <= i < |items| && PairKey(items[i]) == PairKey(item);
        assert ItemsOf(more)[i] == items[i] && ItemsOf(more)[|items|] == item;
        return Some(DUPLICATE);
      }
      hide PairKey, ItemsOf;
      ghost var before := items;
      pairs := pairs + {PairKey(item)};
      items := items + [item];
      assert items[|before|] == item && forall i | 0 <= i < |before| :: items[i] == before[i];
      return None;
    }

    method AcceptPurchasedItems(page: seq<Raw>, ghost raws: seq<Raw>) returns (error: Option<Code>)
      requires Holds(raws)
      modifies this`seen, this`pairs, this`items
      ensures error.None? <==> GoodRaws(raws + page)
      ensures error.None? ==> Holds(raws + page)
    {
      assert raws + page[..0] == raws;
      for k := 0 to |page|
        invariant Holds(raws + page[..k])
      {
        error := AcceptOne(page[k], raws + page[..k]);
        assert raws + page[..k] + [page[k]] == raws + page[..k + 1];
        if error.Some? {
          if GoodRaws(raws + page) {
            assert raws + page == (raws + page[..k + 1]) + page[k + 1..];
            GoodPrefix(raws + page[..k + 1], page[k + 1..]);
          }
          return;
        }
      }
      assert page[..|page|] == page;
      return None;
    }
  }

  /** What is known between two pages: `pages` were taken, the rest of the script decides. */
  ghost predicate Underway(script: seq<Load>, k: nat, pages: seq<Page>) {
    && k <= |script| && |pages| == k
    && DrainPages(script, 1) == Prepend(pages, DrainPages(script[k..], k + 1))
  }

  ghost function Prepend(pages: seq<Page>, rest: Option<seq<Page>>): Option<seq<Page>> {
    match rest
    case None => None
    case Some(more) => Some(pages + more)
  }

  lemma {:induction false} TakePage(script: seq<Load>, k: nat, pages: seq<Page>)
    requires Underway(script, k, pages) && k < |script| && script[k].held && script[k].page.Some?
    ensures
      var page := script[k].page.value;
      if LastPage(page, script[k].size, k + 1) then DrainPages(script, 1) == Some(pages + [page])
      else Underway(script, k + 1, pages + [page])
  {
    var page := script[k].page.value;
    assert script[k..][0] == script[k] && script[k..][1..] == script[k + 1..];
    var rest := DrainPages(script[k + 1..], k + 2);
    if !LastPage(page, script[k].size, k + 1) && rest.Some? {
      assert pages + ([page] + rest.value) == (pages + [page]) + rest.value;
    }
  }

  lemma {:induction false} DrainCut(script: seq<Load>, k: nat, pages: seq<Page>)
    requires Underway(script, k, pages)
    requires k < |script| && script[k].held ==> script[k].page.None?
    ensures DrainPages(script, 1).None?
  {
    assert k < |script| ==> script[k..][0] == script[k];
  }

  lemma {:induction false} DrainStarts(script: seq<Load>)
    ensures Underway(script, 0, [])
  {
    assert script[0..] == script;
    var all := DrainPages(script, 1);
    assert all.Some? ==> [] + all.value == all.value;
  }

  lemma OneTotalPrefix(a: seq<Page>, b: seq<Page>)
    requires OneTotal(a + b)
    ensures OneTotal(a)
  {
    assert forall i | 0 <= i < |a| :: a[i] == (a + b)[i];
  }

  lemma PrefixOfComplete(pages: seq<Page>, page: Page, more: seq<Page>)
    requires CompleteWalk(pages + [page] + more)
    ensures OneTotal(pages + [page]) && GoodRaws(Raws(pages) + page.items)
  {
    hide Raws, GoodRaws, OneTotal;
    var first := pages + [page];
    OneTotalPrefix(first, more);
    RawsAppend(first, more);
    OneMorePage(pages, page);
    GoodPrefix(Raws(first), Raws(more));
  }

  /** A bad total or a bad object on the next page spoils every way the walk can go on. */
  lemma SpoiledPage(script: seq<Load>, k: nat, pages: seq<Page>)
    requires Underway(script, k, pages) && k < |script| && script[k].held && script[k].page.Some?
    requires !OneTotal(pages + [script[k].page.value]) || !GoodRaws(Raws(pages) + script[k].page.value.items)
    ensures DrainPages(script, 1).Some? ==> !CompleteWalk(DrainPages(script, 1).value)
  {
    hide OneTotal, GoodRaws, CompleteWalk, Raws;
    var page := script[k].page.value;
    assert script[k..][0] == script[k];
    if DrainPages(script, 1).Some? {
      var all := DrainPages(script, 1).value;
      var more := DrainPages(script[k..], k + 1).value;
      assert more[0] == page && all == pages + [page] + more[1..];
      if CompleteWalk(all) {
        PrefixOfComplete(pages, page, more[1..]);
      }
    }
  }

  /**
   * The walk succeeds exactly when its drain ends with the lease held and the pages
   * are a complete walk, and its rows are then the collapse of all their items.
   */
  method CollectPurchasedSources(script: seq<Load>, naming: Naming) returns (result: Result<seq<Row>, Code>)
    ensures result.Success? <==> DrainPages(script, 1).Some? && CompleteWalk(DrainPages(script, 1).value)
    ensures result.Success? ==>
      IsCollapse(result.value, ItemsOf(Raws(DrainPages(script, 1).value)), naming)
  {
    hide Underway, DrainPages, LastPage, OneTotal, GoodRaws, CompleteWalk, Raws, GoodTotal;
    var walk := new PurchasedWalk();
    ghost var pages: seq<Page> := [];
    DrainStarts(script);
    NothingYet();
    var k := 0;
    while true
      invariant 0 <= k <= |script| && |pages| == k
      invariant Underway(script, k, pages) && OneTotal(pages)
      invariant walk.Holds(Raws(pages))
      invariant if pages == [] then walk.total.None? else walk.total == pages[0].total && walk.total.Some?
      decreases |script| - k
    {
      if k == |script| {
        DrainCut(script, k, pages);
        return Failure(ERROR);
      }
      if !script[k].held {
        DrainCut(script, k, pages);
        return Failure(LEASE);
      }
      if script[k].page.None? {
        DrainCut(script, k, pages);
        return Failure(ERROR);
      }
      var page := script[k].page.value;
      AgreesWithFirst(pages, page);
      var totalError := walk.NotePurchasedTotal(page.total);
      if totalError.Some? {
        SpoiledPage(script, k, pages);
        return Failure(totalError.value);
      }
      ghost var longer := pages + [page];
      assert OneTotal(longer);
      var itemError := walk.AcceptPurchasedItems(page.items, Raws(pages));
      if itemError.Some? {
        SpoiledPage(script, k, pages);
        return Failure(itemError.value);
      }
      TakePage(script, k, pages);
      OneMorePage(pages, page);
      pages := longer;
      if LastPage(page, script[k].size, k + 1) {
        break;
      }
      k := k + 1;
    }
    result := FinishPurchasedWalk(walk, pages, naming);
  }

  lemma NothingYet()
    ensures OneTotal([]) && GoodRaws([]) && Raws([]) == [] && ItemsOf([]) == []
  {
  }

  lemma OneMorePage(pages: seq<Page>, page: Page)
    ensures Raws(pages + [page]) == Raws(pages) + page.items
  {
    assert (pages + [page])[..|pages|] == pages;
  }

  lemma AgreesWithFirst(pages: seq<Page>, page: Page)
    requires OneTotal(pages)
    ensures OneTotal(pages + [page]) <==> GoodTotal(page.total) && (pages == [] || pages[0].total == page.total)
  {
    var all := pages + [page];
    assert all[|pages|] == page;
    if pages != [] {
      assert all[0] == pages[0];
    }
    assert forall i | 0 <= i < |pages| :: all[i] == pages[i];
  }

  method FinishPurchasedWalk(walk: PurchasedWalk, ghost pages: seq<Page>, naming: Naming)
    returns (result: Result<seq<Row>, Code>)
    requires pages != [] && OneTotal(pages) && walk.Holds(Raws(pages)) && walk.total == pages[0].total
    ensures result.Success? <==> CompleteWalk(pages)
    ensures result.Success? ==> IsCollapse(result.value, ItemsOf(Raws(pages)), naming)
  {
    hide IsCollapse;
    if walk.total.None? || walk.seen != walk.total.value {
      return Failure(SHORT);
    }
    var rows := CollapseDidSources(walk.items, naming);
    return Success(rows);
  }

  // ----- what the pair key tells apart

  /** `y`'s number is `x`'s, a NUL and the head of `x`'s provider code, whose rest is `y`'s. */
  predicate Shifted(x: Item, y: Item) {
    var n := |x.msisdn|;
    && n < |y.msisdn| && y.msisdn[..n] == x.msisdn && y.msisdn[n] == '\0'
    && x.providerCode == y.msisdn[n + 1..] + (['\0'] + y.providerCode)
  }

  lemma ShiftedShares(x: Item, y: Item)
    requires Shifted(x, y)
    ensures PairKey(x) == PairKey(y)
  {
    var n := |x.msisdn|;
    assert y.msisdn == x.msisdn + (['\0'] + y.msisdn[n + 1..]);
  }

  lemma SharedIsShifted(x: Item, y: Item)
    requires PairKey(x) == PairKey(y) && |x.msisdn| < |y.msisdn|
    ensures Shifted(x, y)
  {
    var n, key := |x.msisdn|, PairKey(x);
    assert key[..n] == x.msisdn && key[n] == '\0' && key[n + 1..] == x.providerCode;
    assert PairKey(y)[..n] == y.msisdn[..n] && PairKey(y)[n] == y.msisdn[n];
    assert PairKey(y)[n + 1..] == y.msisdn[n + 1..] + (['\0'] + y.providerCode);
  }

  lemma SharedAlike(x: Item, y: Item)
    requires PairKey(x) == PairKey(y) && |x.msisdn| == |y.msisdn|
    ensures x == y
  {
    var n := |x.msisdn|;
    assert PairKey(x)[..n] == x.msisdn && PairKey(x)[n + 1..] == x.providerCode;
    assert PairKey(y)[..n] == y.msisdn && PairKey(y)[n + 1..] == y.providerCode;
  }

  /** Two pairs share a key exactly when they are one pair or one is the other shifted across a NUL. */
  lemma SameKeyIff(x: Item, y: Item)
    ensures PairKey(x) == PairKey(y) <==> x == y || Shifted(x, y) || Shifted(y, x)
  {
    if Shifted(x, y) {
      ShiftedShares(x, y);
    }
    if Shifted(y, x) {
      ShiftedShares(y, x);
    }
    if PairKey(x) == PairKey(y) {
      if |x.msisdn| < |y.msisdn| {
        SharedIsShifted(x, y);
      } else if |y.msisdn| < |x.msisdn| {
        SharedIsShifted(y, x);
      } else {
        SharedAlike(x, y);
      }
    }
  }

  /** So the walk refuses exactly a repeated pair and a pair shifted across a NUL. */
  lemma NoRepeatedPairIff(items: seq<Item>)
    ensures NoRepeatedPair(items) <==> forall i, j | 0 <= i < j < |items| ::
      items[i] != items[j] && !Shifted(items[i], items[j]) && !Shifted(items[j], items[i])
  {
    forall i, j | 0 <= i < j < |items|
      ensures PairKey(items[i]) != PairKey(items[j]) <==>
        items[i] != items[j] && !Shifted(items[i], items[j]) && !Shifted(items[j], items[i])
    {
      SameKeyIff(items[i], items[j]);
    }
    hide PairKey, Shifted;
  }

  /** Of numbers without a NUL, it refuses exactly a repeated number and provider code. */
  lemma PairsAreItems(items: seq<Item>)
    requires forall i | 0 <= i < |items| :: '\0' !in items[i].msisdn
    ensures NoRepeatedPair(items) <==> forall i, j | 0 <= i < j < |items| :: items[i] != items[j]
  {
    NoRepeatedPairIff(items);
    hide NoRepeatedPair;
    forall i, j | 0 <= i < |items| && 0 <= j < |items| ensures !Shifted(items[i], items[j]) {
    }
  }

  /** A NUL in a number lets two different pairs share a key, and the walk refuses the second. */
  lemma NulConfusesPairs()
    ensures !NoRepeatedPair([Item("1\02", "3"), Item("1", "2\03")])
  {
    var items := [Item("1\02", "3"), Item("1", "2\03")];
    assert PairKey(items[0]) == "1\02\03" == PairKey(items[1]);
  }
}
