/** The answer to one fill request: an item for every distinct id, and four counters that add up to them. */
module PstnAnswer {
  import opened Wrappers
  import opened Sorting

  datatype Entry = Entry(id: string, number: string)

  datatype Label = Label(id: string, operator: string, geography: string)

  datatype Status = Cached | Filled | Error

  datatype Item = Invalid(id: string) | Errored(id: string) | Shown(id: string, status: Status, operator: string, geography: string)

  datatype Answer = Answer(items: seq<Item>, invalid: nat, cached: nat, filled: nat, failed: nat)

  datatype PstnFillResponse = NotConfigured | Configured(answer: Answer)

  /** What the request meets: whether credentials are set, `normalize` is the phone of a number, `lookup` what a lookup of a phone ends with. */
  datatype World = World(
    configured: bool, endpoints: seq<Entry>, normalize: string -> Option<string>, cache: set<string>,
    lookup: string -> bool, labels: seq<Label>)

  // ----- a set keeps the order of first insertion

  function FirstSeen(s: seq<string>): seq<string> {
    if s == [] then []
    else
      var init, x := FirstSeen(s[..|s| - 1]), s[|s| - 1];
      if x in init then init else init + [x]
  }

  /** `x` occurs in `s` before `y` ever does. */
  ghost predicate SeenBefore(s: seq<string>, x: string, y: string) {
    exists k | 0 <= k < |s| :: s[k] == x && y !in s[..k + 1]
  }

  lemma SeenBeforeSnoc(s: seq<string>, z: string, x: string, y: string)
    ensures SeenBefore(s, x, y) ==> SeenBefore(s + [z], x, y)
    ensures x in s && y !in s ==> SeenBefore(s + [z], x, y)
  {
    if SeenBefore(s, x, y) {
      var k :| 0 <= k < |s| && s[k] == x && y !in s[..k + 1];
      assert (s + [z])[k] == x && (s + [z])[..k + 1] == s[..k + 1];
    }
  }

  /** Each member once, and in the order in which the members first occur. */
  lemma {:induction false} FirstSeenAre(s: seq<string>)
    ensures Distinct(FirstSeen(s))
    ensures forall x :: x in FirstSeen(s) <==> x in s
    ensures forall i, j | 0 <= i < j < |FirstSeen(s)| :: SeenBefore(s, FirstSeen(s)[i], FirstSeen(s)[j])
  {
    if s != [] {
      var init, x := s[..|s| - 1], s[|s| - 1];
      FirstSeenAre(init);
      assert s == init + [x];
      var before, after := FirstSeen(init), FirstSeen(s);
      hide SeenBefore;
      forall i, j | 0 <= i < j < |after| ensures SeenBefore(s, after[i], after[j]) {
        SeenBeforeSnoc(init, x, after[i], after[j]);
        assert after[i] == before[i] && before[i] in init;
        assert j < |before| ==> SeenBefore(init, before[i], before[j]);
      }
    }
  }

  method Unique(s: seq<string>) returns (out: seq<string>)
    ensures out == FirstSeen(s)
  {
    out := [];
    for k := 0 to |s|
      invariant out == FirstSeen(s[..k])
    {
      assert s[..k + 1][..k] == s[..k];
      if s[k] !in out {
        out := out + [s[k]];
      }
    }
    assert s[..|s|] == s;
  }

  // ----- what an id comes to

  /** The number of an id; of several rows a map keeps the last. */
  function NumberOf(endpoints: seq<Entry>, id: string): Option<string> {
    if endpoints == [] then None
    else if endpoints[|endpoints| - 1].id == id then Some(endpoints[|endpoints| - 1].number)
    else NumberOf(endpoints[..|endpoints| - 1], id)
  }

  function LabelOf(labels: seq<Label>, id: string): Option<Label> {
    if labels == [] then None
    else if labels[|labels| - 1].id == id then Some(labels[|labels| - 1])
    else LabelOf(labels[..|labels| - 1], id)
  }

  /** The phone of an id; an empty text is no phone. */
  function PhoneOf(w: World, id: string): Option<string> {
    var number := NumberOf(w.endpoints, id);
    if number.None? then None
    else
      var phone := w.normalize(number.value);
      if phone == Some("") then None else phone
  }

  function OutcomeOf(w: World, phone: string): Status {
    if phone in w.cache then Cached else if w.lookup(phone) then Filled else Error
  }

  function ItemOf(w: World, id: string): Item {
    var phone := PhoneOf(w, id);
    if phone.None? then Invalid(id)
    else
      var status, found := OutcomeOf(w, phone.value), LabelOf(w.labels, id);
      if status == Error || found.None? then Errored(id)
      else Shown(id, status, found.value.operator, found.value.geography)
  }

  function PhonesOf(w: World, ids: seq<string>): seq<string> {
    if ids == [] then []
    else
      var init, phone := PhonesOf(w, ids[..|ids| - 1]), PhoneOf(w, ids[|ids| - 1]);
      if phone.None? then init else init + [phone.value]
  }

  function Missing(w: World, phones: seq<string>): seq<string> {
    if phones == [] then []
    else
      var init, phone := Missing(w, phones[..|phones| - 1]), phones[|phones| - 1];
      if phone in w.cache then init else init + [phone]
  }

  function Answered(w: World, ids: seq<string>): seq<Item> {
    seq(|ids|, i requires 0 <= i < |ids| => ItemOf(w, ids[i]))
  }

  function Count(items: seq<Item>, kind: Status): nat {
    if items == [] then 0
    else
      var last := items[|items| - 1];
      Count(items[..|items| - 1], kind) + if last.Shown? && last.status == kind then 1 else 0
  }

  function CountInvalid(items: seq<Item>): nat {
    if items == [] then 0 else CountInvalid(items[..|items| - 1]) + if items[|items| - 1].Invalid? then 1 else 0
  }

  function CountErrored(items: seq<Item>): nat {
    if items == [] then 0 else CountErrored(items[..|items| - 1]) + if items[|items| - 1].Errored? then 1 else 0
  }

  /** The items are the request's, one per distinct id in first-seen order, and the counters count them. */
  ghost predicate IsAnswer(w: World, ids: seq<string>, a: Answer) {
    && a.items == Answered(w, FirstSeen(ids))
    && a.invalid == CountInvalid(a.items)
    && a.cached == Count(a.items, Cached)
    && a.filled == Count(a.items, Filled)
    && a.failed == CountErrored(a.items)
  }

  lemma {:induction false} CountersSum(items: seq<Item>)
    requires forall i | 0 <= i < |items| :: items[i].Shown? ==> items[i].status != Error
    ensures CountInvalid(items) + Count(items, Cached) + Count(items, Filled) + CountErrored(items) == |items|
  {
    if items != [] {
      CountersSum(items[..|items| - 1]);
    }
  }

  /** An answer has one item per distinct id, and its counters sum to the request. */
  lemma AnswerAddsUp(w: World, ids: seq<string>, a: Answer)
    requires IsAnswer(w, ids, a)
    ensures |a.items| == |FirstSeen(ids)| && a.invalid + a.cached + a.filled + a.failed == |FirstSeen(ids)|
    ensures forall i, j | 0 <= i < j < |a.items| :: a.items[i].id != a.items[j].id
    ensures forall i | 0 <= i < |a.items| :: a.items[i].id == FirstSeen(ids)[i]
  {
    FirstSeenAre(ids);
    hide PhoneOf, OutcomeOf, LabelOf;
    CountersSum(a.items);
  }

  // ----- the code

  method NumberMap(endpoints: seq<Entry>) returns (numbers: map<string, string>)
    ensures forall id :: (id in numbers <==> NumberOf(endpoints, id).Some?) && (id in numbers ==> NumberOf(endpoints, id) == Some(numbers[id]))
  {
    numbers := map[];
    for k := 0 to |endpoints|
      invariant forall id :: id in numbers <==> NumberOf(endpoints[..k], id).Some?
      invariant forall id | id in numbers :: NumberOf(endpoints[..k], id) == Some(numbers[id])
    {
      assert endpoints[..k + 1][..k] == endpoints[..k];
      numbers := numbers[endpoints[k].id := endpoints[k].number];
    }
    assert endpoints[..|endpoints|] == endpoints;
  }

  method LabelMap(labels: seq<Label>) returns (byId: map<string, Label>)
    ensures forall id :: (id in byId <==> LabelOf(labels, id).Some?) && (id in byId ==> LabelOf(labels, id) == Some(byId[id]))
  {
    byId := map[];
    for k := 0 to |labels|
      invariant forall id :: id in byId <==> LabelOf(labels[..k], id).Some?
      invariant forall id | id in byId :: LabelOf(labels[..k], id) == Some(byId[id])
    {
      assert labels[..k + 1][..k] == labels[..k];
      byId := byId[labels[k].id := labels[k]];
    }
    assert labels[..|labels|] == labels;
  }

  /** The phones to look up: those of the request that are not cached, each once. */
  method PhonesToLookUp(w: World, ids: seq<string>, numbers: map<string, string>) returns (phones: seq<string>, missing: seq<string>)
    requires forall id :: (id in numbers <==> NumberOf(w.endpoints, id).Some?) && (id in numbers ==> NumberOf(w.endpoints, id) == Some(numbers[id]))
    ensures phones == FirstSeen(PhonesOf(w, ids)) && missing == Missing(w, phones)
  {
    var all: seq<string> := [];
    for k := 0 to |ids|
      invariant all == PhonesOf(w, ids[..k])
    {
      assert ids[..k + 1][..k] == ids[..k];
      var phone := if ids[k] in numbers then w.normalize(numbers[ids[k]]) else None;
      if phone.Some? && phone.value != "" {
        all := all + [phone.value];
      }
    }
    assert ids[..|ids|] == ids;
    phones := Unique(all);
    missing := [];
    for k := 0 to |phones|
      invariant missing == Missing(w, phones[..k])
    {
      assert phones[..k + 1][..k] == phones[..k];
      if phones[k] !in w.cache {
        missing := missing + [phones[k]];
      }
    }
    assert phones[..|phones|] == phones;
  }

  lemma {:induction false} MissingAre(w: World, phones: seq<string>)
    requires Distinct(phones)
    ensures forall p :: p in Missing(w, phones) <==> p in phones && p !in w.cache
    ensures Distinct(Missing(w, phones))
  {
    if phones != [] {
      var init := phones[..|phones| - 1];
      MissingAre(w, init);
      assert phones == init + [phones[|phones| - 1]];
    }
  }

  lemma {:induction false} PhonesAre(w: World, ids: seq<string>)
    ensures forall p :: p in PhonesOf(w, ids) <==> exists id | id in ids :: PhoneOf(w, id) == Some(p)
  {
    if ids != [] {
      var init := ids[..|ids| - 1];
      PhonesAre(w, init);
      assert ids == init + [ids[|ids| - 1]];
      assert forall id :: id in ids <==> id in init || id == ids[|ids| - 1];
      hide PhoneOf;
    }
  }

  /** Every uncached phone of the request is looked up once, and no other. */
  lemma EachMissingOnce(w: World, ids: seq<string>, p: string)
    ensures
      var asked := Missing(w, FirstSeen(PhonesOf(w, FirstSeen(ids))));
      Distinct(asked) && (p in asked <==> p !in w.cache && exists id | id in ids :: PhoneOf(w, id) == Some(p))
  {
    FirstSeenAre(ids);
    PhonesAre(w, FirstSeen(ids));
    FirstSeenAre(PhonesOf(w, FirstSeen(ids)));
    MissingAre(w, FirstSeen(PhonesOf(w, FirstSeen(ids))));
    hide PhoneOf, Missing, FirstSeen, PhonesOf;
  }

  /** Without credentials nothing is read and nothing is looked up. */
  method FillNumberGeographyPstn(ids: seq<string>, w: World) returns (r: PstnFillResponse, asked: seq<string>)
    ensures !w.configured ==> r == NotConfigured && asked == []
    ensures w.configured ==>
      && r.Configured? && IsAnswer(w, ids, r.answer)
      && asked == Missing(w, FirstSeen(PhonesOf(w, FirstSeen(ids))))
  {
    hide ItemOf;
    var uniqueIds := Unique(ids);
    if !w.configured {
      return NotConfigured, [];
    }
    var numbers := NumberMap(w.endpoints);
    var phones;
    phones, asked := PhonesToLookUp(w, uniqueIds, numbers);
    var labels := LabelMap(w.labels);
    var a := Answer([], 0, 0, 0, 0);
    for k := 0 to |uniqueIds|
      invariant a.items == Answered(w, uniqueIds[..k])
      invariant a.invalid == CountInvalid(a.items) && a.failed == CountErrored(a.items)
      invariant a.cached == Count(a.items, Cached) && a.filled == Count(a.items, Filled)
    {
      var id := uniqueIds[k];
      assert Answered(w, uniqueIds[..k + 1]) == Answered(w, uniqueIds[..k]) + [ItemOf(w, id)];
      var phone := if id in numbers then w.normalize(numbers[id]) else None;
      var item := SlotItem(w, id, phone, labels);
      assert (a.items + [item])[..k] == a.items;
      a := Answer(
        a.items + [item],
        if item.Invalid? then a.invalid + 1 else a.invalid,
        if item.Shown? && item.status == Cached then a.cached + 1 else a.cached,
        if item.Shown? && item.status == Filled then a.filled + 1 else a.filled,
        if item.Errored? then a.failed + 1 else a.failed);
    }
    assert uniqueIds[..|uniqueIds|] == uniqueIds;
    r := Configured(a);
  }

  method SlotItem(w: World, id: string, phone: Option<string>, labels: map<string, Label>) returns (item: Item)
    requires phone == if NumberOf(w.endpoints, id).Some? then w.normalize(NumberOf(w.endpoints, id).value) else None
    requires (id in labels <==> LabelOf(w.labels, id).Some?) && (id in labels ==> LabelOf(w.labels, id) == Some(labels[id]))
    ensures item == ItemOf(w, id)
  {
    if phone.None? || phone.value == "" {
      return Invalid(id);
    }
    var status := OutcomeOf(w, phone.value);
    if status == Cached || status == Filled {
      if id !in labels {
        return Errored(id);
      }
      return Shown(id, status, labels[id].operator, labels[id].geography);
    }
    return Errored(id);
  }
}
