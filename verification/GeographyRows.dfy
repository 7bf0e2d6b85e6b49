/**
 * The relation every geography query starts from: phone endpoints left-joined to the
 * visible DID rows on one match key, and below them the DID rows no endpoint has.
 */
module GeographyRows {
  import opened Wrappers
  import opened Text
  import opened DidCollapse
  import DidProtocol

  const PREMIUM_CAPACITY := "Премиум"
  const STATUS_NOT_IN_RTU := "Нет в РТУ"
  const FINENUMBERS_PROVIDER_CODE := "finenumbers"
  const GEOGRAPHY_MANUAL_SOURCE := "Вручную"

  /** A `phone_endpoints` row; the options are the keys its JSON may lack. */
  datatype Endpoint = Endpoint(
    id: string, endpointNumber: Option<string>, name: string,
    description: Option<string>, capacity: Option<string>, supplier: Option<string>,
    category: Option<string>, status: Option<string>, title: Option<string>)

  datatype Base = Base(
    id: string, number: string, client: string, capacity: string, supplier: string, category: string,
    activation: string, title: string, source: string, missing: bool, unregistered: bool)

  /** `unregistered` holds the phones with that status. */
  datatype Db = Db(endpoints: seq<Endpoint>, did: seq<Row>, unregistered: set<string>)

  // ----- SQL text functions

  function BTrimStart(s: string): string {
    if s != [] && s[0] == ' ' then BTrimStart(s[1..]) else s
  }

  function BTrimEnd(s: string): string {
    if s != [] && s[|s| - 1] == ' ' then BTrimEnd(s[..|s| - 1]) else s
  }

  /** `btrim` drops spaces only, unlike ECMAScript's `trim`. */
  function BTrim(s: string): string {
    BTrimEnd(BTrimStart(s))
  }

  function Lower(s: string): string {
    if s == [] then []
    else [if 'A' <= s[0] <= 'Z' then s[0] + ' ' else s[0]] + Lower(s[1..])
  }

  function Cell(value: Option<string>): string {
    BTrim(if value.Some? then value.value else "")
  }

  /** The key as the query computes it, on a number already trimmed by `btrim`. */
  function MatchKeySql(number: string): string {
    var digits := Digits(number);
    if ElevenDigits(digits) then "p:" + digits[1..]
    else if TenDigits(digits) then "p:" + digits
    else if digits != "" then "d:" + digits
    else "e:" + number
  }

  // ----- the two key computations

  lemma {:induction false} DigitsAppend(a: string, b: string)
    ensures Digits(a + b) == Digits(a) + Digits(b)
  {
    if a == [] {
      assert a + b == b;
    } else {
      assert (a + b)[1..] == a[1..] + b;
      DigitsAppend(a[1..], b);
    }
  }

  lemma DigitsDropLast(s: string)
    requires s != [] && !IsDigit(s[|s| - 1])
    ensures Digits(s[..|s| - 1]) == Digits(s)
  {
    var last := [s[|s| - 1]];
    DigitsAppend(s[..|s| - 1], last);
    assert s == s[..|s| - 1] + last;
    assert Digits(last) == [];
  }

  lemma {:induction false} TrimKeepsDigits(s: string)
    ensures Digits(TrimStart(s)) == Digits(s) && Digits(TrimEnd(s)) == Digits(s)
  {
    if s != [] && IsSpace(s[0]) {
      TrimKeepsDigits(s[1..]);
    }
    if s != [] && IsSpace(s[|s| - 1]) {
      TrimKeepsDigits(s[..|s| - 1]);
      DigitsDropLast(s);
    }
  }

  lemma {:induction false} BTrimKeepsDigits(s: string)
    ensures Digits(BTrimStart(s)) == Digits(s) && Digits(BTrimEnd(s)) == Digits(s)
  {
    if s != [] && s[0] == ' ' {
      BTrimKeepsDigits(s[1..]);
    }
    if s != [] && s[|s| - 1] == ' ' {
      BTrimKeepsDigits(s[..|s| - 1]);
      DigitsDropLast(s);
    }
  }

  lemma TrimsKeepDigits(raw: string)
    ensures Digits(Trim(raw)) == Digits(raw) == Digits(BTrim(raw))
  {
    TrimKeepsDigits(raw);
    TrimKeepsDigits(TrimStart(raw));
    BTrimKeepsDigits(raw);
    BTrimKeepsDigits(BTrimStart(raw));
  }

  /**
   * The query and the DID walk give a number the same key exactly when it has a digit
   * or when both trims leave the same text.
   */
  lemma SqlKeyAgrees(raw: string)
    requires BTrim(raw) != ""
    ensures GeographyMatchKey(raw) == Some(MatchKeySql(BTrim(raw))) <==> Digits(raw) != "" || Trim(raw) == BTrim(raw)
  {
    hide Digits, Trim, BTrim, IsDigit;
    TrimsKeepDigits(raw);
    EmptyHasNoDigits();
    if Digits(raw) == "" && Trim(raw) != "" {
      var a, b := "e:" + Trim(raw), "e:" + BTrim(raw);
      assert a[2..] == Trim(raw) && b[2..] == BTrim(raw);
    }
  }

  /** A tab stays under `btrim` and not under `trim`, so without a digit the two keys differ. */
  lemma TabbedKeysDiffer()
    ensures BTrim("\tA") == "\tA" && MatchKeySql("\tA") == "e:\tA"
    ensures GeographyMatchKey("\tA") == Some("e:A")
  {
    assert "\tA"[1..] == "A" && "A"[1..] == "";
    assert TrimStart("\tA") == TrimStart("A") == "A";
    assert Trim("\tA") == "A";
    assert Digits("A") == Digits("");
    assert Digits("\tA") == "";
    assert PstnCacheKey("A").None?;
    hide Trim, TrimStart, Digits, PstnCacheKey;
    assert "e:" + "A" == "e:A";
  }

  lemma EmptyHasNoDigits()
    ensures Digits([]) == []
  {
  }

  // ----- base rows

  predicate Listed(e: Endpoint) {
    e.endpointNumber.Some? && BTrim(e.endpointNumber.value) != ""
  }

  function NumberOf(e: Endpoint): string {
    Cell(e.endpointNumber)
  }

  function ListedOf(endpoints: seq<Endpoint>): seq<Endpoint> {
    if endpoints == [] then []
    else if Listed(endpoints[0]) then [endpoints[0]] + ListedOf(endpoints[1..])
    else ListedOf(endpoints[1..])
  }

  function SourceLabel(provider: string): string {
    if Lower(BTrim(provider)) == FINENUMBERS_PROVIDER_CODE then GEOGRAPHY_MANUAL_SOURCE else BTrim(provider)
  }

  /** An endpoint row with what the join found for it, `""` standing for no DID row. */
  function EndpointRow(db: Db, e: Endpoint, provider: string): Base {
    Base(e.id, NumberOf(e), Cell(e.description),
         if Cell(e.capacity) == "" then PREMIUM_CAPACITY else Cell(e.capacity),
         Cell(e.supplier), Cell(e.category), Cell(e.status),
         if Cell(e.title) != "" then Cell(e.title) else BTrim(e.name),
         SourceLabel(provider), false, NumberOf(e) in db.unregistered)
  }

  function MissingRow(db: Db, d: Row): Base {
    Base(d.rowId, d.displayNumber, "", "", "", "", STATUS_NOT_IN_RTU, "",
         SourceLabel(d.provider), true, d.displayNumber in db.unregistered)
  }

  function Mates(did: seq<Row>, key: string): seq<Row> {
    if did == [] then []
    else if did[0].matchKey == key then [did[0]] + Mates(did[1..], key)
    else Mates(did[1..], key)
  }

  function JoinedRows(db: Db, e: Endpoint, mates: seq<Row>): seq<Base> {
    seq(|mates|, i requires 0 <= i < |mates| => EndpointRow(db, e, mates[i].provider))
  }

  /** `LEFT JOIN did_rows`: every mate gives a row, and no mate gives one row. */
  function EndpointRows(db: Db, endpoints: seq<Endpoint>): seq<Base> {
    if endpoints == [] then []
    else
      var mates := Mates(db.did, MatchKeySql(NumberOf(endpoints[0])));
      (if mates == [] then [EndpointRow(db, endpoints[0], "")] else JoinedRows(db, endpoints[0], mates))
        + EndpointRows(db, endpoints[1..])
  }

  predicate HasEndpoint(endpoints: seq<Endpoint>, key: string) {
    exists i | 0 <= i < |endpoints| :: MatchKeySql(NumberOf(endpoints[i])) == key
  }

  function Unmatched(endpoints: seq<Endpoint>, did: seq<Row>): seq<Row> {
    if did == [] then []
    else if HasEndpoint(endpoints, did[0].matchKey) then Unmatched(endpoints, did[1..])
    else [did[0]] + Unmatched(endpoints, did[1..])
  }

  function MissingRows(db: Db, did: seq<Row>): seq<Base> {
    seq(|did|, i requires 0 <= i < |did| => MissingRow(db, did[i]))
  }

  function BaseRows(db: Db): seq<Base> {
    var listed := ListedOf(db.endpoints);
    EndpointRows(db, listed) + MissingRows(db, Unmatched(listed, db.did))
  }

  // ----- one row per endpoint, one per unmatched key

  ghost predicate UniqueKeys(did: seq<Row>) {
    forall i, j | 0 <= i < j < |did| :: did[i].matchKey != did[j].matchKey
  }

  /** The mate an endpoint is shown with. */
  ghost predicate ShownWith(did: seq<Row>, key: string, provider: string) {
    if exists i :: 0 <= i < |did| && did[i].matchKey == key
    then exists i :: 0 <= i < |did| && did[i].matchKey == key && did[i].provider == provider
    else provider == ""
  }

  lemma {:induction false} MatesOfUnique(did: seq<Row>, key: string)
    requires UniqueKeys(did)
    ensures |Mates(did, key)| <= 1
    ensures forall d :: d in Mates(did, key) <==> d in did && d.matchKey == key
  {
    if did != [] {
      MatesOfUnique(did[1..], key);
      var mates := Mates(did[1..], key);
      assert mates != [] ==> mates[0] in mates;
    }
  }

  function ProviderFor(did: seq<Row>, key: string): string {
    if Mates(did, key) == [] then "" else Mates(did, key)[0].provider
  }

  lemma ProviderIsShown(did: seq<Row>, key: string)
    requires UniqueKeys(did)
    ensures ShownWith(did, key, ProviderFor(did, key))
  {
    MatesOfUnique(did, key);
    if Mates(did, key) != [] {
      var d := Mates(did, key)[0];
      assert d in did;
    }
  }

  function UniqueEndpointRow(db: Db, e: Endpoint): Base {
    EndpointRow(db, e, ProviderFor(db.did, MatchKeySql(NumberOf(e))))
  }

  lemma EndpointRowsCons(db: Db, endpoints: seq<Endpoint>)
    requires UniqueKeys(db.did) && endpoints != []
    ensures EndpointRows(db, endpoints) == [UniqueEndpointRow(db, endpoints[0])] + EndpointRows(db, endpoints[1..])
  {
    hide MatchKeySql, Mates, EndpointRow;
    MatesOfUnique(db.did, MatchKeySql(NumberOf(endpoints[0])));
  }

  lemma {:induction false} EndpointRowsAre(db: Db, endpoints: seq<Endpoint>)
    requires UniqueKeys(db.did)
    ensures |EndpointRows(db, endpoints)| == |endpoints|
    ensures forall i | 0 <= i < |endpoints| :: EndpointRows(db, endpoints)[i] == UniqueEndpointRow(db, endpoints[i])
  {
    if endpoints != [] {
      EndpointRowsCons(db, endpoints);
      EndpointRowsAre(db, endpoints[1..]);
      hide UniqueEndpointRow, EndpointRows, UniqueKeys;
    }
  }

  lemma {:induction false} UnmatchedAre(endpoints: seq<Endpoint>, did: seq<Row>)
    ensures forall d :: d in Unmatched(endpoints, did) <==> d in did && !HasEndpoint(endpoints, d.matchKey)
    ensures |Unmatched(endpoints, did)| <= |did|
  {
    if did != [] {
      UnmatchedAre(endpoints, did[1..]);
    }
  }

  lemma {:induction false} UnmatchedUnique(endpoints: seq<Endpoint>, did: seq<Row>)
    requires UniqueKeys(did)
    ensures UniqueKeys(Unmatched(endpoints, did))
  {
    if did != [] {
      UnmatchedUnique(endpoints, did[1..]);
      UnmatchedAre(endpoints, did[1..]);
      hide HasEndpoint;
      var rest := Unmatched(endpoints, did[1..]);
      forall j | 0 <= j < |rest| ensures rest[j].matchKey != did[0].matchKey {
        assert rest[j] in did[1..];
      }
    }
  }

  /** The DID rows that become rows of their own: those whose key no listed endpoint has, each key once. */
  ghost predicate AreUnmatched(unmatched: seq<Row>, db: Db) {
    && UniqueKeys(unmatched)
    && forall d :: d in unmatched <==> d in db.did && !HasEndpoint(ListedOf(db.endpoints), d.matchKey)
  }

  /** `row` shows endpoint `e` with the DID row of its key, or with none if there is none. */
  ghost predicate ShowsEndpoint(row: Base, e: Endpoint, db: Db) {
    exists provider :: ShownWith(db.did, MatchKeySql(NumberOf(e)), provider) && row == EndpointRow(db, e, provider)
  }

  lemma UniqueRowShows(db: Db, e: Endpoint)
    requires UniqueKeys(db.did)
    ensures ShowsEndpoint(UniqueEndpointRow(db, e), e, db)
  {
    ProviderIsShown(db.did, MatchKeySql(NumberOf(e)));
  }

  function UnmatchedOf(db: Db): seq<Row> {
    Unmatched(ListedOf(db.endpoints), db.did)
  }

  lemma EndpointPart(db: Db, i: nat)
    requires UniqueKeys(db.did) && i < |ListedOf(db.endpoints)|
    ensures |BaseRows(db)| == |ListedOf(db.endpoints)| + |UnmatchedOf(db)|
    ensures BaseRows(db)[i] == UniqueEndpointRow(db, ListedOf(db.endpoints)[i])
  {
    hide UniqueEndpointRow, MissingRow, ListedOf, EndpointRows, Unmatched, UniqueKeys;
    EndpointRowsAre(db, ListedOf(db.endpoints));
  }

  lemma MissingPart(db: Db, i: nat)
    requires UniqueKeys(db.did) && i < |UnmatchedOf(db)|
    ensures |BaseRows(db)| == |ListedOf(db.endpoints)| + |UnmatchedOf(db)|
    ensures BaseRows(db)[|ListedOf(db.endpoints)| + i] == MissingRow(db, UnmatchedOf(db)[i])
  {
    hide UniqueEndpointRow, MissingRow, ListedOf, EndpointRows, Unmatched, UniqueKeys;
    EndpointRowsAre(db, ListedOf(db.endpoints));
  }

  lemma BaseLength(db: Db)
    requires UniqueKeys(db.did)
    ensures |BaseRows(db)| == |ListedOf(db.endpoints)| + |UnmatchedOf(db)|
  {
    hide UniqueEndpointRow, MissingRow, ListedOf, EndpointRows, Unmatched, UniqueKeys;
    EndpointRowsAre(db, ListedOf(db.endpoints));
  }

  /**
   * With unique match keys the base relation holds one row per listed endpoint, shown with
   * the one DID row of its key if there is one, and one row per DID row without an endpoint.
   */
  lemma OneRowEach(db: Db) returns (unmatched: seq<Row>)
    requires UniqueKeys(db.did)
    ensures AreUnmatched(unmatched, db)
    ensures
      var listed, rows := ListedOf(db.endpoints), BaseRows(db);
      && |rows| == |listed| + |unmatched|
      && (forall i | 0 <= i < |listed| :: ShowsEndpoint(rows[i], listed[i], db))
      && (forall i | 0 <= i < |unmatched| :: rows[|listed| + i] == MissingRow(db, unmatched[i]))
  {
    var listed := ListedOf(db.endpoints);
    unmatched := UnmatchedOf(db);
    UnmatchedAre(listed, db.did);
    UnmatchedUnique(listed, db.did);
    BaseLength(db);
    hide UniqueEndpointRow, MissingRow, HasEndpoint, ListedOf, BaseRows, Unmatched, ShowsEndpoint;
    forall i | 0 <= i < |listed| ensures ShowsEndpoint(BaseRows(db)[i], listed[i], db) {
      EndpointPart(db, i);
      UniqueRowShows(db, listed[i]);
    }
    forall i | 0 <= i < |unmatched| ensures BaseRows(db)[|listed| + i] == MissingRow(db, unmatched[i]) {
      MissingPart(db, i);
    }
  }

  /** In every run of the DID protocol that respects the lease, the rows the join reads have unique keys. */
  lemma VisibleKeysAreUnique(s: DidProtocol.System, steps: seq<DidProtocol.Step>)
    requires DidProtocol.Inv(s) && DidProtocol.Disciplined(s, steps)
    ensures UniqueKeys(DidProtocol.Visible(DidProtocol.Run(s, steps)))
  {
    DidProtocol.VisibleIsComplete(s, steps);
    hide DidProtocol.Inv, DidProtocol.Disciplined, DidProtocol.Run, DidProtocol.FromCompleteWalk;
    var rows := DidProtocol.Visible(DidProtocol.Run(s, steps));
    if rows != [] {
      DidProtocol.WalkKeysDiffer(rows);
    }
  }
}
