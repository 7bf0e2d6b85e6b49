/**
 * Reading an RTU table page by page: when a collector calls its list complete,
 * whatever the server does, and what that is worth against a table that stands still.
 */
module Paging {
  import opened Wrappers
  import opened Text

  const SELECT_ROW_LIMIT := 2000
  const MAX_CALL_PAGES := 5
  const EQUIPMENT_MAX_PAGES := 25

  type Record = map<string, string>

  /** A fault is an answer that may be about a column; any other failure is not. */
  datatype Reply = Rows(rows: seq<Record>) | Fault | Failed

  datatype Verdict = Stop | Continue | Duplicate | Cap

  datatype PageDecision = PageDecision(action: Verdict, append: bool, truncated: bool)

  // ----- the decision

  function IdOf(row: Record, column: string): string {
    Trim(if column in row then row[column] else "")
  }

  function Ids(rows: seq<Record>, column: string): set<string> {
    set row | row in rows && IdOf(row, column) != "" :: IdOf(row, column)
  }

  method ConferenceIdSet(rows: seq<Record>, column: string) returns (ids: set<string>)
    ensures ids == Ids(rows, column)
  {
    ids := {};
    for k := 0 to |rows|
      invariant ids == Ids(rows[..k], column)
    {
      assert rows[..k + 1] == rows[..k] + [rows[k]];
      var id := IdOf(rows[k], column);
      if id != "" {
        ids := ids + {id};
      }
    }
    assert rows[..|rows|] == rows;
  }

  function DecideNextPage(page: nat, rowCount: nat, pageIds: set<string>, previousIds: Option<set<string>>): PageDecision {
    var full := rowCount == SELECT_ROW_LIMIT;
    if previousIds == Some(pageIds) && full then PageDecision(Duplicate, false, true)
    else if rowCount > SELECT_ROW_LIMIT then PageDecision(Stop, true, true)
    else if !full then PageDecision(Stop, true, false)
    else if page >= MAX_CALL_PAGES - 1 then PageDecision(Cap, true, true)
    else PageDecision(Continue, true, false)
  }

  // ----- what a complete read is

  predicate FullPage(reply: Reply) {
    reply.Rows? && |reply.rows| == SELECT_ROW_LIMIT
  }

  predicate ShortPage(reply: Reply) {
    reply.Rows? && |reply.rows| < SELECT_ROW_LIMIT
  }

  predicate Repeats(reply: nat -> Reply, column: string, p: nat) {
    p > 0 && reply(p).Rows? && reply(p - 1).Rows? && Ids(reply(p).rows, column) == Ids(reply(p - 1).rows, column)
  }

  /** Pages before `n` are full and none repeats the ids of the one before it. */
  ghost predicate Underway(reply: nat -> Reply, column: string, n: nat) {
    forall p: nat | 0 <= p < n :: FullPage(reply(p)) && !Repeats(reply, column, p)
  }

  /** Page `n` is short, before the cap, and everything before it was full and new. */
  ghost predicate EndsAt(reply: nat -> Reply, column: string, n: nat) {
    n < MAX_CALL_PAGES && Underway(reply, column, n) && ShortPage(reply(n))
  }

  function Joined(reply: nat -> Reply, n: nat): seq<Record> {
    if n == 0 then [] else Joined(reply, n - 1) + if reply(n - 1).Rows? then reply(n - 1).rows else []
  }

  lemma NotCompleteAt(reply: nat -> Reply, column: string, page: nat, n: nat)
    requires Underway(reply, column, page)
    requires !ShortPage(reply(page))
    requires !FullPage(reply(page)) || Repeats(reply, column, page) || page >= MAX_CALL_PAGES - 1
    ensures !EndsAt(reply, column, n)
  {
    hide Repeats, Ids;
  }

  lemma NotComplete(reply: nat -> Reply, column: string, page: nat)
    requires Underway(reply, column, page)
    requires !ShortPage(reply(page))
    requires !FullPage(reply(page)) || Repeats(reply, column, page) || page >= MAX_CALL_PAGES - 1
    ensures forall n: nat :: !EndsAt(reply, column, n)
  {
    hide Repeats, Ids, Underway, EndsAt;
    forall n: nat ensures !EndsAt(reply, column, n) {
      NotCompleteAt(reply, column, page, n);
    }
  }

  function OffsetReply(readPage: nat -> Reply): nat -> Reply {
    (p: nat) => readPage(p * SELECT_ROW_LIMIT)
  }

  function PreviousIds(reply: nat -> Reply, column: string, page: nat): Option<set<string>> {
    if page == 0 || !reply(page - 1).Rows? then None else Some(Ids(reply(page - 1).rows, column))
  }

  lemma EndsOnce(reply: nat -> Reply, column: string, page: nat)
    requires EndsAt(reply, column, page)
    ensures forall n: nat :: EndsAt(reply, column, n) <==> n == page
  {
    forall n: nat | EndsAt(reply, column, n) ensures n == page {
    }
  }

  lemma NothingUnderway(reply: nat -> Reply, column: string)
    ensures Underway(reply, column, 0)
  {
  }

  lemma FailedPage(reply: nat -> Reply, column: string, page: nat)
    requires Underway(reply, column, page) && !reply(page).Rows?
    ensures forall n: nat :: !EndsAt(reply, column, n)
  {
    NotComplete(reply, column, page);
  }

  /** The decision on a page says whether the read is still under way, complete, or can no longer be complete. */
  lemma DecisionMeans(reply: nat -> Reply, column: string, page: nat)
    requires Underway(reply, column, page) && page < MAX_CALL_PAGES && reply(page).Rows?
    ensures
      var d := DecideNextPage(page, |reply(page).rows|, Ids(reply(page).rows, column), PreviousIds(reply, column, page));
      && (d.action == Continue ==> Underway(reply, column, page + 1) && page + 1 < MAX_CALL_PAGES && d.append)
      && (d.truncated ==> forall n: nat :: !EndsAt(reply, column, n))
      && (d.action != Continue && !d.truncated ==> d.append && forall n: nat :: EndsAt(reply, column, n) <==> n == page)
  {
    assert page > 0 ==> FullPage(reply(page - 1));
    var d := DecideNextPage(page, |reply(page).rows|, Ids(reply(page).rows, column), PreviousIds(reply, column, page));
    if d.truncated {
      NotComplete(reply, column, page);
    } else if d.action != Continue {
      EndsOnce(reply, column, page);
    }
  }

  /** Either a list that is complete, or nothing. */
  method CollectIncomingGroupPages(readPage: nat -> Reply, column: string) returns (rows: Option<seq<Record>>)
    ensures rows.Some? <==> exists n: nat :: EndsAt(OffsetReply(readPage), column, n)
    ensures forall n: nat | EndsAt(OffsetReply(readPage), column, n) :: rows == Some(Joined(OffsetReply(readPage), n + 1))
  {
    ghost var reply := OffsetReply(readPage);
    var all: seq<Record> := [];
    var previousIds: Option<set<string>> := None;
    hide Ids, Repeats, EndsAt, Underway, FullPage, ShortPage;
    NothingUnderway(reply, column);
    for page := 0 to MAX_CALL_PAGES
      invariant page < MAX_CALL_PAGES
      invariant Underway(reply, column, page) && all == Joined(reply, page)
      invariant previousIds == PreviousIds(reply, column, page)
    {
      var selected := readPage(page * SELECT_ROW_LIMIT);
      assert reply(page) == selected;
      if !selected.Rows? {
        FailedPage(reply, column, page);
        return None;
      }
      var pageIds := ConferenceIdSet(selected.rows, column);
      var decision := DecideNextPage(page, |selected.rows|, pageIds, previousIds);
      DecisionMeans(reply, column, page);
      if decision.append {
        all := all + selected.rows;
      }
      if decision.truncated {
        return None;
      }
      if decision.action == Stop {
        assert EndsAt(reply, column, page);
        return Some(all);
      }
      previousIds := Some(pageIds);
    }
    return Some(all);
  }

  // ----- a table that stands still

  function PageAt(table: seq<Record>, p: nat): seq<Record> {
    var from := p * SELECT_ROW_LIMIT;
    table[Min(from, |table|)..Min(from + SELECT_ROW_LIMIT, |table|)]
  }

  /** Keys are not blank and differ. */
  ghost predicate Keyed(table: seq<Record>, column: string) {
    && (forall i | 0 <= i < |table| :: IdOf(table[i], column) != "")
    && (forall i, j | 0 <= i < j < |table| :: IdOf(table[i], column) != IdOf(table[j], column))
  }

  ghost predicate Serves(reply: nat -> Reply, table: seq<Record>) {
    forall p: nat :: reply(p) == Rows(PageAt(table, p))
  }

  lemma PageIndex(table: seq<Record>, p: nat, j: nat)
    requires j < |PageAt(table, p)|
    ensures p * SELECT_ROW_LIMIT + j < |table| && PageAt(table, p)[j] == table[p * SELECT_ROW_LIMIT + j]
  {
  }

  lemma PagesDiffer(table: seq<Record>, column: string, p: nat)
    requires Keyed(table, column) && (p + 1) * SELECT_ROW_LIMIT < |table|
    ensures Ids(PageAt(table, p), column) != Ids(PageAt(table, p + 1), column)
  {
    var here, next := PageAt(table, p), PageAt(table, p + 1);
    assert |here| > 0;
    hide IdOf, PageAt;
    PageIndex(table, p, 0);
    forall j | 0 <= j < |next| ensures IdOf(next[j], column) != IdOf(here[0], column) {
      PageIndex(table, p + 1, j);
    }
    hide Keyed;
    NewId(here, next, column);
  }

  lemma NewId(here: seq<Record>, next: seq<Record>, column: string)
    requires here != [] && IdOf(here[0], column) != ""
    requires forall j | 0 <= j < |next| :: IdOf(next[j], column) != IdOf(here[0], column)
    ensures Ids(here, column) != Ids(next, column)
  {
    hide IdOf;
    var id := IdOf(here[0], column);
    assert here[0] in here && id in Ids(here, column);
    assert id !in Ids(next, column);
  }

  lemma {:induction false} JoinedIsTable(reply: nat -> Reply, table: seq<Record>, n: nat)
    requires Serves(reply, table)
    ensures Joined(reply, n) == table[..Min(n * SELECT_ROW_LIMIT, |table|)]
  {
    if n > 0 {
      JoinedIsTable(reply, table, n - 1);
      assert reply(n - 1) == Rows(PageAt(table, n - 1));
    }
  }

  /** Against a standing table the read is complete exactly below the cap, and is then the table. */
  lemma CompleteIsTable(reply: nat -> Reply, table: seq<Record>, column: string)
    requires Serves(reply, table) && Keyed(table, column)
    ensures (exists n: nat :: EndsAt(reply, column, n)) <==> |table| < MAX_CALL_PAGES * SELECT_ROW_LIMIT
    ensures forall n: nat | EndsAt(reply, column, n) :: Joined(reply, n + 1) == table
  {
    forall n: nat | EndsAt(reply, column, n)
      ensures Joined(reply, n + 1) == table && |table| < MAX_CALL_PAGES * SELECT_ROW_LIMIT
    {
      JoinedIsTable(reply, table, n + 1);
      assert |PageAt(table, n)| < SELECT_ROW_LIMIT;
    }
    if |table| < MAX_CALL_PAGES * SELECT_ROW_LIMIT {
      var n := |table| / SELECT_ROW_LIMIT;
      forall p: nat | 0 <= p < n ensures FullPage(reply(p)) && !Repeats(reply, column, p) {
        TablePage(reply, table, column, p);
      }
      assert |PageAt(table, n)| == |table| - n * SELECT_ROW_LIMIT;
      assert EndsAt(reply, column, n);
    }
  }

  lemma TablePage(reply: nat -> Reply, table: seq<Record>, column: string, p: nat)
    requires Serves(reply, table) && Keyed(table, column) && p < |table| / SELECT_ROW_LIMIT
    ensures FullPage(reply(p)) && !Repeats(reply, column, p)
  {
    assert reply(p) == Rows(PageAt(table, p));
    if p > 0 {
      PagesDiffer(table, column, p - 1);
      assert reply(p - 1) == Rows(PageAt(table, p - 1));
    }
  }

  // ----- live calls: pages that may carry a duration column

  /** One page as it is finally taken, whether with the duration column, and the gate after it. */
  datatype Taken = Taken(reply: Reply, talk: bool, omit: bool)

  /** A fault on a page with the column is read again without it, and the column is dropped for good. */
  function TakePage(read: (nat, bool) -> Reply, addable: bool, omit: bool, p: nat): Taken {
    var offset := p * SELECT_ROW_LIMIT;
    if omit || !addable then Taken(read(offset, false), false, omit)
    else if read(offset, true).Fault? then
      if read(offset, false).Rows? then Taken(read(offset, false), false, true) else Taken(Fault, true, omit)
    else Taken(read(offset, true), true, omit)
  }

  function OmitBefore(read: (nat, bool) -> Reply, addable: bool, omit: bool, p: nat): bool {
    if p == 0 then omit else TakePage(read, addable, OmitBefore(read, addable, omit, p - 1), p - 1).omit
  }

  function TakenAt(read: (nat, bool) -> Reply, addable: bool, omit: bool, p: nat): Taken {
    TakePage(read, addable, OmitBefore(read, addable, omit, p), p)
  }

  function TakenReply(read: (nat, bool) -> Reply, addable: bool, omit: bool): nat -> Reply {
    (p: nat) => TakenAt(read, addable, omit, p).reply
  }

  function Flags(n: nat, talk: bool): seq<bool> {
    seq(n, i => talk)
  }

  /** One flag for each row: was its page read with the duration column. */
  function TalkFlags(read: (nat, bool) -> Reply, addable: bool, omit: bool, n: nat): seq<bool> {
    if n == 0 then []
    else
      var taken := TakenAt(read, addable, omit, n - 1);
      TalkFlags(read, addable, omit, n - 1)
        + if taken.reply.Rows? then Flags(|taken.reply.rows|, taken.talk) else []
  }

  datatype Paged = Paged(rows: seq<Record>, truncated: bool, talkFlags: seq<bool>) | Refused(reply: Reply)

  class TalkGate {
    var omit: bool
    /** The module's memory of the same, kept across snapshots. */
    var omitTalk: bool

    constructor (omit: bool)
      ensures this.omit == omit
    {
      this.omit, this.omitTalk := omit, omit;
    }

    method Take(read: (nat, bool) -> Reply, addable: bool, page: nat) returns (selected: Reply, talk: bool)
      modifies this
      ensures Taken(selected, talk, omit) == TakePage(read, addable, old(omit), page)
      ensures omitTalk == (old(omitTalk) || (omit && !old(omit)))
    {
      var offset := page * SELECT_ROW_LIMIT;
      var added := addable && !omit;
      selected := read(offset, added);
      talk := added;
      if selected.Fault? && added {
        var again := read(offset, false);
        if !again.Rows? {
          return;
        }
        omit := true;
        omitTalk := true;
        selected := again;
        talk := false;
      }
    }
  }

  /** The first `n` pages as they were taken, and a flag for each of their rows. */
  ghost predicate KeptPages(read: (nat, bool) -> Reply, addable: bool, omit: bool, n: nat, rows: seq<Record>, talkFlags: seq<bool>) {
    rows == Joined(TakenReply(read, addable, omit), n) && talkFlags == TalkFlags(read, addable, omit, n)
  }

  /**
   * The list is not truncated exactly when the pages taken end in time; it then holds all
   * of them, and otherwise the first pages up to where the read stopped.
   */
  ghost predicate IsRead(read: (nat, bool) -> Reply, addable: bool, omit: bool, column: string, paged: Paged) {
    var reply := TakenReply(read, addable, omit);
    && (paged.Paged? && !paged.truncated <==> exists n: nat :: EndsAt(reply, column, n))
    && (paged.Paged? ==>
          exists n: nat :: n <= MAX_CALL_PAGES && KeptPages(read, addable, omit, n, paged.rows, paged.talkFlags))
    && (forall n: nat | EndsAt(reply, column, n) ::
          paged.Paged? && KeptPages(read, addable, omit, n + 1, paged.rows, paged.talkFlags))
    && (exists m: nat :: StopsThere(read, addable, omit, column, m, paged))
  }

  /** Page `m` is where the read ends, by a failure or by its decision, and that is what it returns. */
  ghost predicate StopsThere(read: (nat, bool) -> Reply, addable: bool, omit: bool, column: string, m: nat, paged: Paged) {
    var reply := TakenReply(read, addable, omit);
    && m < MAX_CALL_PAGES && Underway(reply, column, m)
    && if !reply(m).Rows? then paged == Refused(reply(m))
       else
         var d := DecisionAt(reply, column, m);
         && d.action != Continue && paged.Paged? && paged.truncated == d.truncated
         && KeptPages(read, addable, omit, if d.append then m + 1 else m, paged.rows, paged.talkFlags)
  }

  lemma OneMorePage(read: (nat, bool) -> Reply, addable: bool, omit: bool, page: nat, rows: seq<Record>, flags: seq<bool>)
    requires KeptPages(read, addable, omit, page, rows, flags)
    requires TakenAt(read, addable, omit, page).reply.Rows?
    ensures
      var taken := TakenAt(read, addable, omit, page);
      && Joined(TakenReply(read, addable, omit), page + 1) == rows + taken.reply.rows
      && TalkFlags(read, addable, omit, page + 1) == flags + Flags(|taken.reply.rows|, taken.talk)
    ensures OmitBefore(read, addable, omit, page + 1) == TakenAt(read, addable, omit, page).omit
  {
    hide TakePage, Flags;
    assert TakenReply(read, addable, omit)(page) == TakenAt(read, addable, omit, page).reply;
  }

  function DecisionAt(reply: nat -> Reply, column: string, page: nat): PageDecision
    requires reply(page).Rows?
  {
    DecideNextPage(page, |reply(page).rows|, Ids(reply(page).rows, column), PreviousIds(reply, column, page))
  }

  lemma RefusedIsRead(read: (nat, bool) -> Reply, addable: bool, omit: bool, column: string, page: nat)
    requires page < MAX_CALL_PAGES
    requires Underway(TakenReply(read, addable, omit), column, page) && !TakenReply(read, addable, omit)(page).Rows?
    ensures IsRead(read, addable, omit, column, Refused(TakenReply(read, addable, omit)(page)))
  {
    FailedPage(TakenReply(read, addable, omit), column, page);
    assert StopsThere(read, addable, omit, column, page, Refused(TakenReply(read, addable, omit)(page)));
    hide TakenReply, EndsAt, StopsThere;
  }

  lemma StoppedIsRead(read: (nat, bool) -> Reply, addable: bool, omit: bool, column: string, page: nat,
      rows: seq<Record>, flags: seq<bool>)
    requires page < MAX_CALL_PAGES && Underway(TakenReply(read, addable, omit), column, page)
    requires TakenReply(read, addable, omit)(page).Rows?
    requires DecisionAt(TakenReply(read, addable, omit), column, page).action != Continue
    requires
      var d := DecisionAt(TakenReply(read, addable, omit), column, page);
      KeptPages(read, addable, omit, if d.append then page + 1 else page, rows, flags)
    ensures IsRead(read, addable, omit, column, Paged(rows, DecisionAt(TakenReply(read, addable, omit), column, page).truncated, flags))
  {
    var reply := TakenReply(read, addable, omit);
    DecisionMeans(reply, column, page);
    hide TakenReply, EndsAt, Underway, KeptPages, DecideNextPage, IsRead;
    var d := DecisionAt(reply, column, page);
    var paged := Paged(rows, d.truncated, flags);
    assert StopsThere(read, addable, omit, column, page, paged);
    hide StopsThere;
    IsReadFrom(read, addable, omit, column, page, if d.append then page + 1 else page, paged);
  }

  lemma IsReadFrom(read: (nat, bool) -> Reply, addable: bool, omit: bool, column: string, page: nat, kept: nat, paged: Paged)
    requires paged.Paged? && kept <= MAX_CALL_PAGES
    requires KeptPages(read, addable, omit, kept, paged.rows, paged.talkFlags)
    requires StopsThere(read, addable, omit, column, page, paged)
    requires paged.truncated ==> forall n: nat :: !EndsAt(TakenReply(read, addable, omit), column, n)
    requires !paged.truncated ==>
      kept == page + 1 && forall n: nat :: EndsAt(TakenReply(read, addable, omit), column, n) <==> n == page
    ensures IsRead(read, addable, omit, column, paged)
  {
    hide TakenReply, EndsAt, KeptPages, StopsThere;
    assert !paged.truncated ==> EndsAt(TakenReply(read, addable, omit), column, page);
  }

  /** What holds between two pages. */
  ghost predicate Between(read: (nat, bool) -> Reply, addable: bool, omit: bool, column: string, page: nat,
      gate: bool, rows: seq<Record>, flags: seq<bool>, previousIds: Option<set<string>>)
  {
    var reply := TakenReply(read, addable, omit);
    && gate == OmitBefore(read, addable, omit, page)
    && Underway(reply, column, page)
    && KeptPages(read, addable, omit, page, rows, flags)
    && previousIds == PreviousIds(reply, column, page)
  }

  /** One page further: the read goes on, or what it returns is right. */
  lemma PageStep(read: (nat, bool) -> Reply, addable: bool, omit: bool, column: string, page: nat,
      gate: bool, rows: seq<Record>, flags: seq<bool>, previousIds: Option<set<string>>, taken: Taken)
    requires Between(read, addable, omit, column, page, gate, rows, flags, previousIds) && page < MAX_CALL_PAGES
    requires taken == TakePage(read, addable, gate, page)
    ensures !taken.reply.Rows? ==> IsRead(read, addable, omit, column, Refused(taken.reply))
    ensures taken.reply.Rows? ==>
      var ids := Ids(taken.reply.rows, column);
      var d := DecideNextPage(page, |taken.reply.rows|, ids, previousIds);
      var more := rows + taken.reply.rows;
      var moreFlags := flags + Flags(|taken.reply.rows|, taken.talk);
      && (d.action != Continue ==>
            IsRead(read, addable, omit, column,
                   if d.append then Paged(more, d.truncated, moreFlags) else Paged(rows, d.truncated, flags)))
      && (d.action == Continue ==>
            d.append && page + 1 < MAX_CALL_PAGES
            && Between(read, addable, omit, column, page + 1, taken.omit, more, moreFlags, Some(ids)))
  {
    var reply := TakenReply(read, addable, omit);
    TakenHere(read, addable, omit, page, taken);
    hide TakenReply, TakenAt, Underway, KeptPages, Flags, DecideNextPage, PreviousIds, DecisionAt, IsRead, TakePage, Ids;
    if !taken.reply.Rows? {
      RefusedIsRead(read, addable, omit, column, page);
    } else {
      DecidesHere(reply, column, page);
      KeepsPage(read, addable, omit, page, rows, flags);
      var d := DecisionAt(reply, column, page);
      if d.action != Continue {
        if d.append {
          StoppedIsRead(read, addable, omit, column, page, rows + taken.reply.rows, flags + Flags(|taken.reply.rows|, taken.talk));
        } else {
          StoppedIsRead(read, addable, omit, column, page, rows, flags);
        }
      }
    }
  }

  lemma BeforeFirstPage(read: (nat, bool) -> Reply, addable: bool, omit: bool, column: string)
    ensures Between(read, addable, omit, column, 0, omit, [], [], None)
  {
  }

  method SelectAllPages(read: (nat, bool) -> Reply, addable: bool, column: string, gate: TalkGate) returns (paged: Paged)
    modifies gate
    ensures IsRead(read, addable, old(gate.omit), column, paged)
  {
    hide Between, IsRead, Ids, Flags, TakePage;
    var rows: seq<Record> := [];
    var talkFlags: seq<bool> := [];
    var previousIds: Option<set<string>> := None;
    BeforeFirstPage(read, addable, gate.omit, column);
    for page := 0 to MAX_CALL_PAGES
      invariant page < MAX_CALL_PAGES
      invariant Between(read, addable, old(gate.omit), column, page, gate.omit, rows, talkFlags, previousIds)
    {
      ghost var before := gate.omit;
      var selected, talk := gate.Take(read, addable, page);
      PageStep(read, addable, old(gate.omit), column, page, before, rows, talkFlags, previousIds, Taken(selected, talk, gate.omit));
      if !selected.Rows? {
        return Refused(selected);
      }
      var pageIds := ConferenceIdSet(selected.rows, column);
      var decision := DecideNextPage(page, |selected.rows|, pageIds, previousIds);
      if decision.append {
        rows := rows + selected.rows;
        talkFlags := talkFlags + Flags(|selected.rows|, talk);
      }
      if decision.action != Continue {
        return Paged(rows, decision.truncated, talkFlags);
      }
      previousIds := Some(pageIds);
    }
    return Paged(rows, true, talkFlags);
  }

  lemma TakenHere(read: (nat, bool) -> Reply, addable: bool, omit: bool, page: nat, taken: Taken)
    requires taken == TakePage(read, addable, OmitBefore(read, addable, omit, page), page)
    ensures taken == TakenAt(read, addable, omit, page) && taken.reply == TakenReply(read, addable, omit)(page)
  {
  }

  lemma DecidesHere(reply: nat -> Reply, column: string, page: nat)
    requires reply(page).Rows? && Underway(reply, column, page) && page < MAX_CALL_PAGES
    ensures
      var ids := Ids(reply(page).rows, column);
      var d := DecideNextPage(page, |reply(page).rows|, ids, PreviousIds(reply, column, page));
      && d == DecisionAt(reply, column, page)
      && PreviousIds(reply, column, page + 1) == Some(ids)
      && (d.action == Continue ==> d.append && page + 1 < MAX_CALL_PAGES && Underway(reply, column, page + 1))
  {
    DecisionMeans(reply, column, page);
    hide Underway, Ids;
  }

  lemma KeepsPage(read: (nat, bool) -> Reply, addable: bool, omit: bool, page: nat, rows: seq<Record>, flags: seq<bool>)
    requires KeptPages(read, addable, omit, page, rows, flags)
    requires TakenAt(read, addable, omit, page).reply.Rows?
    ensures
      var taken := TakenAt(read, addable, omit, page);
      KeptPages(read, addable, omit, page + 1, rows + taken.reply.rows, flags + Flags(|taken.reply.rows|, taken.talk))
    ensures OmitBefore(read, addable, omit, page + 1) == TakenAt(read, addable, omit, page).omit
  {
    OneMorePage(read, addable, omit, page, rows, flags);
  }

  lemma ConstantReply(read: (nat, bool) -> Reply, addable: bool, omit: bool, page: seq<Record>, p: nat)
    requires forall offset: nat, talk: bool :: read(offset, talk) == Rows(page)
    ensures TakenAt(read, addable, omit, p) == Taken(Rows(page), addable && !omit, omit)
    ensures TakenReply(read, addable, omit)(p) == Rows(page)
  {
    OmitUnchanged(read, addable, omit, page, p);
  }

  lemma {:induction false} OmitUnchanged(read: (nat, bool) -> Reply, addable: bool, omit: bool, page: seq<Record>, p: nat)
    requires forall offset: nat, talk: bool :: read(offset, talk) == Rows(page)
    ensures OmitBefore(read, addable, omit, p) == omit
  {
    if p > 0 {
      OmitUnchanged(read, addable, omit, page, p - 1);
    }
  }

  /** A constant full page is noticed at its second reading, a larger one at its first. */
  lemma ConstantStop(reply: nat -> Reply, column: string, page: seq<Record>, m: nat)
    requires |page| >= SELECT_ROW_LIMIT && forall p: nat :: reply(p) == Rows(page)
    requires m < MAX_CALL_PAGES && Underway(reply, column, m) && DecisionAt(reply, column, m).action != Continue
    ensures
      var d := DecisionAt(reply, column, m);
      d.truncated && (if d.append then m + 1 else m) == 1
  {
    hide Ids;
    if m > 0 {
      assert FullPage(reply(0));
    }
  }

  /** A server that ignores the offset is read once: its page comes back, truncated. */
  lemma IgnoredOffsetIsCut(read: (nat, bool) -> Reply, addable: bool, omit: bool, column: string, page: seq<Record>, paged: Paged)
    requires |page| >= SELECT_ROW_LIMIT && forall offset: nat, talk: bool :: read(offset, talk) == Rows(page)
    requires IsRead(read, addable, omit, column, paged)
    ensures paged == Paged(page, true, Flags(|page|, addable && !omit))
  {
    hide IsRead;
    var m := StopPage(read, addable, omit, column, paged);
    var reply := TakenReply(read, addable, omit);
    forall p: nat ensures reply(p) == Rows(page) {
      ConstantReply(read, addable, omit, page, p);
    }
    ConstantReply(read, addable, omit, page, 0);
    hide TakenReply, TakenAt, Underway, DecideNextPage, Ids;
    ConstantStop(reply, column, page, m);
    hide DecisionAt;
    assert Joined(reply, 1) == Joined(reply, 0) + page;
    assert TalkFlags(read, addable, omit, 1) == TalkFlags(read, addable, omit, 0) + Flags(|page|, addable && !omit);
  }

  lemma StopPage(read: (nat, bool) -> Reply, addable: bool, omit: bool, column: string, paged: Paged) returns (m: nat)
    requires IsRead(read, addable, omit, column, paged)
    ensures StopsThere(read, addable, omit, column, m, paged)
  {
    m :| StopsThere(read, addable, omit, column, m, paged);
  }

  /** Flags stay aligned with rows, and once a page came without the column all later ones do. */
  lemma {:induction false} FlagsAligned(read: (nat, bool) -> Reply, addable: bool, omit: bool, n: nat)
    ensures |TalkFlags(read, addable, omit, n)| == |Joined(TakenReply(read, addable, omit), n)|
    ensures
      var flags := TalkFlags(read, addable, omit, n);
      && (forall i | 0 <= i < |flags| :: flags[i] ==> addable && !omit)
      && (forall i, j | 0 <= i < j < |flags| :: flags[j] ==> flags[i])
  {
    if n > 0 {
      FlagsAligned(read, addable, omit, n - 1);
      OmitStays(read, addable, omit, n - 1);
      if addable && !OmitBefore(read, addable, omit, n - 1) {
        AllWithTalk(read, addable, omit, n - 1);
      }
    }
  }

  /** As long as the column has not been dropped every page came with it. */
  lemma {:induction false} AllWithTalk(read: (nat, bool) -> Reply, addable: bool, omit: bool, n: nat)
    requires addable && !OmitBefore(read, addable, omit, n)
    ensures forall i | 0 <= i < |TalkFlags(read, addable, omit, n)| :: TalkFlags(read, addable, omit, n)[i]
  {
    if n > 0 {
      AllWithTalk(read, addable, omit, n - 1);
    }
  }

  lemma {:induction false} OmitStays(read: (nat, bool) -> Reply, addable: bool, omit: bool, p: nat)
    ensures omit ==> OmitBefore(read, addable, omit, p)
  {
    if p > 0 {
      OmitStays(read, addable, omit, p - 1);
    }
  }

  /** `plain` and `rich` are one table read without and with the column, which may fault on any page. */
  ghost predicate ServesTalk(read: (nat, bool) -> Reply, plain: seq<Record>, rich: seq<Record>, column: string) {
    && |plain| == |rich|
    && (forall i | 0 <= i < |plain| :: IdOf(plain[i], column) == IdOf(rich[i], column))
    && (forall p: nat :: read(p * SELECT_ROW_LIMIT, false) == Rows(PageAt(plain, p)))
    && (forall p: nat :: read(p * SELECT_ROW_LIMIT, true).Fault? || read(p * SELECT_ROW_LIMIT, true) == Rows(PageAt(rich, p)))
  }

  lemma TakenFromTable(read: (nat, bool) -> Reply, addable: bool, omit: bool, plain: seq<Record>, rich: seq<Record>,
      column: string, p: nat)
    requires ServesTalk(read, plain, rich, column)
    ensures
      var taken := TakenAt(read, addable, omit, p);
      taken.reply == Rows(PageAt(if taken.talk then rich else plain, p))
  {
  }

  lemma SameIds(plain: seq<Record>, rich: seq<Record>, column: string, p: nat)
    requires |plain| == |rich| && forall i | 0 <= i < |plain| :: IdOf(plain[i], column) == IdOf(rich[i], column)
    ensures Ids(PageAt(plain, p), column) == Ids(PageAt(rich, p), column)
  {
    var a, b := PageAt(plain, p), PageAt(rich, p);
    assert forall i | 0 <= i < |a| :: IdOf(a[i], column) == IdOf(b[i], column);
    hide IdOf, PageAt;
    forall id ensures id in Ids(a, column) <==> id in Ids(b, column) {
      if id in Ids(a, column) {
        var i :| 0 <= i < |a| && IdOf(a[i], column) == id;
        assert b[i] in b;
      }
      if id in Ids(b, column) {
        var i :| 0 <= i < |b| && IdOf(b[i], column) == id;
        assert a[i] in a;
      }
    }
  }

  /** Row by row: with its flag set a row is the table's row with the column, else the one without. */
  ghost predicate FromTable(rows: seq<Record>, flags: seq<bool>, plain: seq<Record>, rich: seq<Record>) {
    && |rows| == |flags| <= |plain| == |rich|
    && forall i | 0 <= i < |rows| :: rows[i] == if flags[i] then rich[i] else plain[i]
  }

  lemma {:induction false} JoinedFromTable(read: (nat, bool) -> Reply, addable: bool, omit: bool, plain: seq<Record>,
      rich: seq<Record>, column: string, n: nat)
    requires ServesTalk(read, plain, rich, column)
    ensures FromTable(Joined(TakenReply(read, addable, omit), n), TalkFlags(read, addable, omit, n), plain, rich)
    ensures |TalkFlags(read, addable, omit, n)| == Min(n * SELECT_ROW_LIMIT, |plain|)
  {
    hide ServesTalk, FromTable, TakenReply, Joined, TalkFlags;
    if n == 0 {
      NoPages(read, addable, omit, plain, rich, column);
    } else {
      var p := n - 1;
      JoinedFromTable(read, addable, omit, plain, rich, column, p);
      PageFromTable(read, addable, omit, plain, rich, column, p);
    }
  }

  lemma NoPages(read: (nat, bool) -> Reply, addable: bool, omit: bool, plain: seq<Record>, rich: seq<Record>, column: string)
    requires ServesTalk(read, plain, rich, column)
    ensures FromTable(Joined(TakenReply(read, addable, omit), 0), TalkFlags(read, addable, omit, 0), plain, rich)
    ensures TalkFlags(read, addable, omit, 0) == []
  {
    assert |plain| == |rich|;
    hide ServesTalk, TakenReply;
  }

  lemma PageFromTable(read: (nat, bool) -> Reply, addable: bool, omit: bool, plain: seq<Record>, rich: seq<Record>,
      column: string, n: nat)
    requires ServesTalk(read, plain, rich, column)
    requires FromTable(Joined(TakenReply(read, addable, omit), n), TalkFlags(read, addable, omit, n), plain, rich)
    requires |TalkFlags(read, addable, omit, n)| == Min(n * SELECT_ROW_LIMIT, |plain|)
    ensures FromTable(Joined(TakenReply(read, addable, omit), n + 1), TalkFlags(read, addable, omit, n + 1), plain, rich)
    ensures |TalkFlags(read, addable, omit, n + 1)| == Min((n + 1) * SELECT_ROW_LIMIT, |plain|)
  {
    TakenFromTable(read, addable, omit, plain, rich, column, n);
    hide ServesTalk, IdOf, FromTable, PageAt, Flags, TakenReply, TakenAt, Joined, TalkFlags, OmitBefore;
    var rows, flags := Joined(TakenReply(read, addable, omit), n), TalkFlags(read, addable, omit, n);
    OneMorePage(read, addable, omit, n, rows, flags);
    OnePageMore(rows, flags, plain, rich, n, TakenAt(read, addable, omit, n).talk);
  }

  lemma OnePageMore(rows: seq<Record>, flags: seq<bool>, plain: seq<Record>, rich: seq<Record>, p: nat, talk: bool)
    requires FromTable(rows, flags, plain, rich) && |flags| == Min(p * SELECT_ROW_LIMIT, |plain|)
    ensures
      var page := PageAt(if talk then rich else plain, p);
      && FromTable(rows + page, flags + Flags(|page|, talk), plain, rich)
      && |flags + Flags(|page|, talk)| == Min((p + 1) * SELECT_ROW_LIMIT, |plain|)
  {
  }

  /** A live-call read of a standing table is complete exactly below the cap, and is then the table row for row. */
  lemma CompleteCallsAreTable(read: (nat, bool) -> Reply, addable: bool, omit: bool, plain: seq<Record>, rich: seq<Record>,
      column: string)
    requires ServesTalk(read, plain, rich, column) && Keyed(plain, column)
    ensures
      var reply := TakenReply(read, addable, omit);
      && ((exists n: nat :: EndsAt(reply, column, n)) <==> |plain| < MAX_CALL_PAGES * SELECT_ROW_LIMIT)
      && (forall n: nat | EndsAt(reply, column, n) ::
            |Joined(reply, n + 1)| == |plain| && FromTable(Joined(reply, n + 1), TalkFlags(read, addable, omit, n + 1), plain, rich))
  {
    hide TakenReply, EndsAt, FromTable, Keyed;
    var reply := TakenReply(read, addable, omit);
    var still := Standing(plain);
    assert Serves(still, plain);
    LooksTheSame(read, addable, omit, plain, rich, column);
    CompleteIsTable(still, plain, column);
    forall n: nat ensures EndsAt(reply, column, n) <==> EndsAt(still, column, n) {
      SameEnds(reply, still, column, n);
    }
    forall n: nat | EndsAt(reply, column, n)
      ensures |Joined(reply, n + 1)| == |plain|
      ensures FromTable(Joined(reply, n + 1), TalkFlags(read, addable, omit, n + 1), plain, rich)
    {
      TableLength(read, addable, omit, plain, rich, column, n);
    }
  }

  function Standing(table: seq<Record>): nat -> Reply {
    (p: nat) => Rows(PageAt(table, p))
  }

  lemma TableLength(read: (nat, bool) -> Reply, addable: bool, omit: bool, plain: seq<Record>, rich: seq<Record>,
      column: string, n: nat)
    requires ServesTalk(read, plain, rich, column) && EndsAt(Standing(plain), column, n)
    ensures |Joined(TakenReply(read, addable, omit), n + 1)| == |plain|
    ensures FromTable(Joined(TakenReply(read, addable, omit), n + 1), TalkFlags(read, addable, omit, n + 1), plain, rich)
  {
    assert |PageAt(plain, n)| < SELECT_ROW_LIMIT by {
      assert Standing(plain)(n) == Rows(PageAt(plain, n));
      hide ServesTalk, Ids;
    }
    hide EndsAt, TakenReply, TalkFlags, Joined;
    JoinedFromTable(read, addable, omit, plain, rich, column, n + 1);
    hide ServesTalk;
  }

  lemma PageLooksTheSame(read: (nat, bool) -> Reply, addable: bool, omit: bool, plain: seq<Record>, rich: seq<Record>,
      column: string, p: nat)
    requires ServesTalk(read, plain, rich, column)
    ensures Alike(TakenReply(read, addable, omit)(p), Standing(plain)(p), column)
  {
    TakenFromTable(read, addable, omit, plain, rich, column, p);
    SameIds(plain, rich, column, p);
    assert TakenReply(read, addable, omit)(p) == TakenAt(read, addable, omit, p).reply;
    assert |PageAt(rich, p)| == |PageAt(plain, p)|;
    hide ServesTalk, TakenAt, TakenReply, Ids, PageAt, IdOf;
  }

  lemma LooksTheSame(read: (nat, bool) -> Reply, addable: bool, omit: bool, plain: seq<Record>, rich: seq<Record>, column: string)
    requires ServesTalk(read, plain, rich, column)
    ensures forall p: nat :: Alike(TakenReply(read, addable, omit)(p), Standing(plain)(p), column)
  {
    hide ServesTalk, TakenReply, Standing, Alike;
    forall p: nat ensures Alike(TakenReply(read, addable, omit)(p), Standing(plain)(p), column) {
      PageLooksTheSame(read, addable, omit, plain, rich, column, p);
    }
  }

  predicate Alike(a: Reply, b: Reply, column: string) {
    a.Rows? && b.Rows? && |a.rows| == |b.rows| && Ids(a.rows, column) == Ids(b.rows, column)
  }

  lemma SameEnds(a: nat -> Reply, b: nat -> Reply, column: string, n: nat)
    requires forall p: nat :: Alike(a(p), b(p), column)
    ensures EndsAt(a, column, n) <==> EndsAt(b, column, n)
  {
    hide Ids;
    forall p: nat ensures (FullPage(a(p)) <==> FullPage(b(p))) && (Repeats(a, column, p) <==> Repeats(b, column, p)) {
      assert Alike(a(p), b(p), column) && (p > 0 ==> Alike(a(p - 1), b(p - 1), column));
    }
    assert Alike(a(n), b(n), column);
  }

  // ----- equipment

  ghost predicate FreshKeys(rows: seq<Record>, column: string, seen: set<string>) {
    && Keyed(rows, column)
    && forall key :: key in seen <==> exists i | 0 <= i < |rows| :: IdOf(rows[i], column) == key
  }

  /** Every page before `n` is full, page `n` is short, and no key is blank or repeated on the way. */
  ghost predicate EquipmentEndsAt(reply: nat -> Reply, pk: string, maxPages: nat, n: nat) {
    && n < maxPages
    && (forall p: nat | 0 <= p < n :: FullPage(reply(p)))
    && ShortPage(reply(n))
    && Keyed(Joined(reply, n + 1), pk)
  }

  lemma KeyedPrefix(a: seq<Record>, b: seq<Record>, column: string)
    requires Keyed(a + b, column)
    ensures Keyed(a, column)
  {
    assert forall i | 0 <= i < |a| :: (a + b)[i] == a[i];
  }

  method NoteKey(row: Record, pk: string, seen: set<string>, ghost rows: seq<Record>) returns (more: Option<set<string>>)
    requires FreshKeys(rows, pk, seen)
    ensures more.Some? <==> Keyed(rows + [row], pk)
    ensures more.Some? ==> FreshKeys(rows + [row], pk, more.value)
  {
    ghost var longer := rows + [row];
    assert longer[|rows|] == row && forall i | 0 <= i < |rows| :: longer[i] == rows[i];
    hide IdOf;
    var id := IdOf(row, pk);
    if id == "" {
      return None;
    }
    if id in seen {
      return None;
    }
    return Some(seen + {id});
  }

  method NoteKeys(page: seq<Record>, pk: string, seen: set<string>, ghost rows: seq<Record>) returns (more: Option<set<string>>)
    requires FreshKeys(rows, pk, seen)
    ensures more.Some? <==> Keyed(rows + page, pk)
    ensures more.Some? ==> FreshKeys(rows + page, pk, more.value)
  {
    hide FreshKeys, Keyed;
    var all := seen;
    assert rows + page[..0] == rows;
    for k := 0 to |page|
      invariant FreshKeys(rows + page[..k], pk, all)
    {
      assert rows + page[..k] + [page[k]] == rows + page[..k + 1];
      var next := NoteKey(page[k], pk, all, rows + page[..k]);
      if next.None? {
        assert rows + page == (rows + page[..k + 1]) + page[k + 1..];
        if Keyed(rows + page, pk) {
          KeyedPrefix(rows + page[..k + 1], page[k + 1..], pk);
        }
        return None;
      }
      all := next.value;
    }
    assert page[..|page|] == page;
    FreshIsKeyed(rows + page, pk, all);
    return Some(all);
  }

  lemma FreshIsKeyed(rows: seq<Record>, column: string, seen: set<string>)
    requires FreshKeys(rows, column, seen)
    ensures Keyed(rows, column)
  {
  }

  lemma {:induction false} JoinedGrows(reply: nat -> Reply, m: nat, n: nat)
    requires m <= n
    ensures Joined(reply, m) <= Joined(reply, n)
  {
    if m < n {
      JoinedGrows(reply, m, n - 1);
    }
  }

  lemma EquipmentStopsAt(reply: nat -> Reply, pk: string, maxPages: nat, page: nat, n: nat)
    requires forall p: nat | 0 <= p < page :: FullPage(reply(p))
    requires !reply(page).Rows? || |reply(page).rows| > SELECT_ROW_LIMIT || !Keyed(Joined(reply, page + 1), pk)
      || (FullPage(reply(page)) && page + 1 >= maxPages)
    ensures !EquipmentEndsAt(reply, pk, maxPages, n)
  {
    hide Keyed, Joined;
    if page <= n && Keyed(Joined(reply, n + 1), pk) {
      JoinedGrows(reply, page + 1, n + 1);
      var tail := Joined(reply, n + 1)[|Joined(reply, page + 1)|..];
      assert Joined(reply, n + 1) == Joined(reply, page + 1) + tail;
      KeyedPrefix(Joined(reply, page + 1), tail, pk);
    }
  }

  lemma EquipmentStops(reply: nat -> Reply, pk: string, maxPages: nat, page: nat)
    requires forall p: nat | 0 <= p < page :: FullPage(reply(p))
    requires !reply(page).Rows? || |reply(page).rows| > SELECT_ROW_LIMIT || !Keyed(Joined(reply, page + 1), pk)
      || (FullPage(reply(page)) && page + 1 >= maxPages)
    ensures forall n: nat :: !EquipmentEndsAt(reply, pk, maxPages, n)
  {
    hide Keyed, Joined, EquipmentEndsAt, FullPage;
    forall n: nat ensures !EquipmentEndsAt(reply, pk, maxPages, n) {
      EquipmentStopsAt(reply, pk, maxPages, page, n);
    }
  }

  /** Without a row count to check against only one page is read. */
  function EquipmentPages(verifyCount: bool): nat {
    if verifyCount then EQUIPMENT_MAX_PAGES else 1
  }

  method CollectEquipmentPages(readPage: nat -> Reply, pk: string, verifyCount: bool) returns (result: Option<seq<Record>>)
    ensures result.Some? <==> exists n: nat :: EquipmentEndsAt(OffsetReply(readPage), pk, EquipmentPages(verifyCount), n)
    ensures forall n: nat | EquipmentEndsAt(OffsetReply(readPage), pk, EquipmentPages(verifyCount), n) ::
      result == Some(Joined(OffsetReply(readPage), n + 1))
  {
    ghost var reply := OffsetReply(readPage);
    var maxPages := EquipmentPages(verifyCount);
    var rows: seq<Record> := [];
    var seen: set<string> := {};
    hide Keyed;
    NoKeys(pk);
    hide FreshKeys;
    for page := 0 to maxPages
      invariant page < maxPages
      invariant forall p: nat | 0 <= p < page :: FullPage(reply(p))
      invariant rows == Joined(reply, page) && FreshKeys(rows, pk, seen)
    {
      var selected := readPage(page * SELECT_ROW_LIMIT);
      assert reply(page) == selected;
      if !selected.Rows? || |selected.rows| > SELECT_ROW_LIMIT {
        EquipmentStops(reply, pk, maxPages, page);
        return None;
      }
      var more := NoteKeys(selected.rows, pk, seen, rows);
      rows := rows + selected.rows;
      assert rows == Joined(reply, page + 1);
      if more.None? {
        EquipmentStops(reply, pk, maxPages, page);
        return None;
      }
      seen := more.value;
      if |selected.rows| < SELECT_ROW_LIMIT {
        assert EquipmentEndsAt(reply, pk, maxPages, page);
        EquipmentEndsOnce(reply, pk, maxPages, page);
        return Some(rows);
      }
      if !verifyCount || page == maxPages - 1 {
        EquipmentStops(reply, pk, maxPages, page);
        return None;
      }
    }
    return None;
  }

  lemma NoKeys(column: string)
    ensures FreshKeys([], column, {})
  {
  }

  lemma EquipmentEndsOnce(reply: nat -> Reply, pk: string, maxPages: nat, page: nat)
    requires EquipmentEndsAt(reply, pk, maxPages, page)
    ensures forall n: nat :: EquipmentEndsAt(reply, pk, maxPages, n) <==> n == page
  {
    forall n: nat | EquipmentEndsAt(reply, pk, maxPages, n) ensures n == page {
      assert n < page ==> FullPage(reply(n));
      assert n > page ==> FullPage(reply(page));
    }
  }

  lemma EndsWithinTable(reply: nat -> Reply, table: seq<Record>, pk: string, maxPages: nat, n: nat)
    requires Serves(reply, table) && EquipmentEndsAt(reply, pk, maxPages, n)
    ensures Joined(reply, n + 1) == table && |table| < maxPages * SELECT_ROW_LIMIT && Keyed(table, pk)
  {
    hide Keyed, FullPage;
    JoinedIsTable(reply, table, n + 1);
    assert |PageAt(table, n)| < SELECT_ROW_LIMIT;
    assert table[..|table|] == table;
  }

  lemma TableEnds(reply: nat -> Reply, table: seq<Record>, pk: string, maxPages: nat)
    requires Serves(reply, table) && |table| < maxPages * SELECT_ROW_LIMIT && Keyed(table, pk)
    ensures EquipmentEndsAt(reply, pk, maxPages, |table| / SELECT_ROW_LIMIT)
  {
    hide Keyed;
    var n := |table| / SELECT_ROW_LIMIT;
    JoinedIsTable(reply, table, n + 1);
    assert table[..|table|] == table;
    assert reply(n) == Rows(PageAt(table, n)) && |PageAt(table, n)| == |table| - n * SELECT_ROW_LIMIT;
    forall p: nat | 0 <= p < n ensures FullPage(reply(p)) {
      assert reply(p) == Rows(PageAt(table, p));
    }
  }

  /** A standing table is read as complete exactly when its keys are good and it ends below the cap. */
  lemma CompleteEquipmentIsTable(reply: nat -> Reply, table: seq<Record>, pk: string, maxPages: nat)
    requires Serves(reply, table)
    ensures (exists n: nat :: EquipmentEndsAt(reply, pk, maxPages, n)) <==> |table| < maxPages * SELECT_ROW_LIMIT && Keyed(table, pk)
    ensures forall n: nat | EquipmentEndsAt(reply, pk, maxPages, n) :: Joined(reply, n + 1) == table
  {
    hide Keyed, EquipmentEndsAt, Joined, Serves;
    forall n: nat | EquipmentEndsAt(reply, pk, maxPages, n)
      ensures Joined(reply, n + 1) == table && |table| < maxPages * SELECT_ROW_LIMIT && Keyed(table, pk)
    {
      EndsWithinTable(reply, table, pk, maxPages, n);
    }
    if |table| < maxPages * SELECT_ROW_LIMIT && Keyed(table, pk) {
      TableEnds(reply, table, pk, maxPages);
    }
  }
}
