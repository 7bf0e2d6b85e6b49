/** Splitting a semicolon-separated quoted line. */
module CsvSplit {

  // ----- the code

  /** What the loop still produces from the rest of a line. */
  function Scan(rest: string, current: string, inQuotes: bool): (fields: seq<string>)
    ensures fields != []
    decreases |rest|
  {
    if rest == [] then [current]
    else if rest[0] == '"' then
      if inQuotes && |rest| > 1 && rest[1] == '"' then Scan(rest[2..], current + ['"'], inQuotes)
      else Scan(rest[1..], current, !inQuotes)
    else if rest[0] == ';' && !inQuotes then [current] + Scan(rest[1..], [], inQuotes)
    else Scan(rest[1..], current + [rest[0]], inQuotes)
  }

  function Split(line: string): seq<string> {
    Scan(line, [], false)
  }

  method SplitQuotedSemicolon(line: string) returns (fields: seq<string>)
    ensures fields == Split(line)
  {
    fields := [];
    var current: string := [];
    var inQuotes := false;
    var i := 0;
    assert line[0..] == line;
    while i < |line|
      invariant 0 <= i <= |line|
      invariant fields + Scan(line[i..], current, inQuotes) == Split(line)
    {
      var ch := line[i];
      assert line[i..][0] == ch && line[i..][1..] == line[i + 1..];
      if ch == '"' {
        if inQuotes && i + 1 < |line| && line[i + 1] == '"' {
          assert line[i..][1] == '"' && line[i..][2..] == line[i + 2..];
          current := current + ['"'];
          i := i + 1;
        } else {
          inQuotes := !inQuotes;
        }
        i := i + 1;
        continue;
      }
      if ch == ';' && !inQuotes {
        assert fields + ([current] + Scan(line[i + 1..], [], inQuotes)) == (fields + [current]) + Scan(line[i + 1..], [], inQuotes);
        fields := fields + [current];
        current := [];
        i := i + 1;
        continue;
      }
      current := current + [ch];
      i := i + 1;
    }
    fields := fields + [current];
  }

  // ----- printing

  /** A field as it may be written: in quotes with inner quotes doubled (section 2 of RFC 4180), or bare. */
  datatype Written = Quoted(field: string) | Bare(field: string)

  function Doubled(field: string): string {
    if field == [] then []
    else if field[0] == '"' then ['"', '"'] + Doubled(field[1..])
    else [field[0]] + Doubled(field[1..])
  }

  function Print1(w: Written): string {
    match w
    case Quoted(field) => ['"'] + (Doubled(field) + ['"'])
    case Bare(field) => field
  }

  function Print(ws: seq<Written>): string
    requires ws != []
  {
    if |ws| == 1 then Print1(ws[0]) else Print1(ws[0]) + ([';'] + Print(ws[1..]))
  }

  /** Bare text may hold neither a quote nor a semicolon. */
  predicate Printable(ws: seq<Written>) {
    forall i | 0 <= i < |ws| && ws[i].Bare? :: '"' !in ws[i].field && ';' !in ws[i].field
  }

  function Fields(ws: seq<Written>): seq<string> {
    seq(|ws|, i requires 0 <= i < |ws| => ws[i].field)
  }

  predicate EndsField(rest: string) {
    rest == [] || rest[0] == ';'
  }

  lemma {:induction false} ScanQuoted(field: string, rest: string, current: string)
    requires EndsField(rest)
    ensures Scan(Doubled(field) + (['"'] + rest), current, true) == Scan(rest, current + field, false)
  {
    var tail := ['"'] + rest;
    if field == [] {
      assert Doubled(field) + tail == tail && tail[1..] == rest && current + field == current;
    } else {
      ScanDoubled(field, tail, current);
      hide Scan, Doubled;
      ScanQuoted(field[1..], rest, current + [field[0]]);
      assert current + [field[0]] + field[1..] == current + field;
    }
  }

  /** Inside quotes one character of the field is read back, doubled or not. */
  lemma ScanDoubled(field: string, tail: string, current: string)
    requires field != []
    ensures Scan(Doubled(field) + tail, current, true) == Scan(Doubled(field[1..]) + tail, current + [field[0]], true)
  {
    var text, more := Doubled(field) + tail, Doubled(field[1..]) + tail;
    if field[0] == '"' {
      assert text[0] == '"' && text[1] == '"' && text[2..] == more;
    } else {
      assert text[0] == field[0] && text[1..] == more;
    }
  }

  lemma {:induction false} ScanBare(field: string, rest: string, current: string)
    requires '"' !in field && ';' !in field
    ensures Scan(field + rest, current, false) == Scan(rest, current + field, false)
  {
    if field == [] {
      assert field + rest == rest && current + field == current;
    } else {
      assert (field + rest)[0] == field[0] && (field + rest)[1..] == field[1..] + rest;
      assert current + field == current + [field[0]] + field[1..];
      ScanBare(field[1..], rest, current + [field[0]]);
    }
  }

  lemma ScanOpening(field: string, rest: string)
    ensures Scan(Print1(Quoted(field)) + rest, [], false) == Scan(Doubled(field) + (['"'] + rest), [], true)
  {
    var text, more := Print1(Quoted(field)) + rest, Doubled(field) + (['"'] + rest);
    assert text[0] == '"';
    assert text[1..] == more;
    hide Doubled;
  }

  lemma ScanWritten(w: Written, rest: string)
    requires EndsField(rest) && (w.Bare? ==> '"' !in w.field && ';' !in w.field)
    ensures Scan(Print1(w) + rest, [], false) == Scan(rest, w.field, false)
  {
    assert [] + w.field == w.field;
    hide Scan, Doubled;
    match w
    case Quoted(field) =>
      ScanOpening(field, rest);
      ScanQuoted(field, rest, []);
    case Bare(field) =>
      ScanBare(field, rest, []);
  }

  /** Splitting undoes printing, whatever semicolons and quotes the fields contain. */
  lemma {:induction false} SplitUndoesPrint(ws: seq<Written>)
    requires ws != [] && Printable(ws)
    ensures Split(Print(ws)) == Fields(ws)
    decreases |ws|
  {
    if |ws| == 1 {
      assert Print1(ws[0]) + [] == Print1(ws[0]);
      ScanWritten(ws[0], []);
    } else {
      var rest := [';'] + Print(ws[1..]);
      ScanWritten(ws[0], rest);
      assert rest[1..] == Print(ws[1..]);
      SplitUndoesPrint(ws[1..]);
      assert Fields(ws) == [ws[0].field] + Fields(ws[1..]);
    }
  }

  // ----- any line

  /** Semicolons that an even number of quotes stands before, on from here. */
  function OpenSemicolons(rest: string, inQuotes: bool): nat {
    if rest == [] then 0
    else if rest[0] == '"' then OpenSemicolons(rest[1..], !inQuotes)
    else OpenSemicolons(rest[1..], inQuotes) + if rest[0] == ';' && !inQuotes then 1 else 0
  }

  /** A line has one field more than semicolons outside quotes. */
  lemma {:induction false} FieldCount(rest: string, current: string, inQuotes: bool)
    ensures |Scan(rest, current, inQuotes)| == OpenSemicolons(rest, inQuotes) + 1
    decreases |rest|
  {
    if rest != [] {
      if rest[0] == '"' && inQuotes && |rest| > 1 && rest[1] == '"' {
        FieldCount(rest[2..], current + ['"'], inQuotes);
        assert rest[1..][1..] == rest[2..];
      } else if rest[0] == '"' {
        FieldCount(rest[1..], current, !inQuotes);
      } else if rest[0] == ';' && !inQuotes {
        FieldCount(rest[1..], [], inQuotes);
      } else {
        FieldCount(rest[1..], current + [rest[0]], inQuotes);
      }
    }
  }
}
