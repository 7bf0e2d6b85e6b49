/** Money text with exactly two decimal places. */
module Money {
  import opened Wrappers
  import opened Text

  /** A text that matches the source's number pattern, taken apart. */
  datatype Decimal = Decimal(neg: bool, whole: string, frac: string)

  // ----- reading

  function ReplaceComma(s: string): string {
    if s == [] then []
    else if s[0] == ',' then ['.'] + s[1..]
    else [s[0]] + ReplaceComma(s[1..])
  }

  function Prepared(raw: string): string {
    ReplaceComma(Trim(raw))
  }

  function DotAt(s: string): (i: nat)
    ensures i <= |s|
    ensures i < |s| ==> s[i] == '.'
    ensures forall k | 0 <= k < i :: s[k] != '.'
  {
    if s == [] || s[0] == '.' then 0 else 1 + DotAt(s[1..])
  }

  /** `/^-?\d+(\.\d+)?$/`. */
  function Parse(s: string): Option<Decimal> {
    var neg := s != [] && s[0] == '-';
    var body := if neg then s[1..] else s;
    var dot := DotAt(body);
    var whole := body[..dot];
    var frac := if dot < |body| then body[dot + 1..] else [];
    if whole != [] && AllDigits(whole) && AllDigits(frac) && (dot < |body| ==> frac != []) then Some(Decimal(neg, whole, frac))
    else None
  }

  predicate WellFormed(d: Decimal) {
    d.whole != [] && AllDigits(d.whole) && AllDigits(d.frac)
  }

  // ----- numbers

  function Pow10(n: nat): (p: nat)
    ensures p > 0
  {
    if n == 0 then 1 else 10 * Pow10(n - 1)
  }

  /** The digits of a decimal as one number; its value is this over ten to the number of decimals. */
  function Units(d: Decimal): nat
    requires WellFormed(d)
  {
    Num(d.whole + d.frac)
  }

  /** Hundredths: the nearest, and of two equally near the larger one. */
  function Hundredths(n: nat, p: nat): nat
    requires p > 0
  {
    (200 * n + p) / (2 * p)
  }

  function ToText(n: nat): string {
    if n < 10 then [n as char + '0'] else ToText(n / 10) + [(n % 10) as char + '0']
  }

  function Padded(n: nat): string
    requires n < 100
  {
    [(n / 10) as char + '0', (n % 10) as char + '0']
  }

  /** No sign on zero. */
  function Printed(neg: bool, scaled: nat): string {
    (if neg && scaled != 0 then ['-'] else []) + (ToText(scaled / 100) + (['.'] + Padded(scaled % 100)))
  }

  function Format(raw: string): string {
    var s := Prepared(raw);
    if s == [] then []
    else if Parse(s).None? then raw
    else
      ParsedIsWellFormed(s);
      var d := Parse(s).value;
      Printed(d.neg, Hundredths(Units(d), Pow10(|d.frac|)))
  }

  lemma ParsedIsWellFormed(s: string)
    ensures Parse(s).Some? ==> WellFormed(Parse(s).value)
  {
  }

  // ----- rounding

  /** `2·p·q` is the last even multiple not above: what division by a positive number means. */
  lemma HundredthsAre(n: nat, p: nat)
    requires p > 0
    ensures var q := Hundredths(n, p); 2 * (p * q) <= 200 * n + p < 2 * (p * q) + 2 * p
  {
    var q := Hundredths(n, p);
    var a, b := 200 * n + p, 2 * p;
    assert a == b * (a / b) + a % b;
    assert b * q == 2 * (p * q);
  }

  lemma HundredthsUnique(n: nat, p: nat, q: nat)
    requires p > 0 && 2 * (p * q) <= 200 * n + p < 2 * (p * q) + 2 * p
    ensures q == Hundredths(n, p)
  {
    HundredthsAre(n, p);
    var r := Hundredths(n, p);
    if q < r {
      MulStep(p, q, r);
    } else if r < q {
      MulStep(p, r, q);
    }
  }

  lemma MulStep(p: nat, a: nat, b: nat)
    requires a < b
    ensures p * a + p <= p * b
  {
    var d := b - a - 1;
    assert p * b == p * a + p + p * d;
  }

  /** Within half a hundredth; a half goes away from zero. */
  lemma NearestHundredth(n: nat, p: nat)
    requires p > 0
    ensures
      var error: int := p * Hundredths(n, p) - 100 * n;
      0 < 2 * error + p && 2 * error <= p
  {
    HundredthsAre(n, p);
  }

  lemma {:induction false} PowSplit(k: nat)
    ensures Pow10(k + 2) == 100 * Pow10(k)
  {
    assert Pow10(k + 2) == 10 * Pow10(k + 1);
  }

  lemma {:induction false} ManyDecimals(n: nat, div: nat)
    requires div > 0
    ensures Hundredths(n, 100 * div) == n / div + if (n % div) * 2 >= div then 1 else 0
  {
    var q, rem := n / div, n % div;
    var up := if rem * 2 >= div then 1 else 0;
    assert n == div * q + rem;
    var p, x := 100 * div, div * q;
    assert p * (q + up) == 100 * x + 100 * (div * up);
    HundredthsUnique(n, p, q + up);
  }

  lemma FewDecimals(n: nat, p: nat, scale: nat)
    requires p > 0 && p * scale == 100
    ensures Hundredths(n, p) == n * scale
  {
    assert p * (n * scale) == n * (p * scale) == 100 * n;
    HundredthsUnique(n, p, n * scale);
  }

  // ----- the code

  method FormatMoney2(raw: string) returns (text: string)
    ensures text == Format(raw)
  {
    hide Parse, Trim, Hundredths;
    var s := Prepared(raw);
    if s == [] {
      return [];
    }
    var parsed := Parse(s);
    if parsed.None? {
      return raw;
    }
    ParsedIsWellFormed(s);
    var d := parsed.value;
    var digits := StripZeros(d.whole + d.frac);
    StripKeepsNumber(d.whole + d.frac);
    var scaled := ToHundredths(Num(digits), |d.frac|);
    text := (if d.neg && scaled != 0 then ['-'] else []) + (ToText(scaled / 100) + (['.'] + Padded(scaled % 100)));
  }

  /** Divides and rounds what has more than two decimals, multiplies what has fewer. */
  method ToHundredths(n: nat, scale: nat) returns (scaled: nat)
    ensures scaled == Hundredths(n, Pow10(scale))
  {
    hide Hundredths, Pow10;
    scaled := n;
    if scale > 2 {
      var div := Pow10(scale - 2);
      var rem := scaled % div;
      scaled := scaled / div;
      if rem * 2 >= div {
        scaled := scaled + 1;
      }
      ScaledDown(n, scale);
    } else {
      if scale < 2 {
        scaled := scaled * Pow10(2 - scale);
      }
      ScaledUp(n, scale);
    }
  }

  lemma ScaledDown(n: nat, scale: nat)
    requires scale > 2
    ensures
      var div := Pow10(scale - 2);
      Hundredths(n, Pow10(scale)) == n / div + if (n % div) * 2 >= div then 1 else 0
  {
    PowSplit(scale - 2);
    ManyDecimals(n, Pow10(scale - 2));
  }

  lemma ScaledUp(n: nat, scale: nat)
    requires scale <= 2
    ensures Hundredths(n, Pow10(scale)) == if scale < 2 then n * Pow10(2 - scale) else n
  {
    SmallPowers();
    hide Hundredths;
    if scale == 0 {
      FewDecimals(n, 1, 100);
    } else if scale == 1 {
      FewDecimals(n, 10, 10);
    } else {
      FewDecimals(n, 100, 1);
    }
  }

  lemma SmallPowers()
    ensures Pow10(0) == 1 && Pow10(1) == 10 && Pow10(2) == 100
  {
    assert Pow10(1) == 10 * Pow10(0);
  }

  /** `replace(/^0+(?=\d)/, "")`. */
  function StripZeros(digits: string): string {
    if |digits| > 1 && digits[0] == '0' then StripZeros(digits[1..]) else digits
  }

  lemma {:induction false} NumOfLeadingZero(digits: string)
    requires digits != [] && AllDigits(digits) && digits[0] == '0'
    ensures Num(digits) == Num(digits[1..])
    decreases |digits|
  {
    if |digits| > 1 {
      var n := |digits| - 1;
      NumOfLeadingZero(digits[..n]);
      assert digits[..n][1..] == digits[1..][..n - 1];
    }
  }

  lemma {:induction false} StripKeepsNumber(digits: string)
    requires AllDigits(digits)
    ensures AllDigits(StripZeros(digits)) && Num(StripZeros(digits)) == Num(digits)
  {
    if |digits| > 1 && digits[0] == '0' {
      NumOfLeadingZero(digits);
      StripKeepsNumber(digits[1..]);
    }
  }

  // ----- printing and reading back

  lemma DigitChar(n: nat)
    requires n < 10
    ensures IsDigit(n as char + '0') && (n as char + '0') - '0' == n as char
  {
  }

  lemma {:induction false} ToTextIsNumber(n: nat)
    ensures ToText(n) != [] && AllDigits(ToText(n)) && Num(ToText(n)) == n
  {
    if n >= 10 {
      ToTextIsNumber(n / 10);
      DigitChar(n % 10);
      var s := ToText(n);
      assert s[..|s| - 1] == ToText(n / 10);
    } else {
      DigitChar(n);
      assert ToText(n)[..0] == [];
    }
  }

  lemma PaddedAppends(text: string, n: nat)
    requires AllDigits(text) && n < 100
    ensures AllDigits(text + Padded(n)) && Num(text + Padded(n)) == Num(text) * 100 + n
  {
    DigitChar(n / 10);
    DigitChar(n % 10);
    var s := text + Padded(n);
    assert s[..|s| - 1] == text + [(n / 10) as char + '0'];
    assert s[..|s| - 1][..|s| - 2] == text;
  }

  lemma {:induction false} NoDot(s: string, rest: string)
    requires AllDigits(s)
    ensures DotAt(s + (['.'] + rest)) == |s|
  {
    if s == [] {
      assert s + (['.'] + rest) == ['.'] + rest;
    } else {
      assert (s + (['.'] + rest))[1..] == s[1..] + (['.'] + rest);
      NoDot(s[1..], rest);
    }
  }

  lemma {:induction false} NoComma(s: string)
    requires ',' !in s
    ensures ReplaceComma(s) == s
  {
    if s != [] {
      NoComma(s[1..]);
    }
  }

  function Joined(neg: bool, whole: string, frac: string): string {
    (if neg then ['-'] else []) + (whole + (['.'] + frac))
  }

  lemma BodySplits(whole: string, frac: string)
    requires whole != [] && AllDigits(whole) && frac != []
    ensures
      var body := whole + (['.'] + frac);
      DotAt(body) == |whole| && body[..|whole|] == whole && body[|whole| + 1..] == frac && IsDigit(body[0])
  {
    NoDot(whole, frac);
  }

  lemma ParseUndoes(neg: bool, whole: string, frac: string)
    requires whole != [] && AllDigits(whole) && frac != [] && AllDigits(frac)
    ensures Parse(Joined(neg, whole, frac)) == Some(Decimal(neg, whole, frac))
  {
    var body := whole + (['.'] + frac);
    BodySplits(whole, frac);
    var s := Joined(neg, whole, frac);
    assert if neg then s[0] == '-' && s[1..] == body else s == body && s[0] != '-';
    hide DotAt, AllDigits;
  }

  lemma PreparedAlready(neg: bool, whole: string, frac: string)
    requires whole != [] && AllDigits(whole) && frac != [] && AllDigits(frac)
    ensures var s := Joined(neg, whole, frac); Prepared(s) == s && s != []
  {
    var s := Joined(neg, whole, frac);
    assert s[0] == if neg then '-' else whole[0];
    assert s[|s| - 1] == frac[|frac| - 1];
    assert IsDigit(whole[0]) && IsDigit(frac[|frac| - 1]);
    hide ReplaceComma;
    assert Trim(s) == s;
    assert ',' !in whole && ',' !in frac;
    NoComma(s);
  }

  /** Printed hundredths read back as themselves. */
  lemma PrintedReadsBack(neg: bool, scaled: nat)
    ensures
      var s, d := Printed(neg, scaled), Decimal(neg && scaled != 0, ToText(scaled / 100), Padded(scaled % 100));
      && s != [] && Prepared(s) == s && Parse(s) == Some(d) && WellFormed(d) && Units(d) == scaled && |d.frac| == 2
  {
    var whole, frac := ToText(scaled / 100), Padded(scaled % 100);
    ToTextIsNumber(scaled / 100);
    DigitChar(scaled % 100 / 10);
    DigitChar(scaled % 100 % 10);
    PaddedAppends(whole, scaled % 100);
    hide ToText, Num, Parse, Prepared;
    ParseUndoes(neg && scaled != 0, whole, frac);
    PreparedAlready(neg && scaled != 0, whole, frac);
  }

  // ----- what the format promises

  /** A cell the format reads as a number. */
  predicate IsMoney(raw: string) {
    Prepared(raw) != [] && Parse(Prepared(raw)).Some?
  }

  function Read(raw: string): Decimal
    requires IsMoney(raw)
    ensures WellFormed(Read(raw))
  {
    ParsedIsWellFormed(Prepared(raw));
    Parse(Prepared(raw)).value
  }

  function Signed(d: Decimal): int
    requires WellFormed(d)
  {
    WithSign(d.neg, Units(d))
  }

  function WithSign(neg: bool, n: int): int {
    if neg then -n else n
  }

  function Scale(d: Decimal): (p: nat)
    ensures p > 0
  {
    Pow10(|d.frac|)
  }

  /** The hundredths a number is printed as, with its sign. */
  function SignedHundredths(d: Decimal): int
    requires WellFormed(d)
  {
    WithSign(d.neg, Hundredths(Units(d), Scale(d)))
  }

  lemma FormatIsPrinted(raw: string)
    requires IsMoney(raw)
    ensures Format(raw) == Printed(Read(raw).neg, Hundredths(Units(Read(raw)), Scale(Read(raw))))
  {
    hide Trim, ReplaceComma, Hundredths, Units, Printed;
  }

  lemma PrintedIsMoney(neg: bool, q: nat)
    ensures IsMoney(Printed(neg, q)) && |Read(Printed(neg, q)).frac| == 2
    ensures Signed(Read(Printed(neg, q))) == WithSign(neg, q) && Units(Read(Printed(neg, q))) == q
  {
    PrintedReadsBack(neg, q);
    hide Prepared, Parse, Printed, ToText, Padded, Num;
  }

  /** A formatted number is a number with two decimals, worth the signed hundredths. */
  lemma FormatSigned(raw: string)
    requires IsMoney(raw)
    ensures IsMoney(Format(raw)) && |Read(Format(raw)).frac| == 2
    ensures Signed(Read(Format(raw))) == SignedHundredths(Read(raw))
  {
    FormatIsPrinted(raw);
    hide IsMoney, Format, Read, Hundredths, Units, Printed, Signed;
    PrintedIsMoney(Read(raw).neg, Hundredths(Units(Read(raw)), Scale(Read(raw))));
  }

  /** `r` hundredths are the nearest to `d`, and of two the one away from zero. */
  predicate IsNearest(r: int, d: Decimal)
    requires WellFormed(d)
  {
    var p: int := Scale(d);
    var error := r * p - 100 * Signed(d);
    if d.neg then -p <= 2 * error < p else -p < 2 * error <= p
  }

  /** A number is printed as its nearest hundredths. */
  lemma WithinHalfHundredth(raw: string)
    requires IsMoney(raw)
    ensures IsMoney(Format(raw)) && IsNearest(Signed(Read(Format(raw))), Read(raw))
  {
    FormatSigned(raw);
    hide IsMoney, Format, Read;
    SignedNearest(Read(raw));
  }

  lemma SignedNearest(d: Decimal)
    requires WellFormed(d)
    ensures IsNearest(SignedHundredths(d), d)
  {
    hide Units, Hundredths, Scale, WellFormed;
    var n, p := Units(d), Scale(d);
    var q: int := Hundredths(n, p);
    NearestHundredth(n, p);
    assert q * p == p * q;
    assert (-q) * p == -(p * q);
  }

  /** Nothing else is as near: the hundredths are determined. */
  lemma NearestIsUnique(d: Decimal, r: int)
    requires WellFormed(d) && IsNearest(r, d)
    ensures r == SignedHundredths(d)
  {
    SignedNearest(d);
    hide Units, Hundredths, WellFormed, SignedHundredths, Signed;
    var p, q := Scale(d), SignedHundredths(d);
    hide Scale;
    if r < q {
      Apart(r, q, p);
    } else if q < r {
      Apart(q, r, p);
    }
  }

  lemma Apart(a: int, b: int, p: nat)
    requires a < b
    ensures a * p + p <= b * p
  {
    var d := b - a - 1;
    assert b * p == a * p + p + d * p;
  }

  /** Twice is once, on every text. */
  lemma Idempotent(raw: string)
    ensures Format(Format(raw)) == Format(raw)
  {
    if IsMoney(raw) {
      FormatIsPrinted(raw);
      var q := Hundredths(Units(Read(raw)), Scale(Read(raw)));
      PrintedTwice(Read(raw).neg, q);
    } else {
      UntouchedTwice(raw);
    }
  }

  lemma UntouchedTwice(raw: string)
    requires !IsMoney(raw)
    ensures Format(Format(raw)) == Format(raw)
  {
    hide Parse;
    assert Prepared([]) == [];
  }

  lemma PrintedTwice(neg: bool, q: nat)
    ensures Format(Printed(neg, q)) == Printed(neg, q)
  {
    PrintedReadsBack(neg, q);
    SmallPowers();
    FewDecimals(q, 100, 1);
    hide Hundredths, Prepared, Parse, Units;
  }

  /** A minus sign before a cell is a minus sign before its text, unless that is zero. */
  lemma OddInSign(raw: string)
    requires IsMoney(raw) && !Read(raw).neg
    ensures
      var other := ['-'] + Trim(raw);
      IsMoney(other) && Format(other) == if Format(raw) == "0.00" then Format(raw) else ['-'] + Format(raw)
  {
    hide IsMoney, Read, Format, Printed, Trim, Hundredths, Units, Scale;
    MinusBefore(raw);
    FormatIsPrinted(raw);
    FormatIsPrinted(['-'] + Trim(raw));
    SameDigits(Read(raw));
    PrintedSign(Hundredths(Units(Read(raw)), Scale(Read(raw))));
  }

  lemma SameDigits(d: Decimal)
    requires WellFormed(d)
    ensures Units(d.(neg := true)) == Units(d) && Scale(d.(neg := true)) == Scale(d)
  {
  }

  lemma PrintedSign(q: nat)
    ensures Printed(true, q) == if Printed(false, q) == "0.00" then Printed(false, q) else ['-'] + Printed(false, q)
  {
    ZeroText(q);
    hide ToText, Padded;
    assert [] + Printed(false, q) == Printed(false, q);
  }

  lemma MinusBefore(raw: string)
    requires IsMoney(raw) && !Read(raw).neg
    ensures var other := ['-'] + Trim(raw); IsMoney(other) && Read(other) == Read(raw).(neg := true)
  {
    MinusPrepared(raw);
    MinusParses(Prepared(raw));
    hide Prepared, Parse;
  }

  lemma MinusPrepared(raw: string)
    requires Prepared(raw) != []
    ensures Prepared(['-'] + Trim(raw)) == ['-'] + Prepared(raw)
  {
    var s, other := Trim(raw), ['-'] + Trim(raw);
    hide Trim;
    TrimmedStays(other);
    assert other[1..] == s;
  }

  lemma MinusParses(s: string)
    requires Parse(s).Some? && !Parse(s).value.neg
    ensures Parse(['-'] + s) == Some(Parse(s).value.(neg := true))
  {
    hide DotAt;
    assert (['-'] + s)[1..] == s;
  }

  lemma TrimmedStays(s: string)
    requires s != [] && !IsSpace(s[0]) && !IsSpace(s[|s| - 1])
    ensures Trim(s) == s
  {
  }

  lemma ZeroText(q: nat)
    ensures Printed(false, q) == "0.00" <==> q == 0
  {
    ZeroPrinted();
    PrintedIsMoney(false, q);
    PrintedIsMoney(false, 0);
    hide Printed, IsMoney, Read, Units;
  }

  lemma ZeroPrinted()
    ensures Printed(false, 0) == "0.00"
  {
    assert ToText(0) == "0" && Padded(0) == "00";
  }

  /** A minus sign is printed only before a number below zero, whatever the cell was. */
  lemma NoNegativeZero(raw: string)
    requires IsMoney(raw)
    ensures Format(raw) != [] && IsMoney(Format(raw))
    ensures Format(raw)[0] == '-' ==> Signed(Read(Format(raw))) < 0
  {
    FormatSigned(raw);
    FormatIsPrinted(raw);
    var d := Read(raw);
    var q := Hundredths(Units(d), Scale(d));
    SignShown(d.neg, q);
    hide IsMoney, Format, Read, Hundredths, Units, Printed;
  }

  lemma SignShown(neg: bool, q: nat)
    ensures Printed(neg, q) != [] && (Printed(neg, q)[0] == '-' <==> neg && q != 0)
  {
    ToTextIsNumber(q / 100);
    hide ToText, Num;
    assert IsDigit(ToText(q / 100)[0]);
  }

  lemma HundredthsMonotone(n: nat, p: nat, m: nat, r: nat)
    requires p > 0 && r > 0 && n * r <= m * p
    ensures Hundredths(n, p) <= Hundredths(m, r)
  {
    var a, b := Hundredths(n, p), Hundredths(m, r);
    HundredthsAre(n, p);
    HundredthsAre(m, r);
    if a > b {
      MulStep(r, b, a);
      hide Hundredths;
      CrossedRounding(n, p, m, r, a);
    }
  }

  /** No number of hundredths is at most the one and above the other when the values are the other way round. */
  lemma CrossedRounding(n: nat, p: nat, m: nat, r: nat, a: nat)
    requires p > 0 && n * r <= m * p
    requires 2 * (p * a) <= 200 * n + p
    ensures 2 * (r * a) <= 200 * m + r
  {
    var x, y := p * a, r * a;
    Scaled(2 * x, 200 * n + p, r);
    assert 2 * y * p == 2 * x * r;
    assert (200 * n + p) * r == 200 * (n * r) + p * r;
    assert (200 * m + r) * p == 200 * (m * p) + p * r;
    Cancelled(2 * y, 200 * m + r, p);
  }

  lemma Cancelled(a: int, b: int, k: int)
    requires k > 0 && a * k <= b * k
    ensures a <= b
  {
    if a > b {
      Apart(b, a, k);
    }
  }

  lemma Scaled(a: int, b: int, k: nat)
    requires a <= b
    ensures a * k <= b * k
  {
  }

  /** A larger number is not printed as a smaller one. */
  lemma Monotone(a: string, b: string)
    requires IsMoney(a) && IsMoney(b)
    requires Signed(Read(a)) * Scale(Read(b)) <= Signed(Read(b)) * Scale(Read(a))
    ensures IsMoney(Format(a)) && IsMoney(Format(b)) && Signed(Read(Format(a))) <= Signed(Read(Format(b)))
  {
    FormatSigned(a);
    FormatSigned(b);
    hide Format, IsMoney, Units, Hundredths, Read;
    SignedMonotone(Read(a), Read(b));
  }

  lemma SignedMonotone(d: Decimal, e: Decimal)
    requires WellFormed(d) && WellFormed(e) && Signed(d) * Scale(e) <= Signed(e) * Scale(d)
    ensures SignedHundredths(d) <= SignedHundredths(e)
  {
    hide Units, Hundredths, Scale, WellFormed;
    var n: int, p, m: int, r := Units(d), Scale(d), Units(e), Scale(e);
    assert (-n) * r == -(n * r) && (-m) * p == -(m * p);
    if d.neg && e.neg {
      HundredthsMonotone(m, r, n, p);
    } else if !d.neg && !e.neg {
      HundredthsMonotone(n, p, m, r);
    } else if !d.neg {
      NothingThere(n, r);
      NothingThere(m, p);
      HundredthsOfZero(p);
      HundredthsOfZero(r);
    }
  }

  lemma NothingThere(n: nat, r: nat)
    requires r > 0
    ensures n * r >= 0 && (n * r == 0 ==> n == 0)
  {
  }

  lemma HundredthsOfZero(p: nat)
    requires p > 0
    ensures Hundredths(0, p) == 0
  {
    HundredthsUnique(0, p, 0);
  }
}
