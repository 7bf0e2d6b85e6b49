/** Cutting a text to a number of UTF-8 bytes without splitting a code point. */
module Utf8 {
  import opened Wrappers

  type Byte = b: nat | b < 256

  /** Unicode scalar values. */
  type Scalar = c: nat | c < 0xD800 || 0xE000 <= c < 0x110000

  /** UTF-16 code units, what a text is made of; a surrogate may stand alone. */
  type Unit = u: nat | u < 0x10000

  predicate High(u: nat) {
    0xD800 <= u < 0xDC00
  }

  predicate Low(u: nat) {
    0xDC00 <= u < 0xE000
  }

  /** The four forms of section 3 of RFC 3629. */
  function Encode1(c: Scalar): seq<Byte> {
    var c1 := c / 64;
    var c2 := c1 / 64;
    var c3 := c2 / 64;
    if c < 0x80 then [c]
    else if c < 0x800 then [0xC0 + c1, 0x80 + c % 64]
    else if c < 0x10000 then [0xE0 + c2, 0x80 + c1 % 64, 0x80 + c % 64]
    else [0xF0 + c3, 0x80 + c2 % 64, 0x80 + c1 % 64, 0x80 + c % 64]
  }

  function Encode(text: seq<Scalar>): seq<Byte> {
    if text == [] then [] else Encode1(text[0]) + Encode(text[1..])
  }

  const REPLACEMENT: Scalar := 0xFFFD

  function Paired(high: nat, low: nat): Scalar
    requires High(high) && Low(low)
  {
    0x10000 + (high - 0xD800) * 0x400 + (low - 0xDC00)
  }

  /** The scalar values an encoder sees: a surrogate that is not half of a pair is the replacement character. */
  function Scalars(text: seq<Unit>): (s: seq<Scalar>)
    ensures |s| <= |text|
  {
    if text == [] then []
    else if High(text[0]) && |text| > 1 && Low(text[1]) then
      [Paired(text[0], text[1])] + Scalars(text[2..])
    else if High(text[0]) || Low(text[0]) then [REPLACEMENT] + Scalars(text[1..])
    else [text[0]] + Scalars(text[1..])
  }

  function Units1(c: Scalar): seq<Unit> {
    if c < 0x10000 then [c] else [0xD800 + (c - 0x10000) / 0x400, 0xDC00 + (c - 0x10000) % 0x400]
  }

  function Units(s: seq<Scalar>): seq<Unit> {
    if s == [] then [] else Units1(s[0]) + Units(s[1..])
  }

  /** `Buffer.byteLength(text, "utf8")`. */
  function ByteLength(text: seq<Unit>): nat {
    |Encode(Scalars(text))|
  }

  /** `(b & 0xc0) === 0x80`. */
  predicate Continuation(b: Byte) {
    b / 64 == 2
  }

  function AsScalar(n: nat): Scalar {
    if n < 0xD800 || 0xE000 <= n < 0x110000 then n else REPLACEMENT
  }

  /** The six bits a continuation byte adds to `high`. */
  function Join(high: nat, low: nat): nat {
    high * 64 + low % 64
  }

  function Lead(b: nat, base: nat): nat {
    if b < base then 0 else b - base
  }

  /** Decoding; what it makes of malformed input is not the decoder's of the runtime. */
  function Decode(bytes: seq<Byte>): seq<Scalar> {
    if bytes == [] then []
    else
      var b := bytes[0];
      if b < 0x80 then [b] + Decode(bytes[1..])
      else if 0xC0 <= b < 0xE0 && |bytes| >= 2 then
        [AsScalar(Join(Lead(b, 0xC0), bytes[1]))] + Decode(bytes[2..])
      else if 0xE0 <= b < 0xF0 && |bytes| >= 3 then
        [AsScalar(Join(Join(Lead(b, 0xE0), bytes[1]), bytes[2]))] + Decode(bytes[3..])
      else if 0xF0 <= b && |bytes| >= 4 then
        [AsScalar(Join(Join(Join(Lead(b, 0xF0), bytes[1]), bytes[2]), bytes[3]))] + Decode(bytes[4..])
      else [REPLACEMENT] + Decode(bytes[1..])
  }

  /** `[truncated]`. */
  const TRUNCATED: seq<Scalar> := [0x5B, 0x74, 0x72, 0x75, 0x6E, 0x63, 0x61, 0x74, 0x65, 0x64, 0x5D]

  /** A line feed and an ellipsis stand before it. */
  const SUFFIX: seq<Scalar> := [0x0A] + ([0x2026] + TRUNCATED)

  const SUFFIX_BYTES := 15

  // ----- code units

  lemma {:induction false} UnitsAppend(a: seq<Scalar>, b: seq<Scalar>)
    ensures Units(a + b) == Units(a) + Units(b)
  {
    if a == [] {
      assert a + b == b;
    } else {
      hide Units1;
      assert (a + b)[1..] == a[1..] + b;
      UnitsAppend(a[1..], b);
      assert Units1(a[0]) + (Units(a[1..]) + Units(b)) == (Units1(a[0]) + Units(a[1..])) + Units(b);
    }
  }

  lemma UnitsPrefix(s: seq<Scalar>, k: nat)
    requires k <= |s|
    ensures Units(s[..k]) <= Units(s)
  {
    hide Units;
    UnitsAppend(s[..k], s[k..]);
    assert s[..k] + s[k..] == s;
  }

  lemma ScalarsFirst(c: Scalar, rest: seq<Unit>)
    ensures Scalars(Units1(c) + rest) == [c] + Scalars(rest)
  {
    var text := Units1(c) + rest;
    if c < 0x10000 {
      assert text[1..] == rest;
    } else {
      var high, low := (c - 0x10000) / 0x400, (c - 0x10000) % 0x400;
      assert c == 0x10000 + high * 0x400 + low && high < 0x400;
      assert text[0] == 0xD800 + high && text[1] == 0xDC00 + low && text[2..] == rest;
    }
  }

  lemma {:induction false} ScalarsUndoUnits(s: seq<Scalar>)
    ensures Scalars(Units(s)) == s
  {
    if s != [] {
      ScalarsFirst(s[0], Units(s[1..]));
      hide Scalars, Units1;
      ScalarsUndoUnits(s[1..]);
    } else {
      assert Scalars([]) == [];
    }
  }

  /** The surrogate at `i` has no partner beside it. */
  predicate LoneAt(text: seq<Unit>, i: nat)
    requires i < |text|
  {
    || (High(text[i]) && !(i + 1 < |text| && Low(text[i + 1])))
    || (Low(text[i]) && !(i > 0 && High(text[i - 1])))
  }

  /** Encoding and decoding a text changes exactly its lone surrogates. */
  lemma {:induction false} Repairs(text: seq<Unit>, i: nat)
    requires i < |text|
    ensures |Units(Scalars(text))| == |text|
    ensures Units(Scalars(text))[i] == if LoneAt(text, i) then REPLACEMENT else text[i]
  {
    if High(text[0]) && |text| > 1 && Low(text[1]) {
      RepairsPair(text);
      if |text| > 2 {
        Repairs(text[2..], if i < 2 then 0 else i - 2);
      }
    } else {
      RepairsOne(text);
      if |text| > 1 {
        Repairs(text[1..], if i == 0 then 0 else i - 1);
      }
    }
  }

  lemma PairedUnits(high: Unit, low: Unit)
    requires High(high) && Low(low)
    ensures Units1(Paired(high, low)) == [high, low]
  {
    var h, l := high - 0xD800, low - 0xDC00;
    assert (h * 0x400 + l) / 0x400 == h && (h * 0x400 + l) % 0x400 == l;
  }

  lemma RepairsPair(text: seq<Unit>)
    requires |text| > 1 && High(text[0]) && Low(text[1])
    ensures Units(Scalars(text)) == text[..2] + Units(Scalars(text[2..]))
  {
    hide Units1, Paired;
    var c, rest := Paired(text[0], text[1]), Scalars(text[2..]);
    PairedUnits(text[0], text[1]);
    assert ([c] + rest)[1..] == rest;
    assert text[..2] == [text[0], text[1]];
  }

  lemma RepairsOne(text: seq<Unit>)
    requires text != [] && !(High(text[0]) && |text| > 1 && Low(text[1]))
    ensures Units(Scalars(text)) == [if LoneAt(text, 0) then REPLACEMENT else text[0]] + Units(Scalars(text[1..]))
  {
    assert Scalars(text)[1..] == Scalars(text[1..]);
  }

  // ----- encoding

  lemma {:induction false} EncodeAppend(a: seq<Scalar>, b: seq<Scalar>)
    ensures Encode(a + b) == Encode(a) + Encode(b)
  {
    if a == [] {
      assert a + b == b;
    } else {
      assert (a + b)[1..] == a[1..] + b;
      EncodeAppend(a[1..], b);
      assert Encode1(a[0]) + (Encode(a[1..]) + Encode(b)) == (Encode1(a[0]) + Encode(a[1..])) + Encode(b);
    }
  }

  /** The first byte of a code point is not a continuation, and all others are. */
  lemma LeadAndRest(c: Scalar, i: nat)
    requires i < |Encode1(c)|
    ensures Continuation(Encode1(c)[i]) <==> i > 0
  {
  }

  lemma JoinBack(n: nat)
    ensures Join(n / 64, 0x80 + n % 64) == n
  {
  }

  lemma DecodeTwo(c: Scalar, rest: seq<Byte>)
    requires 0x80 <= c < 0x800
    ensures Decode(Encode1(c) + rest) == [c] + Decode(rest)
  {
    JoinBack(c);
    var bytes := Encode1(c) + rest;
    assert bytes[0] == 0xC0 + c / 64 && bytes[1] == 0x80 + c % 64 && bytes[2..] == rest;
    hide Join, Encode1;
  }

  lemma DecodeThree(c: Scalar, rest: seq<Byte>)
    requires 0x800 <= c < 0x10000
    ensures Decode(Encode1(c) + rest) == [c] + Decode(rest)
  {
    JoinBack(c);
    JoinBack(c / 64);
    var bytes := Encode1(c) + rest;
    assert bytes[0] == 0xE0 + c / 64 / 64 && bytes[1] == 0x80 + c / 64 % 64 && bytes[2] == 0x80 + c % 64 && bytes[3..] == rest;
    hide Join, Encode1;
  }

  lemma DecodeFour(c: Scalar, rest: seq<Byte>)
    requires 0x10000 <= c
    ensures Decode(Encode1(c) + rest) == [c] + Decode(rest)
  {
    JoinBack(c);
    JoinBack(c / 64);
    JoinBack(c / 64 / 64);
    var bytes := Encode1(c) + rest;
    assert bytes[0] == 0xF0 + c / 64 / 64 / 64 && bytes[1] == 0x80 + c / 64 / 64 % 64;
    assert bytes[2] == 0x80 + c / 64 % 64 && bytes[3] == 0x80 + c % 64 && bytes[4..] == rest;
    hide Join, Encode1;
  }

  lemma DecodeFirst(c: Scalar, rest: seq<Byte>)
    ensures Decode(Encode1(c) + rest) == [c] + Decode(rest)
  {
    if c >= 0x10000 {
      DecodeFour(c, rest);
    } else if c >= 0x800 {
      DecodeThree(c, rest);
    } else if c >= 0x80 {
      DecodeTwo(c, rest);
    } else {
      assert ([c] + rest)[1..] == rest;
    }
  }

  lemma {:induction false} DecodeUndoesEncode(text: seq<Scalar>)
    ensures Decode(Encode(text)) == text
  {
    if text != [] {
      hide Decode, Encode1;
      DecodeFirst(text[0], Encode(text[1..]));
      DecodeUndoesEncode(text[1..]);
    } else {
      assert Decode([]) == [];
    }
  }

  lemma EncodeOne(c: Scalar)
    ensures Encode([c]) == Encode1(c)
  {
    hide Encode1;
    assert [c][1..] == [];
    assert Encode1(c) + [] == Encode1(c);
  }

  lemma SuffixLength()
    ensures |Encode(SUFFIX)| == SUFFIX_BYTES
  {
    LengthOfAscii(TRUNCATED);
    assert |Encode1(0x0A)| == 1 && |Encode1(0x2026)| == 3;
    hide Encode, Encode1;
    EncodeOne(0x0A);
    EncodeOne(0x2026);
    EncodeAppend([0x2026], TRUNCATED);
    EncodeAppend([0x0A], [0x2026] + TRUNCATED);
  }

  lemma {:induction false} LengthOfAscii(text: seq<Scalar>)
    requires forall i | 0 <= i < |text| :: text[i] < 0x80
    ensures |Encode(text)| == |text|
  {
    if text != [] {
      LengthOfAscii(text[1..]);
    }
  }

  // ----- the longest prefix of whole code points

  function Fit(text: seq<Scalar>, limit: nat): (k: nat)
    ensures k <= |text|
  {
    if text == [] || |Encode1(text[0])| > limit then 0
    else 1 + Fit(text[1..], limit - |Encode1(text[0])|)
  }

  lemma {:induction false} FitIsLongest(text: seq<Scalar>, limit: nat, k: nat)
    requires k <= |text|
    ensures |Encode(text[..k])| <= limit <==> k <= Fit(text, limit)
  {
    if k > 0 {
      assert text[..k][0] == text[0] && text[..k][1..] == text[1..][..k - 1];
      if |Encode1(text[0])| <= limit {
        FitIsLongest(text[1..], limit - |Encode1(text[0])|, k - 1);
      }
    }
  }

  lemma EncodeSnoc(text: seq<Scalar>, k: nat)
    requires k < |text|
    ensures Encode(text[..k + 1]) == Encode1(text[0]) + Encode(text[1..][..k])
  {
    assert text[..k + 1][0] == text[0] && text[..k + 1][1..] == text[1..][..k];
  }

  /** Between the end of the fitting prefix and the limit there are only continuation bytes. */
  lemma {:induction false} OnlyContinuations(text: seq<Scalar>, limit: nat, p: nat)
    requires |Encode(text[..Fit(text, limit)])| <= p <= limit && p < |Encode(text)|
    ensures Continuation(Encode(text)[p]) <==> p > |Encode(text[..Fit(text, limit)])|
  {
    var size := |Encode1(text[0])|;
    if size <= limit {
      var k := Fit(text[1..], limit - size);
      EncodeSnoc(text, k);
      OnlyContinuations(text[1..], limit - size, p - size);
    } else {
      LeadAndRest(text[0], p);
    }
  }

  lemma PrefixBytes(text: seq<Scalar>, k: nat)
    requires k <= |text|
    ensures |Encode(text[..k])| <= |Encode(text)| && Encode(text)[..|Encode(text[..k])|] == Encode(text[..k])
  {
    assert text == text[..k] + text[k..];
    EncodeAppend(text[..k], text[k..]);
  }

  // ----- the code

  /** Nothing, the whole text, or the longest fitting prefix and the suffix. */
  function Truncated(text: seq<Unit>, maxBytes: int): seq<Unit> {
    if maxBytes <= 0 then []
    else if ByteLength(text) <= maxBytes then text
    else Units(Kept(text, maxBytes) + SUFFIX)
  }

  function Kept(text: seq<Unit>, maxBytes: int): seq<Scalar> {
    Scalars(text)[..Fit(Scalars(text), Max(0, maxBytes - SUFFIX_BYTES))]
  }

  method TruncateUtf8(text: seq<Unit>, maxBytes: int) returns (out: seq<Unit>)
    ensures out == Truncated(text, maxBytes)
  {
    hide Encode, Encode1, Fit, Decode, Continuation, SUFFIX, Scalars, Units;
    if maxBytes <= 0 {
      return [];
    }
    if ByteLength(text) <= maxBytes {
      return text;
    }
    SuffixLength();
    var limit := Max(0, maxBytes - |Encode(SUFFIX)|);
    var buf := Encode(Scalars(text));
    var end := Min(|buf|, limit);
    ghost var s := Scalars(text);
    ghost var k := Fit(s, limit);
    FitIsLongest(s, limit, k);
    while end > 0 && Continuation(buf[end])
      invariant |Encode(s[..k])| <= end <= limit
    {
      OnlyContinuations(s, limit, end);
      end := end - 1;
    }
    OnlyContinuations(s, limit, end);
    PrefixBytes(s, k);
    DecodeUndoesEncode(s[..k]);
    UnitsAppend(s[..k], SUFFIX);
    return Units(Decode(buf[..end])) + Units(SUFFIX);
  }

  /**
   * The result stays within the bound exactly when nothing is kept, the text fits as it
   * is, or the bound has room for the suffix.
   */
  lemma BoundIff(text: seq<Unit>, maxBytes: int)
    ensures ByteLength(Truncated(text, maxBytes)) <= Max(0, maxBytes) <==>
      maxBytes <= 0 || ByteLength(text) <= maxBytes || maxBytes >= SUFFIX_BYTES
  {
    if maxBytes > 0 && ByteLength(text) > maxBytes {
      var s, limit := Scalars(text), Max(0, maxBytes - SUFFIX_BYTES);
      FitIsLongest(s, limit, Fit(s, limit));
      ScalarsUndoUnits(Kept(text, maxBytes) + SUFFIX);
      EncodeAppend(Kept(text, maxBytes), SUFFIX);
      SuffixLength();
    }
  }

  /** Three letters under a bound of one byte come back as fifteen bytes. */
  lemma ShortBoundOverruns()
    ensures ByteLength([0x41, 0x42, 0x43]) == 3
    ensures Truncated([0x41, 0x42, 0x43], 1) == Units(SUFFIX)
    ensures ByteLength(Truncated([0x41, 0x42, 0x43], 1)) == SUFFIX_BYTES
  {
    var text: seq<Scalar> := [0x41, 0x42, 0x43];
    assert Units(text) == text by {
      assert text[1..] == [0x42, 0x43] && text[1..][1..] == [0x43];
    }
    ScalarsUndoUnits(text);
    LengthOfAscii(text);
    assert Kept(text, 1) == [];
    assert [] + SUFFIX == SUFFIX;
    ScalarsUndoUnits(SUFFIX);
    SuffixLength();
  }

  /**
   * With that room, the part kept of a text that does not fit is the longest
   * whole-code-point prefix, its lone surrogates replaced.
   */
  lemma KeepsTheMost(text: seq<Unit>, maxBytes: int, k: nat)
    requires maxBytes >= SUFFIX_BYTES && ByteLength(text) > maxBytes && k <= |Scalars(text)|
    ensures
      var out, kept := Truncated(text, maxBytes), Kept(text, maxBytes);
      && out == Units(kept) + Units(SUFFIX)
      && kept <= Scalars(text) && Units(kept) <= Units(Scalars(text))
      && (k <= |kept| <==> |Encode(Scalars(text)[..k])| <= maxBytes - SUFFIX_BYTES)
  {
    hide Units, Scalars, SUFFIX, Encode, Fit;
    FitIsLongest(Scalars(text), maxBytes - SUFFIX_BYTES, k);
    UnitsAppend(Kept(text, maxBytes), SUFFIX);
    UnitsPrefix(Scalars(text), |Kept(text, maxBytes)|);
  }
}
