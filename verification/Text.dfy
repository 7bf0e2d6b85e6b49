/** The string operations the source leans on, and a fixed total order on strings. */
module Text {

  /** ECMAScript white space and line terminators. */
  predicate IsSpace(c: char) {
    var n := c as int;
    || 9 <= n <= 13 || n == 0x20 || n == 0xA0 || n == 0x1680 || 0x2000 <= n <= 0x200A
    || n == 0x2028 || n == 0x2029 || n == 0x202F || n == 0x205F || n == 0x3000 || n == 0xFEFF
  }

  predicate IsDigit(c: char) {
    '0' <= c <= '9'
  }

  function TrimStart(s: string): (t: string)
    ensures t != [] ==> !IsSpace(t[0])
    ensures s != [] && !IsSpace(s[0]) ==> t == s
  {
    if s != [] && IsSpace(s[0]) then TrimStart(s[1..]) else s
  }

  function TrimEnd(s: string): (t: string)
    ensures t <= s
    ensures t != [] ==> !IsSpace(t[|t| - 1])
    ensures s != [] && !IsSpace(s[|s| - 1]) ==> t == s
  {
    if s != [] && IsSpace(s[|s| - 1]) then TrimEnd(s[..|s| - 1]) else s
  }

  function Trim(s: string): (t: string)
    ensures t != [] ==> !IsSpace(t[0]) && !IsSpace(t[|t| - 1])
    ensures s == [] || (!IsSpace(s[0]) && !IsSpace(s[|s| - 1])) ==> t == s
  {
    TrimEnd(TrimStart(s))
  }

  /** `replace(/\D/g, "")`. */
  function Digits(s: string): (d: string)
    ensures AllDigits(d)
    ensures AllDigits(s) ==> d == s
  {
    if s == [] then [] else if IsDigit(s[0]) then [s[0]] + Digits(s[1..]) else Digits(s[1..])
  }

  predicate AllDigits(s: string) {
    forall i | 0 <= i < |s| :: IsDigit(s[i])
  }

  /** The number a digit text stands for. */
  function Num(digits: string): nat
    requires AllDigits(digits)
  {
    if digits == [] then 0 else Num(digits[..|digits| - 1]) * 10 + (digits[|digits| - 1] - '0') as nat
  }

  /** `length` counts UTF-16 code units: two for a character outside the basic plane. */
  function Utf16Length(s: string): nat {
    if s == [] then 0 else (if s[0] as int >= 0x10000 then 2 else 1) + Utf16Length(s[1..])
  }

  lemma {:induction false} Utf16LengthAppend(a: string, b: string)
    ensures Utf16Length(a + b) == Utf16Length(a) + Utf16Length(b)
  {
    if a == [] {
      assert a + b == b;
    } else {
      assert (a + b)[1..] == a[1..] + b;
      Utf16LengthAppend(a[1..], b);
    }
  }

  /** Code point order, a total order; the theorems use no more of it than that. */
  predicate LexLe(a: string, b: string) {
    if a == [] then true
    else if b == [] then false
    else if a[0] == b[0] then LexLe(a[1..], b[1..])
    else a[0] < b[0]
  }

  lemma {:induction false} LexTotal(a: string, b: string)
    ensures LexLe(a, b) || LexLe(b, a)
  {
    if a != [] && b != [] && a[0] == b[0] {
      LexTotal(a[1..], b[1..]);
    }
  }

  lemma {:induction false} LexAntisymmetric(a: string, b: string)
    requires LexLe(a, b) && LexLe(b, a)
    ensures a == b
  {
    if a != [] && b != [] {
      LexAntisymmetric(a[1..], b[1..]);
      assert a == [a[0]] + a[1..] && b == [b[0]] + b[1..];
    }
  }

  lemma {:induction false} LexTransitive(a: string, b: string, c: string)
    requires LexLe(a, b) && LexLe(b, c)
    ensures LexLe(a, c)
  {
    if a != [] && b != [] && c != [] && a[0] == b[0] == c[0] {
      LexTransitive(a[1..], b[1..], c[1..]);
    }
  }
}
