/** The `number ILIKE '%…%' ESCAPE '\'` search and the escaping of what the user typed. */
module LikePattern {

  /** SQL pattern matching with `\` as the escape; `same` compares one pattern character with one of the text. */
  predicate Like(pattern: string, text: string, same: (char, char) -> bool)
    decreases |pattern| + |text|
  {
    if pattern == [] then text == []
    else if pattern[0] == '%' then Like(pattern[1..], text, same) || (text != [] && Like(pattern, text[1..], same))
    else if pattern[0] == '\\' && |pattern| > 1 then
      text != [] && same(pattern[1], text[0]) && Like(pattern[2..], text[1..], same)
    else if pattern[0] == '_' then text != [] && Like(pattern[1..], text[1..], same)
    else text != [] && same(pattern[0], text[0]) && Like(pattern[1..], text[1..], same)
  }

  predicate Special(c: char) {
    c == '\\' || c == '%' || c == '_'
  }

  function Escape(value: string): string {
    if value == [] then []
    else if Special(value[0]) then ['\\', value[0]] + Escape(value[1..])
    else [value[0]] + Escape(value[1..])
  }

  function PhoneLikePattern(value: string): string {
    "%" + Escape(value) + "%"
  }

  predicate StartsWith(text: string, value: string, same: (char, char) -> bool) {
    |value| <= |text| && forall i | 0 <= i < |value| :: same(value[i], text[i])
  }

  predicate Contains(text: string, value: string, same: (char, char) -> bool) {
    exists k | 0 <= k <= |text| :: StartsWith(text[k..], value, same)
  }

  lemma {:induction false} AnyTail(text: string, same: (char, char) -> bool)
    ensures Like("%", text, same)
  {
    if text != [] {
      AnyTail(text[1..], same);
    }
  }

  lemma {:induction false} EscapedPrefix(value: string, text: string, same: (char, char) -> bool)
    ensures Like(Escape(value) + "%", text, same) <==> StartsWith(text, value, same)
  {
    if value == [] {
      assert Escape(value) + "%" == "%";
      AnyTail(text, same);
    } else {
      var pattern, rest := Escape(value) + "%", Escape(value[1..]) + "%";
      if Special(value[0]) {
        assert pattern[0] == '\\' && pattern[1] == value[0] && pattern[2..] == rest;
      } else {
        assert pattern[0] == value[0] && pattern[1..] == rest;
      }
      if text != [] {
        EscapedPrefix(value[1..], text[1..], same);
        StartsWithStep(text, value, same);
      }
    }
  }

  lemma StartsWithStep(text: string, value: string, same: (char, char) -> bool)
    requires text != [] && value != []
    ensures StartsWith(text, value, same) <==> same(value[0], text[0]) && StartsWith(text[1..], value[1..], same)
  {
    if same(value[0], text[0]) && StartsWith(text[1..], value[1..], same) {
      forall i | 0 <= i < |value| ensures same(value[i], text[i]) {
        assert i > 0 ==> value[1..][i - 1] == value[i] && text[1..][i - 1] == text[i];
      }
    }
  }

  /** Whatever the search text holds, the escaped pattern matches exactly the numbers that contain it. */
  lemma {:induction false} EscapedLikeIsContains(value: string, text: string, same: (char, char) -> bool)
    ensures Like(PhoneLikePattern(value), text, same) <==> Contains(text, value, same)
  {
    var pattern := PhoneLikePattern(value);
    assert pattern[1..] == Escape(value) + "%";
    EscapedPrefix(value, text, same);
    assert text[0..] == text;
    if text != [] {
      EscapedLikeIsContains(value, text[1..], same);
      ContainsStep(text, value, same);
    } else {
      assert Contains(text, value, same) <==> StartsWith(text, value, same);
    }
  }

  lemma ContainsStep(text: string, value: string, same: (char, char) -> bool)
    requires text != []
    ensures Contains(text, value, same) <==> StartsWith(text, value, same) || Contains(text[1..], value, same)
  {
    assert text[0..] == text;
    if Contains(text[1..], value, same) {
      var k :| 0 <= k <= |text[1..]| && StartsWith(text[1..][k..], value, same);
      assert text[1..][k..] == text[k + 1..];
    }
    if Contains(text, value, same) && !StartsWith(text, value, same) {
      var k :| 0 <= k <= |text| && StartsWith(text[k..], value, same);
      assert text[1..][k - 1..] == text[k..];
    }
  }
}
