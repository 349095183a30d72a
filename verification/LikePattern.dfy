/**
 Substring search through SQL LIKE: LikeContainsPattern of internal/database/like.go and
 the LIKE predicate with ESCAPE '!' of section 8.5 of ISO/IEC 9075-2.
 */
module LikePattern {
  import opened Texts

  const ESCAPE: char := '!'

  predicate Special(c: char) { c == '!' || c == '%' || c == '_' }

  function Quoted(c: char): string { if Special(c) then [ESCAPE, c] else [c] }

  /** `likeLiteralReplacer`: every special character is preceded by the escape character. */
  function Literal(value: string): string {
    if value == "" then "" else Quoted(value[0]) + Literal(value[1..])
  }

  function LikeContainsPattern(value: string): string {
    "%" + Literal(value) + "%"
  }

  /** Does the text match the pattern?  An escape character that escapes nothing special matches nothing. */
  predicate Like(text: string, pattern: string)
    decreases |pattern|
  {
    if pattern == "" then text == ""
    else if pattern[0] == ESCAPE then
      && |pattern| > 1 && Special(pattern[1])
      && text != "" && text[0] == pattern[1] && Like(text[1..], pattern[2..])
    else if pattern[0] == '%' then exists i | 0 <= i <= |text| :: Like(text[i..], pattern[1..])
    else if pattern[0] == '_' then text != "" && Like(text[1..], pattern[1..])
    else text != "" && text[0] == pattern[0] && Like(text[1..], pattern[1..])
  }

  /** An escaped character matches itself and nothing else. */
  lemma QuotedMatches(text: string, c: char, rest: string)
    ensures Like(text, Quoted(c) + rest) <==> text != "" && text[0] == c && Like(text[1..], rest)
  {
    var pattern := Quoted(c) + rest;
    if Special(c) {
      assert pattern[0] == ESCAPE && pattern[1] == c && pattern[2..] == rest;
    } else {
      assert pattern[0] == c && pattern[1..] == rest;
    }
  }

  lemma PrefixStep(value: string, text: string)
    requires value != "" && text != ""
    ensures value <= text <==> value[0] == text[0] && value[1..] <= text[1..]
  {
    assert value == [value[0]] + value[1..] && text == [text[0]] + text[1..];
  }

  /** An escaped value matches itself and nothing else, whatever the pattern goes on with. */
  lemma {:induction false} LiteralMatches(text: string, value: string, rest: string)
    ensures Like(text, Literal(value) + rest) <==> value <= text && Like(text[|value|..], rest)
    decreases |value|
  {
    if value == "" {
      assert Literal(value) + rest == rest && text[0..] == text;
    } else {
      assert Literal(value) + rest == Quoted(value[0]) + (Literal(value[1..]) + rest);
      QuotedMatches(text, value[0], Literal(value[1..]) + rest);
      if text != "" {
        LiteralMatches(text[1..], value[1..], rest);
        PrefixStep(value, text);
        if value <= text { assert text[1..][|value| - 1..] == text[|value|..]; }
      }
    }
  }

  lemma AnythingMatches(text: string)
    ensures Like(text, "%")
  {
    assert text[|text|..] == "";
    assert Like(text[|text|..], "%"[1..]);
  }

  /** The pattern selects exactly the texts that contain the value. */
  lemma ContainsExactly(text: string, value: string)
    ensures Like(text, LikeContainsPattern(value)) <==> Contains(text, value)
  {
    var pattern := LikeContainsPattern(value);
    assert pattern[0] == '%' && pattern[1..] == Literal(value) + "%";
    forall i | 0 <= i <= |text|
      ensures Like(text[i..], pattern[1..]) <==> value <= text[i..]
    {
      LiteralMatches(text[i..], value, "%");
      if value <= text[i..] { AnythingMatches(text[i..][|value|..]); }
    }
  }
}
