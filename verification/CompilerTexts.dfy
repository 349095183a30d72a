/** The fixed pieces of text the compiler writes, as the database lexes them. */
module CompilerTexts {
  import opened Wrappers
  import opened SqlFragment

  lemma LexChar(c: char, k: nat)
    requires c == ' ' || IsPunctuation(c) || c == '?'
    ensures Lex([c], k) == Some(if c == ' ' then [] else if c == '?' then [Mark(k)] else [Punctuation(c)])
    ensures Marks([c]) == if c == '?' then 1 else 0
  {
    assert [c][1..] == "";
    assert Lex("", k) == Some([]) && Lex("", k + 1) == Some([]);
    assert [Mark(k)] + [] == [Mark(k)];
    if IsPunctuation(c) { assert [Punctuation(c)] + [] == [Punctuation(c)]; }
  }

  /** Two adjacent texts whose tokens are known. */
  lemma LexPair(a: string, b: string, k: nat, ta: seq<Token>, tb: seq<Token>)
    requires Separated(a, b)
    requires Lex(a, k) == Some(ta) && Lex(b, k + Marks(a)) == Some(tb)
    ensures Lex(a + b, k) == Some(ta + tb)
    ensures Marks(a + b) == Marks(a) + Marks(b)
  {
    LexConcat(a, b, k);
    MarksConcat(a, b);
  }

  lemma SeparatedAfter(a: string, b: string, c: string)
    requires b != "" && Separated(b, c)
    ensures Separated(a + b, c)
  {}

  ghost predicate Shown(s: string) { true }

  /** The tokens and placeholders of a text, folded: they only come into play where `Shown` is mentioned. */
  ghost predicate Lexes(s: string, k: nat, tokens: seq<Token>, marks: nat) {
    forall t {:trigger Shown(t)} | Shown(t) && t == s :: Lex(t, k) == Some(tokens) && Marks(t) == marks
  }

  lemma LexesPair(a: string, b: string, k: nat, ta: seq<Token>, tb: seq<Token>, ma: nat, mb: nat)
    requires Separated(a, b) && Lexes(a, k, ta, ma) && Lexes(b, k + ma, tb, mb)
    ensures Lexes(a + b, k, ta + tb, ma + mb)
  {
    assert Shown(a) && Shown(b);
    LexPair(a, b, k, ta, tb);
  }

  lemma LexesTriple(a: string, b: string, c: string, k: nat, ta: seq<Token>, tb: seq<Token>, tc: seq<Token>,
          ma: nat, mb: nat, mc: nat)
    requires b != "" && Separated(a, b) && Separated(b, c)
    requires Lexes(a, k, ta, ma) && Lexes(b, k + ma, tb, mb) && Lexes(c, k + ma + mb, tc, mc)
    ensures Lexes(a + b + c, k, ta + tb + tc, ma + mb + mc)
  {
    SeparatedAfter(a, b, c);
    LexesPair(a, b, k, ta, tb, ma, mb);
    LexesPair(a + b, c, k, ta + tb, tc, ma + mb, mc);
  }

  lemma LexTriple(a: string, b: string, c: string, k: nat, ta: seq<Token>, tb: seq<Token>, tc: seq<Token>)
    requires b != "" && Separated(a, b) && Separated(b, c)
    requires Lex(a, k) == Some(ta) && Lex(b, k + Marks(a)) == Some(tb) && Lex(c, k + Marks(a) + Marks(b)) == Some(tc)
    ensures Lex(a + b + c, k) == Some(ta + tb + tc) == Some(ta + (tb + tc))
    ensures Marks(a + b + c) == Marks(a) + Marks(b) + Marks(c)
  {
    LexesTriple(a, b, c, k, ta, tb, tc, Marks(a), Marks(b), Marks(c));
    assert Shown(a + b + c);
    assert ta + tb + tc == ta + (tb + tc);
  }

  lemma LexKeyword(upper: string, lower: string, k: nat)
    requires upper != "" && AllWordChars(upper) && Fold(upper) == lower
    ensures Lex(" " + upper + " ", k) == Some([Word(lower)])
    ensures Marks(" " + upper + " ") == 0
  {
    LexWord(upper, k);
    LexChar(' ', k);
    LexPair(" ", upper, k, [], [Word(lower)]);
    LexPair(" " + upper, " ", k, [] + [Word(lower)], []);
    assert [] + [Word(lower)] + [] == [Word(lower)];
  }

  lemma FoldKeywords()
    ensures Fold("AND") == "and" && Fold("OR") == "or" && Fold("NOT") == "not" && Fold("IN") == "in"
    ensures Fold("1") == "1" && Fold("0") == "0"
  {
    assert |Fold("AND")| == 3 && |Fold("NOT")| == 3;
  }

  lemma LexAnd(k: nat)
    ensures Lex(" AND ", k) == Some([Word("and")]) && Marks(" AND ") == 0
  {
    FoldKeywords();
    LexKeyword("AND", "and", k);
    assert " " + "AND" + " " == " AND ";
  }

  lemma LexOr(k: nat)
    ensures Lex(" OR ", k) == Some([Word("or")]) && Marks(" OR ") == 0
  {
    FoldKeywords();
    LexKeyword("OR", "or", k);
    assert " " + "OR" + " " == " OR ";
  }

  lemma LexNot(k: nat)
    ensures Lex("(NOT ", k) == Some([LParen, Word("not")]) && Marks("(NOT ") == 0
  {
    FoldKeywords();
    LexWord("NOT", k);
    LexChar('(', k);
    LexChar(' ', k);
    LexPair("(", "NOT", k, [LParen], [Word("not")]);
    LexPair("(" + "NOT", " ", k, [LParen] + [Word("not")], []);
    assert "(" + "NOT" + " " == "(NOT ";
    assert [LParen] + [Word("not")] + [] == [LParen, Word("not")];
  }

  lemma LexIn(k: nat)
    ensures Lex(" IN (", k) == Some([Word("in"), LParen]) && Marks(" IN (") == 0
  {
    FoldKeywords();
    LexKeyword("IN", "in", k);
    LexChar('(', k);
    LexPair(" " + "IN" + " ", "(", k, [Word("in")], [LParen]);
    assert " " + "IN" + " " + "(" == " IN (";
    assert [Word("in")] + [LParen] == [Word("in"), LParen];
  }

  lemma LexEqualsSign(k: nat)
    ensures Lex(" = ", k) == Some([Equals]) && Marks(" = ") == 0
  {
    LexChar(' ', k);
    LexChar('=', k);
    LexPair(" ", "=", k, [], [Equals]);
    LexPair(" " + "=", " ", k, [] + [Equals], []);
    assert " " + "=" + " " == " = ";
    assert [] + [Equals] + [] == [Equals];
  }

  lemma LexMarkBracket(k: nat)
    ensures Lex("?)", k) == Some([Mark(k), RParen]) && Marks("?)") == 1
  {
    LexChar('?', k);
    LexChar(')', k + 1);
    LexPair("?", ")", k, [Mark(k)], [RParen]);
    assert "?" + ")" == "?)";
    assert [Mark(k)] + [RParen] == [Mark(k), RParen];
  }

  lemma LexEqualsMark(k: nat)
    ensures Lex(" = ?)", k) == Some([Equals, Mark(k), RParen]) && Marks(" = ?)") == 1
  {
    LexEqualsSign(k);
    LexMarkBracket(k);
    LexPair(" = ", "?)", k, [Equals], [Mark(k), RParen]);
    assert " = " + "?)" == " = ?)";
    assert [Equals] + [Mark(k), RParen] == [Equals, Mark(k), RParen];
  }

  lemma LexComparison(digit: string, k: nat)
    requires digit == "0" || digit == "1"
    ensures Lex("1 = " + digit, k) == Some([Word("1"), Equals, Word(digit)]) && Marks("1 = " + digit) == 0
  {
    FoldKeywords();
    LexWord("1", k);
    LexEqualsSign(k);
    LexWord(digit, k);
    LexTriple("1", " = ", digit, k, [Word("1")], [Equals], [Word(digit)]);
    assert "1" + " = " == "1 = ";
    assert [Word("1")] + [Equals] + [Word(digit)] == [Word("1"), Equals, Word(digit)];
  }

  lemma LexConstant(digit: string, k: nat)
    requires digit == "0" || digit == "1"
    ensures Lex("(1 = " + digit + ")", k) == Some([LParen, Word("1"), Equals, Word(digit), RParen])
    ensures Marks("(1 = " + digit + ")") == 0
  {
    LexComparison(digit, k);
    LexBracketed("1 = " + digit, k, [Word("1"), Equals, Word(digit)]);
    assert "(" + ("1 = " + digit) + ")" == "(1 = " + digit + ")";
    assert [LParen] + [Word("1"), Equals, Word(digit)] + [RParen] == [LParen, Word("1"), Equals, Word(digit), RParen];
  }

  /** Text between brackets. */
  lemma LexBracketed(inner: string, k: nat, ti: seq<Token>)
    requires Lex(inner, k) == Some(ti)
    ensures Lex("(" + inner + ")", k) == Some([LParen] + ti + [RParen])
    ensures Marks("(" + inner + ")") == Marks(inner)
  {
    LexChar('(', k);
    LexChar(')', k + Marks(inner));
    LexesPair("(", inner, k, [LParen], ti, 0, Marks(inner));
    LexesPair("(" + inner, ")", k, [LParen] + ti, [RParen], Marks(inner), 0);
    assert Shown("(" + inner + ")");
  }
}
