/**
 The fragment of SQL that a WHERE clause built by the data-permission compiler
 uses, as a database reads it: characters to tokens, tokens to a tree by SQL
 precedence (NOT binds tighter than AND, AND tighter than OR), and the truth of
 a tree on one row.  Nothing here knows how clauses are produced.
 */
module SqlFragment {
  import opened Wrappers

  // ---- Lexing -------------------------------------------------------------

  /** `Mark(n)` is the n-th `?` of the text, counted from 0. */
  datatype Token = LParen | RParen | Comma | Equals | Mark(index: nat) | Word(text: string)

  predicate IsWordChar(c: char) {
    'a' <= c <= 'z' || 'A' <= c <= 'Z' || '0' <= c <= '9' || c == '_' || c == '.'
  }

  predicate AllWordChars(s: string) {
    forall i | 0 <= i < |s| :: IsWordChar(s[i])
  }

  function FoldChar(c: char): char {
    if 'A' <= c <= 'Z' then c - 'A' + 'a' else c
  }

  /** Unquoted SQL words are compared without regard to case. */
  function Fold(s: string): (r: string)
    ensures |r| == |s|
    ensures forall i | 0 <= i < |s| :: r[i] == FoldChar(s[i])
  {
    if s == "" then "" else [FoldChar(s[0])] + Fold(s[1..])
  }

  function WordLength(s: string): (n: nat)
    ensures n <= |s|
    ensures AllWordChars(s[..n])
    ensures n < |s| ==> !IsWordChar(s[n])
  {
    if s == "" || !IsWordChar(s[0]) then 0
    else
      var n := WordLength(s[1..]);
      assert s[..1 + n] == [s[0]] + s[1..][..n];
      1 + n
  }

  function Prepend(t: Token, rest: Option<seq<Token>>): Option<seq<Token>> {
    if rest.None? then None else Some([t] + rest.value)
  }

  predicate IsPunctuation(c: char) {
    c == '(' || c == ')' || c == ',' || c == '='
  }

  function Punctuation(c: char): Token
    requires IsPunctuation(c)
  {
    if c == '(' then LParen else if c == ')' then RParen else if c == ',' then Comma else Equals
  }

  /** Tokens of `s`, the first `?` being the k-th of the statement. */
  function Lex(s: string, k: nat): Option<seq<Token>>
    decreases |s|
  {
    if s == "" then Some([])
    else if s[0] == ' ' then Lex(s[1..], k)
    else if IsPunctuation(s[0]) then Prepend(Punctuation(s[0]), Lex(s[1..], k))
    else if s[0] == '?' then Prepend(Mark(k), Lex(s[1..], k + 1))
    else if IsWordChar(s[0]) then
      var n := WordLength(s);
      Prepend(Word(Fold(s[..n])), Lex(s[n..], k))
    else None
  }

  function Marks(s: string): nat {
    if s == "" then 0 else (if s[0] == '?' then 1 else 0) + Marks(s[1..])
  }

  /** The two texts meet at a token boundary. */
  predicate Separated(a: string, b: string) {
    a == "" || b == "" || !IsWordChar(a[|a| - 1]) || !IsWordChar(b[0])
  }

  function Concat(a: Option<seq<Token>>, b: Option<seq<Token>>): Option<seq<Token>> {
    if a.None? || b.None? then None else Some(a.value + b.value)
  }

  lemma {:induction false} MarksConcat(a: string, b: string)
    ensures Marks(a + b) == Marks(a) + Marks(b)
  {
    if a == "" {
      assert a + b == b;
    } else {
      assert (a + b)[1..] == a[1..] + b;
      MarksConcat(a[1..], b);
    }
  }

  lemma {:induction false} WordLengthConcat(a: string, b: string)
    requires Separated(a, b)
    ensures WordLength(a + b) == WordLength(a) || a == ""
  {
    if a == "" {
    } else if !IsWordChar(a[0]) {
    } else if |a| == 1 {
      assert (a + b)[1..] == b;
    } else {
      assert (a + b)[1..] == a[1..] + b;
      WordLengthConcat(a[1..], b);
    }
  }

  lemma {:induction false} MarksOfWord(a: string, n: nat)
    requires n <= |a| && AllWordChars(a[..n])
    ensures Marks(a) == Marks(a[n..])
  {
    if n == 0 {
      assert a[0..] == a;
    } else {
      assert IsWordChar(a[..n][0]);
      assert a[1..][..n - 1] == a[..n][1..];
      MarksOfWord(a[1..], n - 1);
      assert a[1..][n - 1..] == a[n..];
    }
  }

  lemma {:induction false} LexConcat(a: string, b: string, k: nat)
    requires Separated(a, b)
    ensures Lex(a + b, k) == Concat(Lex(a, k), Lex(b, k + Marks(a)))
    decreases |a|
  {
    if a == "" {
      assert a + b == b;
      if Lex(b, k).Some? { assert [] + Lex(b, k).value == Lex(b, k).value; }
    } else {
      assert (a + b)[0] == a[0] && (a + b)[1..] == a[1..] + b;
      if a[0] == ' ' {
        LexConcat(a[1..], b, k);
      } else if IsPunctuation(a[0]) {
        LexConcat(a[1..], b, k);
        PrependConcat(Punctuation(a[0]), Lex(a[1..], k), Lex(b, k + Marks(a)));
      } else if a[0] == '?' {
        LexConcat(a[1..], b, k + 1);
        PrependConcat(Mark(k), Lex(a[1..], k + 1), Lex(b, k + Marks(a)));
      } else if IsWordChar(a[0]) {
        LexWordConcat(a, b, k);
      }
    }
  }

  lemma {:induction false} LexWordConcat(a: string, b: string, k: nat)
    requires Separated(a, b) && a != "" && IsWordChar(a[0])
    ensures Lex(a + b, k) == Concat(Lex(a, k), Lex(b, k + Marks(a)))
    decreases |a|, 0
  {
    var n := WordLength(a);
    WordLengthConcat(a, b);
    MarksOfWord(a, n);
    assert (a + b)[..n] == a[..n] && (a + b)[n..] == a[n..] + b;
    LexConcat(a[n..], b, k);
    PrependConcat(Word(Fold(a[..n])), Lex(a[n..], k), Lex(b, k + Marks(a)));
  }

  lemma PrependConcat(t: Token, a: Option<seq<Token>>, b: Option<seq<Token>>)
    ensures Prepend(t, Concat(a, b)) == Concat(Prepend(t, a), b)
  {
    if a.Some? && b.Some? {
      assert [t] + (a.value + b.value) == ([t] + a.value) + b.value;
    }
  }

  /** A text that is one word is one token. */
  lemma LexWord(w: string, k: nat)
    requires w != "" && AllWordChars(w)
    ensures Lex(w, k) == Some([Word(Fold(w))])
    ensures Marks(w) == 0
  {
    var n := WordLength(w);
    assert n == |w|;
    assert w[..n] == w && w[n..] == "";
    assert IsWordChar(w[0]);
    assert Lex(w[n..], k) == Some([]);
    assert [Word(Fold(w))] + [] == [Word(Fold(w))];
    MarksOfWord(w, |w|);
  }

  // ---- Parsing ------------------------------------------------------------

  datatype Term = Number(digits: string) | Column(name: string) | Param(index: nat)

  datatype Sql =
    | Compare(left: Term, right: Term)
    | Among(item: Term, params: seq<nat>)
    | IsNull(item: Term)
    | Not(child: Sql)
    | All(parts: seq<Sql>)
    | Any(parts: seq<Sql>)

  /** The words this fragment gives a meaning to; a dialect may reserve more. */
  const KEYWORDS: set<string> := {"and", "or", "not", "in", "is", "null"}

  predicate IsKeyword(toks: seq<Token>, w: string) {
    toks != [] && toks[0] == Word(w)
  }

  function FirstPart(w: string): string {
    if w == "" || w[0] == '.' then "" else [w[0]] + FirstPart(w[1..])
  }

  /** A column reference starts with a letter or underscore and is not a reserved word. */
  predicate IsColumnName(reserved: set<string>, w: string) {
    w != "" && !('0' <= w[0] <= '9') && FirstPart(w) !in reserved + KEYWORDS
  }

  predicate IsNumber(w: string) {
    w != "" && forall i | 0 <= i < |w| :: '0' <= w[i] <= '9'
  }

  function ParseTerm(reserved: set<string>, t: Token): Option<Term> {
    match t
    case Mark(n) => Some(Param(n))
    case Word(w) =>
      if IsNumber(w) then Some(Number(w))
      else if IsColumnName(reserved, w) then Some(Column(w))
      else None
    case _ => None
  }

  datatype Parsed<T> = Parsed(tree: T, rest: seq<Token>)

  function Group(parts: seq<Sql>, conjunction: bool): Sql
    requires parts != []
  {
    if |parts| == 1 then parts[0] else if conjunction then All(parts) else Any(parts)
  }

  function ParseOr(reserved: set<string>, toks: seq<Token>): (r: Option<Parsed<Sql>>)
    ensures r.Some? ==> |r.value.rest| < |toks|
    decreases |toks|, 5
  {
    var parts := ParseOrParts(reserved, toks);
    if parts.None? then None else Some(Parsed(Group(parts.value.tree, false), parts.value.rest))
  }

  function ParseOrParts(reserved: set<string>, toks: seq<Token>): (r: Option<Parsed<seq<Sql>>>)
    ensures r.Some? ==> |r.value.rest| < |toks| && r.value.tree != []
    decreases |toks|, 4
  {
    var first := ParseAnd(reserved, toks);
    if first.None? then None
    else if IsKeyword(first.value.rest, "or") then
      var more := ParseOrParts(reserved, first.value.rest[1..]);
      if more.None? then None else Some(Parsed([first.value.tree] + more.value.tree, more.value.rest))
    else Some(Parsed([first.value.tree], first.value.rest))
  }

  function ParseAnd(reserved: set<string>, toks: seq<Token>): (r: Option<Parsed<Sql>>)
    ensures r.Some? ==> |r.value.rest| < |toks|
    decreases |toks|, 3
  {
    var parts := ParseAndParts(reserved, toks);
    if parts.None? then None else Some(Parsed(Group(parts.value.tree, true), parts.value.rest))
  }

  function ParseAndParts(reserved: set<string>, toks: seq<Token>): (r: Option<Parsed<seq<Sql>>>)
    ensures r.Some? ==> |r.value.rest| < |toks| && r.value.tree != []
    decreases |toks|, 2
  {
    var first := ParseNot(reserved, toks);
    if first.None? then None
    else if IsKeyword(first.value.rest, "and") then
      var more := ParseAndParts(reserved, first.value.rest[1..]);
      if more.None? then None else Some(Parsed([first.value.tree] + more.value.tree, more.value.rest))
    else Some(Parsed([first.value.tree], first.value.rest))
  }

  function ParseNot(reserved: set<string>, toks: seq<Token>): (r: Option<Parsed<Sql>>)
    ensures r.Some? ==> |r.value.rest| < |toks|
    decreases |toks|, 1
  {
    if IsKeyword(toks, "not") then
      var child := ParseNot(reserved, toks[1..]);
      if child.None? then None else Some(Parsed(Not(child.value.tree), child.value.rest))
    else ParsePrimary(reserved, toks)
  }

  function ParsePrimary(reserved: set<string>, toks: seq<Token>): (r: Option<Parsed<Sql>>)
    ensures r.Some? ==> |r.value.rest| < |toks|
    decreases |toks|, 0
  {
    if toks == [] then None
    else if toks[0] == LParen then
      var inner := ParseOr(reserved, toks[1..]);
      if inner.None? || inner.value.rest == [] || inner.value.rest[0] != RParen then None
      else Some(Parsed(inner.value.tree, inner.value.rest[1..]))
    else ParseComparison(reserved, toks)
  }

  function ParseComparison(reserved: set<string>, toks: seq<Token>): (r: Option<Parsed<Sql>>)
    requires toks != []
    ensures r.Some? ==> |r.value.rest| < |toks|
  {
    var left := ParseTerm(reserved, toks[0]);
    if left.None? || |toks| < 3 then None
    else if toks[1] == Equals then
      var right := ParseTerm(reserved, toks[2]);
      if right.None? then None else Some(Parsed(Compare(left.value, right.value), toks[3..]))
    else if toks[1] == Word("in") && toks[2] == LParen then
      var params := ParseParams(toks[3..]);
      if params.None? then None else Some(Parsed(Among(left.value, params.value.tree), params.value.rest))
    else if toks[1] == Word("is") && toks[2] == Word("null") then Some(Parsed(IsNull(left.value), toks[3..]))
    else None
  }

  function ParseParams(toks: seq<Token>): (r: Option<Parsed<seq<nat>>>)
    ensures r.Some? ==> |r.value.rest| < |toks|
  {
    if |toks| < 2 || !toks[0].Mark? then None
    else if toks[1] == RParen then Some(Parsed([toks[0].index], toks[2..]))
    else if toks[1] == Comma then
      var more := ParseParams(toks[2..]);
      if more.None? then None else Some(Parsed([toks[0].index] + more.value.tree, more.value.rest))
    else None
  }

  /** A whole WHERE clause: every token is used. */
  function ParseWhere(reserved: set<string>, clause: string): Option<Sql> {
    var toks := Lex(clause, 0);
    if toks.None? then None
    else
      var tree := ParseOr(reserved, toks.value);
      if tree.None? || tree.value.rest != [] then None else Some(tree.value.tree)
  }

  // ---- Truth on a row -------------------------------------------------------

  /** A row of text columns; a column that is absent is NULL. */
  type Row = map<string, string>

  function TermText(t: Term, row: Row, args: seq<string>): string {
    match t
    case Number(d) => d
    case Column(c) => if c in row then row[c] else ""
    case Param(n) => if n < |args| then args[n] else ""
  }

  predicate Holds(q: Sql, row: Row, args: seq<string>) {
    match q
    case Compare(l, r) => TermText(l, row, args) == TermText(r, row, args)
    case Among(t, ps) => exists i | 0 <= i < |ps| :: TermText(t, row, args) == TermText(Param(ps[i]), row, args)
    case IsNull(t) => t.Column? && t.name !in row
    case Not(c) => !Holds(c, row, args)
    case All(parts) => HoldsAll(parts, row, args)
    case Any(parts) => HoldsAny(parts, row, args)
  }

  predicate HoldsAll(qs: seq<Sql>, row: Row, args: seq<string>) {
    qs == [] || (Holds(qs[0], row, args) && HoldsAll(qs[1..], row, args))
  }

  predicate HoldsAny(qs: seq<Sql>, row: Row, args: seq<string>) {
    qs != [] && (Holds(qs[0], row, args) || HoldsAny(qs[1..], row, args))
  }
}
