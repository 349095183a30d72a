/**
 What a database reads in a compiled clause: it parses exactly when no column it
 names is a reserved word, its placeholders are numbered like its arguments, and
 on every row it is true exactly when the in-memory evaluator says so.
 */
module CompilerCorrectness {
  import opened Wrappers
  import opened SqlFragment
  import opened CompilerTexts
  import Ir = PredicateIr
  import opened Compiler

  // ---- One clause in any surroundings ---------------------------------------

  /** The statement's arguments carry the clause's own ones from position k on. */
  predicate Binds(q: SqlPredicate, k: nat, args: seq<string>) {
    k + |q.args| <= |args| && args[k..k + |q.args|] == q.args
  }

  /** A clause together with whether it parses and what it then means on the row at hand. */
  datatype Reading = Reading(q: SqlPredicate, readable: bool, value: bool)

  predicate Bracketed(q: SqlPredicate) {
    && |q.clause| >= 2 && q.clause[0] == '(' && q.clause[|q.clause| - 1] == ')'
    && Marks(q.clause) == |q.args|
  }

  /** Read where the k-th placeholder comes next, with more tokens behind. */
  ghost predicate ReadsAt(r: Reading, reserved: set<string>, row: Row, k: nat, args: seq<string>, rest: seq<Token>) {
    var toks := Lex(r.q.clause, k);
    && toks.Some?
    && toks.value != [] && toks.value[0] == LParen
    && var parsed := ParsePrimary(reserved, toks.value + rest);
       if r.readable then
         parsed.Some? && parsed.value.rest == rest && Holds(parsed.value.tree, row, args) == r.value
       else parsed.None?
  }

  ghost predicate ReadsAnywhere(r: Reading, reserved: set<string>, row: Row) {
    && Bracketed(r.q)
    && forall k: nat, args: seq<string>, rest: seq<Token> | Binds(r.q, k, args) ::
       ReadsAt(r, reserved, row, k, args, rest)
  }

  ghost predicate Opened(r: Reading) { true }

  /** `ReadsAnywhere`, folded: it only comes into play where the reading is `Opened`. */
  ghost predicate Reads(r: Reading, reserved: set<string>, row: Row) {
    forall x {:trigger Opened(x)} | Opened(x) && x == r :: ReadsAnywhere(x, reserved, row)
  }

  ghost predicate ReadEach(rs: seq<Reading>, reserved: set<string>, row: Row) {
    forall i | 0 <= i < |rs| :: Reads(rs[i], reserved, row)
  }

  function Queries(rs: seq<Reading>): (qs: seq<SqlPredicate>)
    ensures |qs| == |rs| && forall i | 0 <= i < |rs| :: qs[i] == rs[i].q
  {
    seq(|rs|, i requires 0 <= i < |rs| => rs[i].q)
  }

  predicate AllReadable(rs: seq<Reading>) { forall i | 0 <= i < |rs| :: rs[i].readable }

  predicate EveryValue(rs: seq<Reading>) { forall i | 0 <= i < |rs| :: rs[i].value }

  predicate SomeValue(rs: seq<Reading>) { exists i | 0 <= i < |rs| :: rs[i].value }

  /** A bracketed text is read by ParseNot just as by ParsePrimary. */
  lemma NotIsPrimary(reserved: set<string>, toks: seq<Token>)
    requires toks != [] && toks[0] == LParen
    ensures ParseNot(reserved, toks) == ParsePrimary(reserved, toks)
  {}

  // ---- Joining --------------------------------------------------------------

  function Separator(conjunction: bool): string { if conjunction then " AND " else " OR " }

  function ParseParts(reserved: set<string>, conjunction: bool, toks: seq<Token>): Option<Parsed<seq<Sql>>> {
    if conjunction then ParseAndParts(reserved, toks) else ParseOrParts(reserved, toks)
  }

  ghost predicate PartsReadAt(rs: seq<Reading>, conjunction: bool, reserved: set<string>, row: Row, k: nat,
          args: seq<string>, rest: seq<Token>)
  {
    var text := Join(Clauses(Queries(rs)), Separator(conjunction));
    var toks := Lex(text, k);
    && text != "" && text[0] == '('
    && Marks(text) == |AllArgs(Queries(rs))|
    && toks.Some?
    && toks.value != [] && toks.value[0] == LParen
    && var parsed := ParseParts(reserved, conjunction, toks.value + rest);
       if AllReadable(rs) then
         && parsed.Some? && parsed.value.rest == rest && |parsed.value.tree| == |rs|
         && (conjunction ==> HoldsAll(parsed.value.tree, row, args) == EveryValue(rs))
         && (!conjunction ==> HoldsAny(parsed.value.tree, row, args) == SomeValue(rs))
       else parsed.None?
  }

  lemma JoinStep(rs: seq<Reading>, separator: string)
    requires |rs| > 1
    ensures Join(Clauses(Queries(rs)), separator)
        == rs[0].q.clause + separator + Join(Clauses(Queries(rs[1..])), separator)
    ensures AllArgs(Queries(rs)) == rs[0].q.args + AllArgs(Queries(rs[1..]))
  {
    assert Clauses(Queries(rs))[1..] == Clauses(Queries(rs[1..]));
    assert Queries(rs)[1..] == Queries(rs[1..]);
  }

  lemma JoinOne(rs: seq<Reading>, separator: string)
    requires |rs| == 1
    ensures Join(Clauses(Queries(rs)), separator) == rs[0].q.clause
    ensures AllArgs(Queries(rs)) == rs[0].q.args
  {
    assert Queries(rs)[1..] == [];
    assert rs[0].q.args + [] == rs[0].q.args;
  }

  /** The part in front and what follows it, as the grammar splits them. */
  lemma FirstPartRead(r: Reading, conjunction: bool, reserved: set<string>, row: Row, k: nat, args: seq<string>,
          rest: seq<Token>)
    requires Reads(r, reserved, row) && Binds(r.q, k, args)
    requires rest != [] && (rest[0] == RParen || rest[0] == Word(if conjunction then "and" else "or"))
    ensures ReadsAt(r, reserved, row, k, args, rest)
    ensures var toks := Lex(r.q.clause, k).value + rest;
            var first := if conjunction then ParseNot(reserved, toks) else ParseAnd(reserved, toks);
            first == ParsePrimary(reserved, toks)
  {
    assert Opened(r);
    assert ReadsAt(r, reserved, row, k, args, rest);
    var toks := Lex(r.q.clause, k).value + rest;
    NotIsPrimary(reserved, toks);
  }

  lemma PartsReadOne(rs: seq<Reading>, conjunction: bool, reserved: set<string>, row: Row, k: nat,
          args: seq<string>, rest: seq<Token>)
    requires |rs| == 1 && Reads(rs[0], reserved, row)
    requires Binds(rs[0].q, k, args)
    requires rest != [] && rest[0] == RParen
    ensures PartsReadAt(rs, conjunction, reserved, row, k, args, rest)
  {
    var first := rs[0];
    assert Opened(first);
    JoinOne(rs, Separator(conjunction));
    FirstPartRead(first, conjunction, reserved, row, k, args, rest);
    var parsed := ParsePrimary(reserved, Lex(first.q.clause, k).value + rest);
    if parsed.Some? {
      HoldsCons(parsed.value.tree, [], row, args);
      assert [parsed.value.tree] + [] == [parsed.value.tree];
    }
  }

  lemma SplitArgs(q: SqlPredicate, others: seq<string>, k: nat, args: seq<string>)
    requires k + |q.args| + |others| <= |args| && args[k..k + |q.args| + |others|] == q.args + others
    ensures Binds(q, k, args)
    ensures args[k + |q.args|..k + |q.args| + |others|] == others
  {
    assert args[k..k + |q.args|] == (q.args + others)[..|q.args|];
    assert args[k + |q.args|..k + |q.args| + |others|] == (q.args + others)[|q.args|..];
  }

  lemma {:induction false} PartsRead(rs: seq<Reading>, conjunction: bool, reserved: set<string>, row: Row, k: nat,
          args: seq<string>, rest: seq<Token>)
    requires rs != [] && ReadEach(rs, reserved, row)
    requires var all := AllArgs(Queries(rs)); k + |all| <= |args| && args[k..k + |all|] == all
    requires rest != [] && rest[0] == RParen
    ensures PartsReadAt(rs, conjunction, reserved, row, k, args, rest)
    decreases |rs|
  {
    assert Reads(rs[0], reserved, row);
    if |rs| == 1 {
      JoinOne(rs, Separator(conjunction));
      PartsReadOne(rs, conjunction, reserved, row, k, args, rest);
    } else {
      var tail := rs[1..];
      JoinStep(rs, Separator(conjunction));
      SplitArgs(rs[0].q, AllArgs(Queries(tail)), k, args);
      PartsRead(tail, conjunction, reserved, row, k + |rs[0].q.args|, args, rest);
      PartsReadMore(rs, conjunction, reserved, row, k, args, rest);
    }
  }

  lemma PartsReadMore(rs: seq<Reading>, conjunction: bool, reserved: set<string>, row: Row, k: nat,
          args: seq<string>, rest: seq<Token>)
    requires |rs| > 1 && Reads(rs[0], reserved, row) && Binds(rs[0].q, k, args)
    requires PartsReadAt(rs[1..], conjunction, reserved, row, k + |rs[0].q.args|, args, rest)
    ensures PartsReadAt(rs, conjunction, reserved, row, k, args, rest)
  {
    assert Opened(rs[0]);
    var word := Word(if conjunction then "and" else "or");
    var tailToks := Lex(Join(Clauses(Queries(rs[1..])), Separator(conjunction)), k + |rs[0].q.args|).value;
    FirstPartRead(rs[0], conjunction, reserved, row, k, args, [word] + (tailToks + rest));
    PartsCombine(rs, conjunction, reserved, row, k, args, rest, tailToks);
  }

  lemma LexSeparator(conjunction: bool, k: nat)
    ensures Separator(conjunction) != "" && Separator(conjunction)[0] == ' '
    ensures Lex(Separator(conjunction), k) == Some([Word(if conjunction then "and" else "or")])
    ensures Marks(Separator(conjunction)) == 0
  {
    if conjunction { LexAnd(k); } else { LexOr(k); }
  }

  lemma JoinTokens(first: Reading, tail: seq<Reading>, conjunction: bool, k: nat)
    requires Bracketed(first.q) && Lex(first.q.clause, k).Some?
    requires var text := Join(Clauses(Queries(tail)), Separator(conjunction));
             text != "" && text[0] == '(' && Lex(text, k + |first.q.args|).Some?
    ensures var text := Join(Clauses(Queries(tail)), Separator(conjunction));
            var word := Word(if conjunction then "and" else "or");
            && Lex(first.q.clause + Separator(conjunction) + text, k)
               == Some(Lex(first.q.clause, k).value + [word] + Lex(text, k + |first.q.args|).value)
            && Marks(first.q.clause + Separator(conjunction) + text) == |first.q.args| + Marks(text)
  {
    var text := Join(Clauses(Queries(tail)), Separator(conjunction));
    var word := Word(if conjunction then "and" else "or");
    var separator := Separator(conjunction);
    LexSeparator(conjunction, k + |first.q.args|);
    LexTriple(first.q.clause, separator, text, k, Lex(first.q.clause, k).value, [word],
        Lex(text, k + |first.q.args|).value);
  }

  lemma HoldsCons(q: Sql, qs: seq<Sql>, row: Row, args: seq<string>)
    ensures HoldsAll([q] + qs, row, args) == (Holds(q, row, args) && HoldsAll(qs, row, args))
    ensures HoldsAny([q] + qs, row, args) == (Holds(q, row, args) || HoldsAny(qs, row, args))
  {
    assert ([q] + qs)[1..] == qs;
  }

  lemma ReadingsCons(rs: seq<Reading>)
    requires rs != []
    ensures AllReadable(rs) <==> rs[0].readable && AllReadable(rs[1..])
    ensures EveryValue(rs) <==> rs[0].value && EveryValue(rs[1..])
    ensures SomeValue(rs) <==> rs[0].value || SomeValue(rs[1..])
  {
    assert forall i | 0 < i < |rs| :: rs[i] == rs[1..][i - 1];
  }

  /** The grammar's list rule, one element at a time. */
  lemma ParsePartsStep(reserved: set<string>, conjunction: bool, toks: seq<Token>, tail: seq<Token>)
    requires var first := if conjunction then ParseNot(reserved, toks) else ParseAnd(reserved, toks);
             first.Some? ==> first.value.rest == [Word(if conjunction then "and" else "or")] + tail
    ensures var first := if conjunction then ParseNot(reserved, toks) else ParseAnd(reserved, toks);
            var more := ParseParts(reserved, conjunction, tail);
            ParseParts(reserved, conjunction, toks) ==
            if first.None? || more.None? then None
            else Some(Parsed([first.value.tree] + more.value.tree, more.value.rest))
  {
    assert ([Word(if conjunction then "and" else "or")] + tail)[1..] == tail;
  }

  /** The text and the tokens of a longer join. */
  lemma PartsLexed(rs: seq<Reading>, conjunction: bool, k: nat, tailToks: seq<Token>)
    requires |rs| > 1 && Bracketed(rs[0].q) && Lex(rs[0].q.clause, k).Some?
    requires var text := Join(Clauses(Queries(rs[1..])), Separator(conjunction));
             && text != "" && text[0] == '(' && Marks(text) == |AllArgs(Queries(rs[1..]))|
             && Lex(text, k + |rs[0].q.args|) == Some(tailToks)
    ensures var text := Join(Clauses(Queries(rs)), Separator(conjunction));
            && text != "" && text[0] == '(' && Marks(text) == |AllArgs(Queries(rs))|
            && Lex(text, k)
               == Some(Lex(rs[0].q.clause, k).value + [Word(if conjunction then "and" else "or")] + tailToks)
  {
    JoinStep(rs, Separator(conjunction));
    JoinTokens(rs[0], rs[1..], conjunction, k);
  }

  lemma PartsCombine(rs: seq<Reading>, conjunction: bool, reserved: set<string>, row: Row, k: nat,
          args: seq<string>, rest: seq<Token>, tailToks: seq<Token>)
    requires |rs| > 1
    requires var word := Word(if conjunction then "and" else "or");
             && ReadsAt(rs[0], reserved, row, k, args, [word] + (tailToks + rest))
             && var toks := Lex(rs[0].q.clause, k).value + ([word] + (tailToks + rest));
                (if conjunction then ParseNot(reserved, toks) else ParseAnd(reserved, toks))
                    == ParsePrimary(reserved, toks)
    requires PartsReadAt(rs[1..], conjunction, reserved, row, k + |rs[0].q.args|, args, rest)
    requires Bracketed(rs[0].q)
    requires Lex(Join(Clauses(Queries(rs[1..])), Separator(conjunction)), k + |rs[0].q.args|) == Some(tailToks)
    ensures PartsReadAt(rs, conjunction, reserved, row, k, args, rest)
  {
    var word := Word(if conjunction then "and" else "or");
    PartsLexed(rs, conjunction, k, tailToks);
    ReadingsCons(rs);
    var headToks := Lex(rs[0].q.clause, k).value;
    var toks := headToks + [word] + tailToks;
    assert toks + rest == headToks + ([word] + (tailToks + rest));
    ParsePartsStep(reserved, conjunction, toks + rest, tailToks + rest);
    var first := ParsePrimary(reserved, toks + rest);
    var more := ParseParts(reserved, conjunction, tailToks + rest);
    if first.Some? && more.Some? {
      HoldsCons(first.value.tree, more.value.tree, row, args);
    }
  }

  /** `(c1 AND c2 ...)` and `(c1 OR c2 ...)`. */
  lemma JoinedReads(rs: seq<Reading>, conjunction: bool, reserved: set<string>, row: Row)
    requires |rs| >= 2 && ReadEach(rs, reserved, row)
    ensures Reads(Reading(Joined(Queries(rs), Separator(conjunction)), AllReadable(rs),
        if conjunction then EveryValue(rs) else SomeValue(rs)), reserved, row)
  {
    var q := Joined(Queries(rs), Separator(conjunction));
    var r := Reading(q, AllReadable(rs), if conjunction then EveryValue(rs) else SomeValue(rs));
    JoinedBracketed(rs, conjunction, reserved, row);
    forall k: nat, args: seq<string>, rest: seq<Token> | Binds(q, k, args)
      ensures ReadsAt(r, reserved, row, k, args, rest)
    {
      JoinedReadsAt(rs, conjunction, reserved, row, k, args, rest);
    }
  }

  lemma JoinedBracketed(rs: seq<Reading>, conjunction: bool, reserved: set<string>, row: Row)
    requires |rs| >= 2 && ReadEach(rs, reserved, row)
    ensures Bracketed(Joined(Queries(rs), Separator(conjunction)))
  {
    var q := Joined(Queries(rs), Separator(conjunction));
    assert q.args[0..0 + |q.args|] == q.args;
    PartsRead(rs, conjunction, reserved, row, 0, q.args, [RParen]);
    var text := Join(Clauses(Queries(rs)), Separator(conjunction));
    LexBracketed(text, 0, Lex(text, 0).value);
  }

  lemma JoinedReadsAt(rs: seq<Reading>, conjunction: bool, reserved: set<string>, row: Row, k: nat,
          args: seq<string>, rest: seq<Token>)
    requires |rs| >= 2 && ReadEach(rs, reserved, row)
    requires Binds(Joined(Queries(rs), Separator(conjunction)), k, args)
    ensures ReadsAt(Reading(Joined(Queries(rs), Separator(conjunction)), AllReadable(rs),
        if conjunction then EveryValue(rs) else SomeValue(rs)),
                    reserved, row, k, args, rest)
  {
    var text := Join(Clauses(Queries(rs)), Separator(conjunction));
    PartsRead(rs, conjunction, reserved, row, k, args, [RParen] + rest);
    var inner := Lex(text, k).value;
    LexBracketed(text, k, inner);
    OrOfParts(reserved, conjunction, inner + ([RParen] + rest));
    PrimaryOfOr(reserved, inner, rest);
  }

  /** A whole list of conjuncts or of disjuncts, closed by a bracket, is one disjunction. */
  lemma OrOfParts(reserved: set<string>, conjunction: bool, toks: seq<Token>)
    requires var parts := ParseParts(reserved, conjunction, toks);
             parts.Some? ==> |parts.value.tree| >= 2 && parts.value.rest != [] && parts.value.rest[0] == RParen
    ensures var parts := ParseParts(reserved, conjunction, toks);
            ParseOr(reserved, toks) ==
            if parts.None? then None
            else Some(Parsed(if conjunction then All(parts.value.tree) else Any(parts.value.tree), parts.value.rest))
  {
    if conjunction {
      var one := ParseAnd(reserved, toks);
      assert one.Some? ==> one.value.rest == ParseAndParts(reserved, toks).value.rest;
      assert ParseOrParts(reserved, toks) == if one.None? then None else Some(Parsed([one.value.tree], one.value.rest));
    }
  }

  /** `(NOT c)`. */
  lemma NegatedReads(r: Reading, reserved: set<string>, row: Row)
    requires Reads(r, reserved, row)
    ensures Reads(Reading(Negated(r.q), r.readable, !r.value), reserved, row)
  {
    var n := Reading(Negated(r.q), r.readable, !r.value);
    assert Opened(r);
    LexNot(0);
    assert Separated("(NOT ", r.q.clause) && Separated("(NOT " + r.q.clause, ")");
    MarksConcat("(NOT ", r.q.clause);
    MarksConcat("(NOT " + r.q.clause, ")");
    LexChar(')', 0);
    assert Bracketed(n.q);
    forall k: nat, args: seq<string>, rest: seq<Token> | Binds(n.q, k, args)
      ensures ReadsAt(n, reserved, row, k, args, rest)
    {
      assert Binds(r.q, k, args);
      NegatedReadsAt(r, reserved, row, k, args, rest);
    }
  }

  lemma LexNegated(q: SqlPredicate, k: nat)
    requires Bracketed(q) && Lex(q.clause, k).Some?
    ensures Lex(Negated(q).clause, k) == Some([LParen] + ([Word("not")] + Lex(q.clause, k).value) + [RParen])
  {
    LexNot(k);
    LexChar(')', k + |q.args|);
    LexHeaded("(NOT ", Word("not"), q, ")", k);
    Reassociate(LParen, Word("not"), Lex(q.clause, k).value);
  }

  /** A bracketed clause between a head that ends in a blank and a closing bracket. */
  lemma LexHeaded(head: string, word: Token, q: SqlPredicate, tail: string, k: nat)
    requires Bracketed(q) && Lex(q.clause, k).Some? && head != "" && head[|head| - 1] == ' '
    requires Lex(head, k) == Some([LParen, word]) && Marks(head) == 0
    requires tail != "" && tail[0] == ')' && Lex(tail, k + |q.args|) == Some([RParen])
    ensures Lex(head + q.clause + tail, k) == Some([LParen, word] + Lex(q.clause, k).value + [RParen])
  {
    LexTriple(head, q.clause, tail, k, [LParen, word], Lex(q.clause, k).value, [RParen]);
  }

  lemma Reassociate(a: Token, b: Token, inner: seq<Token>)
    ensures [a, b] + inner + [RParen] == [a] + ([b] + inner) + [RParen]
  {}

  /** A bracket around a disjunction. */
  lemma PrimaryOfOr(reserved: set<string>, inner: seq<Token>, rest: seq<Token>)
    requires var tree := ParseOr(reserved, inner + ([RParen] + rest));
             tree.Some? ==> tree.value.rest == [RParen] + rest
    ensures var tree := ParseOr(reserved, inner + ([RParen] + rest));
            ParsePrimary(reserved, [LParen] + inner + [RParen] + rest)
            == if tree.None? then None else Some(Parsed(tree.value.tree, rest))
  {
    var toks := [LParen] + inner + [RParen] + rest;
    assert toks[1..] == inner + ([RParen] + rest);
    assert ([RParen] + rest)[1..] == rest;
  }

  lemma NegatedReadsAt(r: Reading, reserved: set<string>, row: Row, k: nat, args: seq<string>, rest: seq<Token>)
    requires Bracketed(r.q) && ReadsAt(r, reserved, row, k, args, [RParen] + rest)
    ensures ReadsAt(Reading(Negated(r.q), r.readable, !r.value), reserved, row, k, args, rest)
  {
    var inner := Lex(r.q.clause, k).value;
    LexNegated(r.q, k);
    NotIsPrimary(reserved, inner + ([RParen] + rest));
    OrOfNot(reserved, inner + ([RParen] + rest));
    assert [Word("not")] + (inner + ([RParen] + rest)) == [Word("not")] + inner + ([RParen] + rest);
    PrimaryOfOr(reserved, [Word("not")] + inner, rest);
  }

  lemma OrOfNot(reserved: set<string>, toks: seq<Token>)
    requires var child := ParseNot(reserved, toks);
             child.Some? ==> child.value.rest != [] && child.value.rest[0] == RParen
    ensures var child := ParseNot(reserved, toks);
            ParseOr(reserved, [Word("not")] + toks) ==
            if child.None? then None else Some(Parsed(Not(child.value.tree), child.value.rest))
  {
    var all := [Word("not")] + toks;
    assert all[1..] == toks;
    SingleNot(reserved, all);
  }

  /** One NOT-level condition that no AND or OR continues is the whole disjunction. */
  lemma SingleNot(reserved: set<string>, toks: seq<Token>)
    requires var one := ParseNot(reserved, toks);
             one.Some? ==> !IsKeyword(one.value.rest, "and") && !IsKeyword(one.value.rest, "or")
    ensures ParseOr(reserved, toks) == ParseNot(reserved, toks)
  {
    var one := ParseNot(reserved, toks);
    assert ParseAndParts(reserved, toks) == if one.None? then None else Some(Parsed([one.value.tree], one.value.rest));
    assert ParseAnd(reserved, toks) == one;
    assert ParseOrParts(reserved, toks) == if one.None? then None else Some(Parsed([one.value.tree], one.value.rest));
  }

  // ---- The leaves -----------------------------------------------------------

  /** A comparison before a closing bracket is the whole disjunction. */
  lemma ComparisonAlone(reserved: set<string>, toks: seq<Token>)
    requires toks != [] && toks[0] != LParen && toks[0] != Word("not")
    requires var one := ParseComparison(reserved, toks);
             one.Some? ==> one.value.rest != [] && one.value.rest[0] == RParen
    ensures ParseOr(reserved, toks) == ParseComparison(reserved, toks)
  {
    assert ParseNot(reserved, toks) == ParseComparison(reserved, toks);
    SingleNot(reserved, toks);
  }

  lemma NumberTerm(digit: string, reserved: set<string>)
    requires digit == "0" || digit == "1"
    ensures ParseTerm(reserved, Word(digit)) == Some(Number(digit))
  {
    assert digit[0] == '0' || digit[0] == '1';
  }

  /** The constant `(1 = digit)` parses as that comparison. */
  lemma ConstantParsed(digit: string, reserved: set<string>, rest: seq<Token>)
    requires digit == "0" || digit == "1"
    ensures ParsePrimary(reserved, [LParen, Word("1"), Equals, Word(digit), RParen] + rest)
            == Some(Parsed(Compare(Number("1"), Number(digit)), rest))
  {
    var inner := [Word("1"), Equals, Word(digit)];
    var toks := inner + ([RParen] + rest);
    NumberTerm("1", reserved);
    NumberTerm(digit, reserved);
    assert toks[0] == Word("1") && toks[1] == Equals && toks[2] == Word(digit) && toks[3..] == [RParen] + rest;
    assert "1"[0] != "not"[0];
    ComparisonAlone(reserved, toks);
    PrimaryOfOr(reserved, inner, rest);
    assert [LParen] + inner + [RParen] + rest == [LParen, Word("1"), Equals, Word(digit), RParen] + rest;
  }

  lemma ConstantReads(digit: string, reserved: set<string>, row: Row)
    requires digit == "0" || digit == "1"
    ensures Reads(Reading(SqlPredicate("(1 = " + digit + ")", []), true, digit == "1"), reserved, row)
  {
    var r := Reading(SqlPredicate("(1 = " + digit + ")", []), true, digit == "1");
    LexConstant(digit, 0);
    forall k: nat, args: seq<string>, rest: seq<Token> | Binds(r.q, k, args)
      ensures ReadsAt(r, reserved, row, k, args, rest)
    {
      LexConstant(digit, k);
      ConstantParsed(digit, reserved, rest);
    }
  }

  predicate ColumnCharsOnly(s: string) {
    forall i | 0 <= i < |s| :: Ir.IdentChar(s[i]) || s[i] == '.'
  }

  lemma FoldLower(s: string)
    requires ColumnCharsOnly(s)
    ensures Fold(s) == s && AllWordChars(s)
  {}

  lemma DottedChars(column: string, i: nat)
    requires 0 < i < |column| && column[i] == '.' && Ir.IsIdent(column[..i]) && Ir.IsIdent(column[i + 1..])
    ensures ColumnCharsOnly(column) && Ir.IdentStart(column[0])
  {
    forall j | 0 <= j < |column|
      ensures Ir.IdentChar(column[j]) || column[j] == '.'
    {
      if j < i {
        assert column[j] == column[..i][j];
      } else if j > i {
        assert column[j] == column[i + 1..][j - (i + 1)];
      }
    }
    assert column[0] == column[..i][0];
  }

  lemma ColumnStart(column: string)
    requires Ir.IsColumn(column)
    ensures column != "" && ColumnCharsOnly(column) && Ir.IdentStart(column[0])
  {
    if !Ir.IsIdent(column) {
      var i :| 0 < i < |column| && column[i] == '.' && Ir.IsIdent(column[..i]) && Ir.IsIdent(column[i + 1..]);
      DottedChars(column, i);
    }
  }

  lemma ColumnChars(column: string)
    requires Ir.IsColumn(column)
    ensures column != "" && AllWordChars(column) && Fold(column) == column && !('0' <= column[0] <= '9')
  {
    ColumnStart(column);
    FoldLower(column);
  }

  lemma KeywordsAreReserved(reserved: set<string>)
    ensures !IsColumnName(reserved, "not") && !IsColumnName(reserved, "in")
    ensures ParseTerm(reserved, Word("not")) == None && ParseTerm(reserved, Word("in")) == None
  {
    assert FirstPart("t") == "t" && FirstPart("n") == "n";
    assert FirstPart("ot") == "ot" && FirstPart("in") == "in";
    assert FirstPart("not") == "not";
    assert !IsNumber("not") by { assert "not"[0] == 'n'; }
    assert !IsNumber("in") by { assert "in"[0] == 'i'; }
  }

  lemma ColumnTerm(column: string, reserved: set<string>)
    requires Ir.IsColumn(column)
    ensures ParseTerm(reserved, Word(column)) == if IsColumnName(reserved, column) then Some(Column(column)) else None
  {
    ColumnChars(column);
  }

  lemma LexEqualClause(column: string, k: nat)
    requires Ir.IsColumn(column)
    ensures Lex("(" + column + " = ?)", k) == Some([LParen, Word(column), Equals, Mark(k), RParen])
    ensures Marks("(" + column + " = ?)") == 1
  {
    ColumnChars(column);
    LexChar('(', k);
    LexWord(column, k);
    LexEqualsMark(k);
    LexTriple("(", column, " = ?)", k, [LParen], [Word(column)], [Equals, Mark(k), RParen]);
    assert [LParen] + [Word(column)] + [Equals, Mark(k), RParen] == [LParen, Word(column), Equals, Mark(k), RParen];
  }

  /** A condition that starts with a reserved word is not a condition. */
  lemma ReservedFirst(reserved: set<string>, column: string, tail: seq<Token>)
    requires Ir.IsColumn(column) && !IsColumnName(reserved, column)
    requires tail != [] && (tail[0] == Equals || tail[0] == Word("in"))
    ensures ParseOr(reserved, [Word(column)] + tail) == None
  {
    ColumnTerm(column, reserved);
    KeywordsAreReserved(reserved);
    var toks := [Word(column)] + tail;
    if column == "not" {
      assert toks[1..] == tail;
      assert ParseTerm(reserved, tail[0]) == None;
      assert ParsePrimary(reserved, tail) == None;
    } else {
      assert ParsePrimary(reserved, toks) == None;
    }
    assert ParseNot(reserved, toks) == None;
    assert ParseAndParts(reserved, toks) == None;
    assert ParseOrParts(reserved, toks) == None;
  }

  lemma EqualReads(column: string, value: string, reserved: set<string>, row: Row)
    requires Ir.IsColumn(column) && column in row
    ensures Reads(Reading(SqlPredicate("(" + column + " = ?)", [value]), IsColumnName(reserved, column),
        row[column] == value), reserved, row)
  {
    var r :=
        Reading(SqlPredicate("(" + column + " = ?)", [value]), IsColumnName(reserved, column), row[column] == value);
    LexEqualClause(column, 0);
    forall k: nat, args: seq<string>, rest: seq<Token> | Binds(r.q, k, args)
      ensures ReadsAt(r, reserved, row, k, args, rest)
    {
      EqualReadsAt(column, value, reserved, row, k, args, rest);
    }
  }

  lemma EqualReadsAt(column: string, value: string, reserved: set<string>, row: Row, k: nat, args: seq<string>,
          rest: seq<Token>)
    requires Ir.IsColumn(column) && column in row
    requires k + 1 <= |args| && args[k..k + 1] == [value]
    ensures ReadsAt(Reading(SqlPredicate("(" + column + " = ?)", [value]), IsColumnName(reserved, column),
        row[column] == value),
                    reserved, row, k, args, rest)
  {
    LexEqualClause(column, k);
    assert args[k] == args[k..k + 1][0] == value;
    var inner := [Word(column), Equals, Mark(k)];
    assert [LParen] + inner + [RParen] == [LParen, Word(column), Equals, Mark(k), RParen];
    EqualCondition(column, reserved, k, [RParen] + rest);
    PrimaryOfOr(reserved, inner, rest);
  }

  lemma EqualCondition(column: string, reserved: set<string>, k: nat, rest: seq<Token>)
    requires Ir.IsColumn(column) && rest != [] && rest[0] == RParen
    ensures ParseOr(reserved, [Word(column), Equals, Mark(k)] + rest)
            == if IsColumnName(reserved, column) then Some(Parsed(Compare(Column(column), Param(k)), rest)) else None
  {
    var inner := [Word(column), Equals, Mark(k)] + rest;
    if IsColumnName(reserved, column) {
      ColumnTerm(column, reserved);
      KeywordsAreReserved(reserved);
      assert inner[3..] == rest;
      assert inner[0] == Word(column) && column != "not";
      SingleNot(reserved, inner);
    } else {
      assert inner == [Word(column)] + ([Equals, Mark(k)] + rest);
      ReservedFirst(reserved, column, [Equals, Mark(k)] + rest);
    }
  }

  // ---- IN -------------------------------------------------------------------

  function MarkList(k: nat, n: nat): seq<Token>
    requires n > 0
    decreases n
  {
    if n == 1 then [Mark(k)] else [Mark(k), Comma] + MarkList(k + 1, n - 1)
  }

  function Indexes(k: nat, n: nat): (s: seq<nat>)
    ensures |s| == n && forall i | 0 <= i < n :: s[i] == k + i
  {
    seq(n, i => k + i)
  }

  lemma {:induction false} LexPlaceholders(k: nat, n: nat)
    requires n > 0
    ensures var text := Join(Placeholders(n), ", ");
            && text != "" && !IsWordChar(text[0]) && !IsWordChar(text[|text| - 1])
            && Lex(text, k) == Some(MarkList(k, n)) && Marks(text) == n
    decreases n
  {
    if n == 1 {
      LexChar('?', k);
      assert Placeholders(1) == ["?"];
    } else {
      assert Placeholders(n)[1..] == Placeholders(n - 1);
      LexPlaceholders(k + 1, n - 1);
      LexComma(k);
      var text := Join(Placeholders(n - 1), ", ");
      MarkBefore("?, ", text, k, MarkList(k + 1, n - 1));
      assert "?" + ", " + text == "?, " + text by { assert "?" + ", " == "?, "; }
      assert [Mark(k), Comma] + MarkList(k + 1, n - 1) == MarkList(k, n);
    }
  }

  lemma LexComma(k: nat)
    ensures Lex("?, ", k) == Some([Mark(k), Comma]) && Marks("?, ") == 1
  {
    LexChar('?', k);
    LexChar(',', k + 1);
    LexChar(' ', k + 1);
    LexTriple("?", ",", " ", k, [Mark(k)], [Comma], []);
    assert "?" + "," + " " == "?, ";
    assert [Mark(k)] + [Comma] + [] == [Mark(k), Comma];
  }

  lemma MarkBefore(head: string, text: string, k: nat, toks: seq<Token>)
    requires head != "" && head[|head| - 1] == ' ' && text != ""
    requires Lex(head, k) == Some([Mark(k), Comma]) && Marks(head) == 1 && Lex(text, k + 1) == Some(toks)
    ensures Lex(head + text, k) == Some([Mark(k), Comma] + toks) && Marks(head + text) == 1 + Marks(text)
  {
    LexPair(head, text, k, [Mark(k), Comma], toks);
  }

  lemma {:induction false} ParseMarkList(k: nat, n: nat, rest: seq<Token>)
    requires n > 0
    ensures ParseParams(MarkList(k, n) + ([RParen] + rest)) == Some(Parsed(Indexes(k, n), rest))
    decreases n
  {
    var toks := MarkList(k, n) + ([RParen] + rest);
    if n == 1 {
      assert toks[2..] == rest;
      assert Indexes(k, 1) == [k];
    } else {
      ParseMarkList(k + 1, n - 1, rest);
      assert toks[2..] == MarkList(k + 1, n - 1) + ([RParen] + rest);
      assert [k] + Indexes(k + 1, n - 1) == Indexes(k, n);
    }
  }

  function InClause(column: string, n: nat): string {
    "(" + column + " IN (" + Join(Placeholders(n), ", ") + "))"
  }

  function InTokens(column: string, k: nat, n: nat): seq<Token>
    requires n > 0
  {
    [LParen] + ([Word(column), Word("in"), LParen] + (MarkList(k, n) + [RParen])) + [RParen]
  }

  lemma LexInList(k: nat, n: nat)
    requires n > 0
    ensures Lex(Join(Placeholders(n), ", ") + ")", k) == Some(MarkList(k, n) + [RParen])
    ensures Marks(Join(Placeholders(n), ", ") + ")") == n
  {
    LexPlaceholders(k, n);
    LexChar(')', k + n);
    LexPair(Join(Placeholders(n), ", "), ")", k, MarkList(k, n), [RParen]);
  }

  lemma LexInHead(column: string, k: nat)
    requires Ir.IsColumn(column)
    ensures Lex(column + " IN (", k) == Some([Word(column), Word("in"), LParen])
    ensures Marks(column + " IN (") == 0
  {
    ColumnChars(column);
    LexWord(column, k);
    LexIn(k);
    LexPair(column, " IN (", k, [Word(column)], [Word("in"), LParen]);
    assert [Word(column)] + [Word("in"), LParen] == [Word(column), Word("in"), LParen];
  }

  lemma LexInClause(column: string, k: nat, n: nat)
    requires Ir.IsColumn(column) && n > 0
    ensures Lex(InClause(column, n), k) == Some(InTokens(column, k, n))
    ensures Marks(InClause(column, n)) == n
  {
    var list := Join(Placeholders(n), ", ") + ")";
    LexInHead(column, k);
    LexInList(k, n);
    LexPair(column + " IN (", list, k, [Word(column), Word("in"), LParen], MarkList(k, n) + [RParen]);
    LexBracketed(column + " IN (" + list, k, [Word(column), Word("in"), LParen] + (MarkList(k, n) + [RParen]));
    InClauseText(column, n);
  }

  lemma InClauseText(column: string, n: nat)
    ensures InClause(column, n) == "(" + (column + " IN (" + (Join(Placeholders(n), ", ") + ")")) + ")"
  {
    Brackets(column, " IN (", Join(Placeholders(n), ", "));
  }

  lemma Brackets(a: string, b: string, c: string)
    ensures "(" + a + b + c + "))" == "(" + (a + b + (c + ")")) + ")"
  {
    assert "))" == ")" + ")";
  }

  lemma InReads(column: string, values: seq<string>, reserved: set<string>, row: Row)
    requires Ir.IsColumn(column) && column in row && values != []
    ensures Reads(Reading(SqlPredicate(InClause(column, |values|), values), IsColumnName(reserved, column),
        row[column] in values), reserved, row)
  {
    var r :=
        Reading(SqlPredicate(InClause(column, |values|), values), IsColumnName(reserved, column),
            row[column] in values);
    LexInClause(column, 0, |values|);
    forall k: nat, args: seq<string>, rest: seq<Token> | Binds(r.q, k, args)
      ensures ReadsAt(r, reserved, row, k, args, rest)
    {
      InReadsAt(column, values, reserved, row, k, args, rest);
    }
  }

  lemma InReadsAt(column: string, values: seq<string>, reserved: set<string>, row: Row, k: nat, args: seq<string>,
          rest: seq<Token>)
    requires Ir.IsColumn(column) && column in row && values != []
    requires k + |values| <= |args| && args[k..k + |values|] == values
    ensures ReadsAt(Reading(SqlPredicate(InClause(column, |values|), values), IsColumnName(reserved, column),
        row[column] in values),
                    reserved, row, k, args, rest)
  {
    var n := |values|;
    LexInClause(column, k, n);
    var inner := [Word(column), Word("in"), LParen] + (MarkList(k, n) + [RParen]);
    InCondition(column, reserved, k, n, [RParen] + rest);
    PrimaryOfOr(reserved, inner, rest);
    AmongValues(column, values, row, k, args);
  }

  lemma InComparison(column: string, reserved: set<string>, k: nat, n: nat, rest: seq<Token>)
    requires Ir.IsColumn(column) && IsColumnName(reserved, column) && n > 0
    ensures ParseComparison(reserved, [Word(column), Word("in"), LParen] + (MarkList(k, n) + ([RParen] + rest)))
            == Some(Parsed(Among(Column(column), Indexes(k, n)), rest))
  {
    var tail := MarkList(k, n) + ([RParen] + rest);
    var toks := [Word(column), Word("in"), LParen] + tail;
    ColumnTerm(column, reserved);
    ParseMarkList(k, n, rest);
    assert toks[0] == Word(column) && toks[1] == Word("in") && toks[2] == LParen && toks[3..] == tail;
  }

  lemma InReadable(column: string, reserved: set<string>, k: nat, n: nat, rest: seq<Token>)
    requires Ir.IsColumn(column) && IsColumnName(reserved, column) && n > 0 && rest != [] && rest[0] == RParen
    ensures ParseOr(reserved, [Word(column), Word("in"), LParen] + (MarkList(k, n) + ([RParen] + rest)))
            == Some(Parsed(Among(Column(column), Indexes(k, n)), rest))
  {
    KeywordsAreReserved(reserved);
    InComparison(column, reserved, k, n, rest);
    ComparisonAlone(reserved, [Word(column), Word("in"), LParen] + (MarkList(k, n) + ([RParen] + rest)));
  }

  lemma InUnreadable(column: string, reserved: set<string>, tail: seq<Token>)
    requires Ir.IsColumn(column) && !IsColumnName(reserved, column)
    ensures ParseOr(reserved, [Word(column), Word("in"), LParen] + tail) == None
  {
    assert [Word(column), Word("in"), LParen] + tail == [Word(column)] + ([Word("in"), LParen] + tail);
    ReservedFirst(reserved, column, [Word("in"), LParen] + tail);
  }

  lemma InCondition(column: string, reserved: set<string>, k: nat, n: nat, rest: seq<Token>)
    requires Ir.IsColumn(column) && n > 0 && rest != [] && rest[0] == RParen
    ensures ParseOr(reserved, [Word(column), Word("in"), LParen] + (MarkList(k, n) + [RParen]) + rest)
            == if IsColumnName(reserved, column) then Some(Parsed(Among(Column(column), Indexes(k, n)), rest)) else None
  {
    var tail := MarkList(k, n) + ([RParen] + rest);
    assert [Word(column), Word("in"), LParen] + (MarkList(k, n) + [RParen]) + rest
        == [Word(column), Word("in"), LParen] + tail;
    if IsColumnName(reserved, column) {
      InReadable(column, reserved, k, n, rest);
    } else {
      InUnreadable(column, reserved, tail);
    }
  }

  lemma AmongValues(column: string, values: seq<string>, row: Row, k: nat, args: seq<string>)
    requires column in row && k + |values| <= |args| && args[k..k + |values|] == values
    ensures Holds(Among(Column(column), Indexes(k, |values|)), row, args) == (row[column] in values)
  {
    assert forall i | 0 <= i < |values| :: values[i] == args[k..k + |values|][i] == args[k + i];
    if row[column] in values {
      var i :| 0 <= i < |values| && values[i] == row[column];
      assert TermText(Column(column), row, args) == TermText(Param(Indexes(k, |values|)[i]), row, args);
    }
  }
}
