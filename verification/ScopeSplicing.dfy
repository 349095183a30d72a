/**
 A compiled scope is appended to a hand-written query after ` AND `
 (internal/authorization/tenant_service.go).  Its meaning there is its own meaning:
 the query selects the rows that satisfy both, whatever conjunction came before.
 */
module ScopeSplicing {
  import opened Wrappers
  import opened SqlFragment
  import opened CompilerTexts
  import opened PredicateIr
  import opened Evaluator
  import opened Compiler
  import opened CompilerCorrectness
  import opened ScopeCorrectness

  // ---- A parse is not disturbed by what follows -----------------------------

  /** `more` cannot continue a list of conditions that ended at `rest`. */
  predicate Stops(rest: seq<Token>, more: seq<Token>) {
    rest != [] || !(IsKeyword(more, "and") || IsKeyword(more, "or"))
  }

  function Extended<T>(p: Option<Parsed<T>>, more: seq<Token>): Option<Parsed<T>> {
    if p.None? then None else Some(Parsed(p.value.tree, p.value.rest + more))
  }

  lemma {:induction false} ParamsExtend(toks: seq<Token>, more: seq<Token>)
    requires ParseParams(toks).Some?
    ensures ParseParams(toks + more) == Extended(ParseParams(toks), more)
    decreases |toks|
  {
    assert (toks + more)[2..] == toks[2..] + more;
    if toks[1] == Comma {
      ParamsExtend(toks[2..], more);
    }
  }

  lemma ComparisonExtends(reserved: set<string>, toks: seq<Token>, more: seq<Token>)
    requires toks != [] && ParseComparison(reserved, toks).Some?
    ensures ParseComparison(reserved, toks + more) == Extended(ParseComparison(reserved, toks), more)
  {
    assert (toks + more)[3..] == toks[3..] + more;
    if toks[1] == Word("in") && toks[2] == LParen {
      ParamsExtend(toks[3..], more);
    }
  }

  lemma {:induction false} OrExtends(reserved: set<string>, toks: seq<Token>, more: seq<Token>)
    requires ParseOrParts(reserved, toks).Some? && Stops(ParseOrParts(reserved, toks).value.rest, more)
    ensures ParseOrParts(reserved, toks + more) == Extended(ParseOrParts(reserved, toks), more)
    decreases |toks|, 4
  {
    var first := ParseAndParts(reserved, toks);
    AndExtends(reserved, toks, more);
    var one := ParseAnd(reserved, toks);
    assert ParseAnd(reserved, toks + more) == Extended(one, more);
    if IsKeyword(one.value.rest, "or") {
      OrExtends(reserved, one.value.rest[1..], more);
      assert (one.value.rest + more)[1..] == one.value.rest[1..] + more;
    }
  }

  lemma {:induction false} AndExtends(reserved: set<string>, toks: seq<Token>, more: seq<Token>)
    requires ParseAndParts(reserved, toks).Some? && Stops(ParseAndParts(reserved, toks).value.rest, more)
    ensures ParseAndParts(reserved, toks + more) == Extended(ParseAndParts(reserved, toks), more)
    decreases |toks|, 2
  {
    NotExtends(reserved, toks, more);
    var one := ParseNot(reserved, toks);
    if IsKeyword(one.value.rest, "and") {
      AndExtends(reserved, one.value.rest[1..], more);
      assert (one.value.rest + more)[1..] == one.value.rest[1..] + more;
    }
  }

  lemma {:induction false} NotExtends(reserved: set<string>, toks: seq<Token>, more: seq<Token>)
    requires ParseNot(reserved, toks).Some?
    ensures ParseNot(reserved, toks + more) == Extended(ParseNot(reserved, toks), more)
    decreases |toks|, 1
  {
    if IsKeyword(toks, "not") {
      NotExtends(reserved, toks[1..], more);
      assert (toks + more)[1..] == toks[1..] + more;
    } else {
      PrimaryExtends(reserved, toks, more);
    }
  }

  lemma {:induction false} PrimaryExtends(reserved: set<string>, toks: seq<Token>, more: seq<Token>)
    requires ParsePrimary(reserved, toks).Some?
    ensures ParsePrimary(reserved, toks + more) == Extended(ParsePrimary(reserved, toks), more)
    decreases |toks|, 0
  {
    if toks[0] == LParen {
      OrExtends(reserved, toks[1..], more);
      assert (toks + more)[1..] == toks[1..] + more;
      var inner := ParseOr(reserved, toks[1..]);
      assert ParseOr(reserved, toks[1..] + more) == Extended(inner, more);
      assert (inner.value.rest + more)[1..] == inner.value.rest[1..] + more;
    } else {
      ComparisonExtends(reserved, toks, more);
    }
  }

  // ---- Appending one more conjunct ------------------------------------------

  lemma TailOfConcat(a: seq<Token>, b: seq<Token>)
    requires a != []
    ensures (a + b)[1..] == a[1..] + b
  {}

  lemma ConsOfConcat(first: Sql, before: seq<Sql>, after: seq<Sql>)
    ensures [first] + (before + after) == [first] + before + after
  {}

  lemma {:induction false} AppendConjuncts(reserved: set<string>, toks: seq<Token>, more: seq<Token>)
    requires ParseAndParts(reserved, toks).Some? && ParseAndParts(reserved, toks).value.rest == []
    ensures var before := ParseAndParts(reserved, toks).value.tree;
            var after := ParseAndParts(reserved, more);
            ParseAndParts(reserved, toks + ([Word("and")] + more))
            == if after.None? then None else Some(Parsed(before + after.value.tree, after.value.rest))
    decreases |toks|
  {
    var tail := [Word("and")] + more;
    NotExtends(reserved, toks, tail);
    var one := ParseNot(reserved, toks);
    assert tail[1..] == more;
    if IsKeyword(one.value.rest, "and") {
      AppendConjuncts(reserved, one.value.rest[1..], more);
      TailOfConcat(one.value.rest, tail);
      var before := ParseAndParts(reserved, one.value.rest[1..]).value.tree;
      var after := ParseAndParts(reserved, more);
      if after.Some? { ConsOfConcat(one.value.tree, before, after.value.tree); }
    } else {
      assert one.value.rest + tail == tail;
    }
  }

  lemma {:induction false} HoldsAllAppend(qs: seq<Sql>, last: Sql, row: Row, args: seq<string>)
    ensures HoldsAll(qs + [last], row, args) == (HoldsAll(qs, row, args) && Holds(last, row, args))
  {
    if qs == [] {
      assert [] + [last] == [last] && [last][1..] == [];
    } else {
      assert (qs + [last])[1..] == qs[1..] + [last];
      HoldsAllAppend(qs[1..], last, row, args);
    }
  }

  /** The text that stands before the scope is a conjunction, with its own arguments. */
  ghost predicate IsConjunction(reserved: set<string>, prefix: string, prefixArgs: seq<string>, parts: seq<Sql>) {
    && prefix != "" && Marks(prefix) == |prefixArgs|
    && Lex(prefix, 0).Some?
    && ParseAndParts(reserved, Lex(prefix, 0).value) == Some(Parsed(parts, []))
  }

  lemma SplicedClause(r: Reading, reserved: set<string>, row: Row, prefix: string, prefixArgs: seq<string>,
          parts: seq<Sql>)
    requires Reads(r, reserved, row) && IsConjunction(reserved, prefix, prefixArgs, parts)
    ensures var whole := ParseWhere(reserved, prefix + " AND " + r.q.clause);
            && (whole.Some? <==> r.readable)
            && (whole.Some? ==>
                 var args := prefixArgs + r.q.args;
                 Holds(whole.value, row, args) == (HoldsAll(parts, row, args) && r.value))
  {
    assert Opened(r);
    var k, args := |prefixArgs|, prefixArgs + r.q.args;
    assert Binds(r.q, k, args);
    assert ReadsAt(r, reserved, row, k, args, []);
    var before, own := Lex(prefix, 0).value, Lex(r.q.clause, k).value;
    SplicedTokens(prefix, r.q, before, own);
    assert own + [] == own;
    ConjoinTokens(reserved, before, own, parts);
    var one := ParsePrimary(reserved, own);
    if one.Some? {
      HoldsAllAppend(parts, one.value.tree, row, args);
    }
  }

  lemma SplicedTokens(prefix: string, q: SqlPredicate, before: seq<Token>, own: seq<Token>)
    requires prefix != "" && Bracketed(q)
    requires Lex(prefix, 0) == Some(before) && Lex(q.clause, Marks(prefix)) == Some(own)
    ensures Lex(prefix + " AND " + q.clause, 0) == Some(before + ([Word("and")] + own))
  {
    LexSeparator(true, Marks(prefix));
    SeparatedTokens(prefix, Separator(true), q.clause, before, Word("and"), own);
  }

  lemma SeparatedTokens(prefix: string, separator: string, clause: string, before: seq<Token>, word: Token,
          own: seq<Token>)
    requires separator != "" && separator[0] == ' ' && clause != "" && clause[0] == '('
    requires Lex(prefix, 0) == Some(before)
    requires Lex(separator, Marks(prefix)) == Some([word]) && Marks(separator) == 0
    requires Lex(clause, Marks(prefix)) == Some(own)
    ensures Lex(prefix + separator + clause, 0) == Some(before + ([word] + own))
  {
    LexTriple(prefix, separator, clause, 0, before, [word], own);
  }

  lemma ConjoinTokens(reserved: set<string>, before: seq<Token>, own: seq<Token>, parts: seq<Sql>)
    requires ParseAndParts(reserved, before) == Some(Parsed(parts, []))
    requires own != [] && own[0] == LParen
    requires var one := ParsePrimary(reserved, own); one.Some? ==> one.value.rest == []
    ensures var one := ParsePrimary(reserved, own);
            ParseOr(reserved, before + ([Word("and")] + own))
            == if one.None? then None else Some(Parsed(All(parts + [one.value.tree]), []))
  {
    var toks := before + ([Word("and")] + own);
    NotIsPrimary(reserved, own);
    AppendConjuncts(reserved, before, own);
    var one := ParsePrimary(reserved, own);
    assert ParseAndParts(reserved, own) == if one.None? then None else Some(Parsed([one.value.tree], []));
    assert ParseAnd(reserved, toks) == if one.None? then None else Some(Parsed(All(parts + [one.value.tree]), []));
    assert ParseOrParts(reserved, toks)
        == if one.None? then None else Some(Parsed([All(parts + [one.value.tree])], []));
  }

  /**
   A compiled scope after ` AND `: the query parses exactly when the scope does, and
   selects exactly the rows that meet the query's own conditions and that the
   evaluator allows.
   */
  lemma SplicedScope(reserved: set<string>, c: Context, row: Row, policies: seq<PolicyScope>, prefix: string,
          prefixArgs: seq<string>, parts: seq<Sql>)
    requires Describes(c, row) && CompilePolicies(c.schema, c.subject, policies).Ok?
    requires IsConjunction(reserved, prefix, prefixArgs, parts)
    ensures var q := CompilePolicies(c.schema, c.subject, policies).value;
            var whole := ParseWhere(reserved, prefix + " AND " + q.clause);
            var allowed := Decide(c, WithoutProposedDenies(policies), false);
            && allowed.Ok?
            && (whole.Some? <==> ScopeReadable(reserved, c.schema, c.subject, policies))
            && (whole.Some? ==>
                 var args := prefixArgs + q.args;
                 Holds(whole.value, row, args) == (HoldsAll(parts, row, args) && allowed.value))
  {
    ScopeReads(reserved, c, row, policies);
    EvaluateKept(c, policies);
    var r := Reading(CompilePolicies(c.schema, c.subject, policies).value,
                     ScopeReadable(reserved, c.schema, c.subject, policies),
                     SomeMatched(c, Allows(policies)) && !SomeMatched(c, Denies(policies)));
    SplicedClause(r, reserved, row, prefix, prefixArgs, parts);
  }
}
