/**
 The data scope as a whole: the clause compiled from a list of matched policies
 selects a row exactly when the evaluator allows it under the same policies
 without the denies that also depend on a proposed object.
 */
module ScopeCorrectness {
  import opened Wrappers
  import opened SqlFragment
  import opened PredicateIr
  import opened Evaluator
  import opened Compiler
  import opened CompilerCorrectness

  /** The context's stored object is this row: every schema field is present and is text. */
  ghost predicate Describes(c: Context, row: Row) {
    && ValidSchema(c.schema)
    && forall f | f in c.schema ::
         c.schema[f] in row && f in c.resource && c.resource[f] == Text(row[c.schema[f]])
  }

  /** No column the clause names is reserved; an empty IN list names none. */
  predicate Readable(reserved: set<string>, schema: Schema, subject: Attributes, p: Predicate)
    decreases p, 1
  {
    match p
    case Empty => true
    case Equal(l, _) => l.ResourceField? && l.name in schema ==> IsColumnName(reserved, schema[l.name])
    case In(l, r) =>
      l.ResourceField? && l.name in schema && r.SubjectField? && r.name in subject && subject[r.name] != TextList([])
      ==> IsColumnName(reserved, schema[l.name])
    case And(cs) => EachReadable(reserved, schema, subject, cs)
    case Or(cs) => EachReadable(reserved, schema, subject, cs)
    case Not(cs) => EachReadable(reserved, schema, subject, cs)
    case UnknownKind => true
  }

  predicate EachReadable(reserved: set<string>, schema: Schema, subject: Attributes, ps: seq<Predicate>)
    decreases ps, 0
  {
    forall p | p in ps :: Readable(reserved, schema, subject, p)
  }

  ghost function Readings(reserved: set<string>, c: Context, ps: seq<Predicate>, qs: seq<SqlPredicate>,
          vs: seq<bool>): (rs: seq<Reading>)
    requires |ps| == |qs| == |vs|
    ensures |rs| == |ps| && Queries(rs) == qs
    ensures AllReadable(rs) == EachReadable(reserved, c.schema, c.subject, ps)
    ensures EveryValue(rs) == (false !in vs) && SomeValue(rs) == (true in vs)
  {
    var rs :=
        seq(|ps|, i requires 0 <= i < |ps| => Reading(qs[i], Readable(reserved, c.schema, c.subject, ps[i]), vs[i]));
    assert forall i | 0 <= i < |ps| ::
        rs[i].readable == Readable(reserved, c.schema, c.subject, ps[i]) && rs[i].value == vs[i] && rs[i].q == qs[i];
    rs
  }

  lemma ReadEachCons(reserved: set<string>, c: Context, row: Row, ps: seq<Predicate>, qs: seq<SqlPredicate>,
          vs: seq<bool>)
    requires |ps| == |qs| == |vs| && ps != []
    requires Reads(Reading(qs[0], Readable(reserved, c.schema, c.subject, ps[0]), vs[0]), reserved, row)
    requires ReadEach(Readings(reserved, c, ps[1..], qs[1..], vs[1..]), reserved, row)
    ensures ReadEach(Readings(reserved, c, ps, qs, vs), reserved, row)
  {
    var rest := Readings(reserved, c, ps[1..], qs[1..], vs[1..]);
    var all := Readings(reserved, c, ps, qs, vs);
    forall i | 0 <= i < |ps|
      ensures Reads(all[i], reserved, row)
    {
      if i > 0 { assert all[i] == rest[i - 1]; }
    }
  }

  /** What an AND or OR comes down to in its children, compiled, evaluated and read. */
  lemma BooleanUnfolds(reserved: set<string>, c: Context, p: Predicate, cs: seq<Predicate>, conjunction: bool,
          depth: nat, nodes: nat)
    requires p == if conjunction then And(cs) else Or(cs)
    requires Compile(c.schema, c.subject, p, depth, nodes).result.Ok?
    ensures |cs| >= 2 && CompileEach(c.schema, c.subject, cs, depth + 1, nodes + 1).result.Ok?
    ensures var q := CompileEach(c.schema, c.subject, cs, depth + 1, nodes + 1);
            Compile(c.schema, c.subject, p, depth, nodes)
                == Counted(Ok(Joined(q.result.value, Separator(conjunction))), q.nodes)
    ensures var v := EvalEach(c, cs, depth + 1, nodes + 1);
            v.result.Ok? ==>
              Eval(c, p, depth, nodes)
                  == Counted(Ok(if conjunction then false !in v.result.value else true in v.result.value), v.nodes)
    ensures Readable(reserved, c.schema, c.subject, p) == EachReadable(reserved, c.schema, c.subject, cs)
  {}

  /** Whatever compiles evaluates, with the same node count, and the clause reads as that value. */
  lemma {:induction false} CompiledReads(reserved: set<string>, c: Context, row: Row, p: Predicate, depth: nat,
          nodes: nat)
    requires Describes(c, row)
    requires Compile(c.schema, c.subject, p, depth, nodes).result.Ok?
    ensures var q := Compile(c.schema, c.subject, p, depth, nodes);
            var v := Eval(c, p, depth, nodes);
            && v.result.Ok? && v.nodes == q.nodes
            && Reads(Reading(q.result.value, Readable(reserved, c.schema, c.subject, p), v.result.value), reserved, row)
    decreases p, 1
  {
    match p {
      case Empty => TrueReads(reserved, row);
      case Equal(l, r) => CompiledEqualReads(reserved, c, row, l, r);
      case In(l, r) => CompiledInReads(reserved, c, row, l, r);
      case And(cs) =>
        BooleanUnfolds(reserved, c, p, cs, true, depth, nodes);
        BooleanReads(reserved, c, row, cs, true, depth + 1, nodes + 1);
      case Or(cs) =>
        BooleanUnfolds(reserved, c, p, cs, false, depth, nodes);
        BooleanReads(reserved, c, row, cs, false, depth + 1, nodes + 1);
      case Not(cs) => NotReads(reserved, c, row, cs, depth + 1, nodes + 1);
      case UnknownKind =>
    }
  }

  lemma {:induction false} NotReads(reserved: set<string>, c: Context, row: Row, cs: seq<Predicate>, depth: nat,
          nodes: nat)
    requires Describes(c, row) && |cs| == 1
    requires Compile(c.schema, c.subject, cs[0], depth, nodes).result.Ok?
    ensures var q := Compile(c.schema, c.subject, cs[0], depth, nodes);
            var v := Eval(c, cs[0], depth, nodes);
            && v.result.Ok? && v.nodes == q.nodes
            && Reads(Reading(Negated(q.result.value), EachReadable(reserved, c.schema, c.subject, cs), !v.result.value),
               reserved, row)
    decreases cs, 1
  {
    CompiledReads(reserved, c, row, cs[0], depth, nodes);
    var q := Compile(c.schema, c.subject, cs[0], depth, nodes).result.value;
    var v := Eval(c, cs[0], depth, nodes).result.value;
    NegatedReads(Reading(q, Readable(reserved, c.schema, c.subject, cs[0]), v), reserved, row);
    assert cs[0] in cs && forall x | x in cs :: x == cs[0];
  }

  lemma TrueReads(reserved: set<string>, row: Row)
    ensures Reads(Reading(TRUE_CLAUSE, true, true), reserved, row)
    ensures Reads(Reading(FALSE_CLAUSE, true, false), reserved, row)
  {
    ConstantReads("1", reserved, row);
    ConstantReads("0", reserved, row);
    assert "(1 = " + "1" + ")" == "(1 = 1)";
    assert "(1 = " + "0" + ")" == "(1 = 0)";
  }

  lemma CompiledEqualReads(reserved: set<string>, c: Context, row: Row, l: Operand, r: Operand)
    requires Describes(c, row)
    requires CompileEqual(c.schema, c.subject, l, r).Ok?
    ensures var v := EvalEqual(c, l, r);
            && v.Ok?
            && Reads(Reading(CompileEqual(c.schema, c.subject, l, r).value, IsColumnName(reserved, c.schema[l.name]),
               v.value), reserved, row)
  {
    EqualReads(c.schema[l.name], RightValue(c, r).value.text, reserved, row);
  }

  lemma CompiledInReads(reserved: set<string>, c: Context, row: Row, l: Operand, r: Operand)
    requires Describes(c, row)
    requires CompileIn(c.schema, c.subject, l, r).Ok?
    ensures var v := EvalIn(c, l, r);
            && v.Ok?
            && Reads(Reading(CompileIn(c.schema, c.subject, l, r).value,
               Readable(reserved, c.schema, c.subject, In(l, r)), v.value), reserved, row)
  {
    var values := c.subject[r.name].texts;
    if values == [] {
      TrueReads(reserved, row);
    } else {
      InReads(c.schema[l.name], values, reserved, row);
    }
  }

  lemma {:induction false} BooleanReads(reserved: set<string>, c: Context, row: Row, cs: seq<Predicate>,
          conjunction: bool, depth: nat, nodes: nat)
    requires Describes(c, row) && |cs| >= 2
    requires CompileEach(c.schema, c.subject, cs, depth, nodes).result.Ok?
    ensures var q := CompileEach(c.schema, c.subject, cs, depth, nodes);
            var v := EvalEach(c, cs, depth, nodes);
            && v.result.Ok? && v.nodes == q.nodes
            && Reads(Reading(Joined(q.result.value, Separator(conjunction)),
                             EachReadable(reserved, c.schema, c.subject, cs),
                             if conjunction then false !in v.result.value else true in v.result.value), reserved, row)
    decreases cs, 1
  {
    EachReads(reserved, c, row, cs, depth, nodes);
    var q := CompileEach(c.schema, c.subject, cs, depth, nodes);
    var v := EvalEach(c, cs, depth, nodes);
    JoinedReads(Readings(reserved, c, cs, q.result.value, v.result.value), conjunction, reserved, row);
  }

  lemma {:induction false} EachReads(reserved: set<string>, c: Context, row: Row, ps: seq<Predicate>, depth: nat,
          nodes: nat)
    requires Describes(c, row)
    requires CompileEach(c.schema, c.subject, ps, depth, nodes).result.Ok?
    ensures var q := CompileEach(c.schema, c.subject, ps, depth, nodes);
            var v := EvalEach(c, ps, depth, nodes);
            && v.result.Ok? && v.nodes == q.nodes
            && ReadEach(Readings(reserved, c, ps, q.result.value, v.result.value), reserved, row)
    decreases ps, 0
  {
    if ps == [] {
    } else {
      CompiledReads(reserved, c, row, ps[0], depth, nodes);
      EachReads(reserved, c, row, ps[1..], depth, Compile(c.schema, c.subject, ps[0], depth, nodes).nodes);
      var first := Eval(c, ps[0], depth, nodes);
      var q := CompileEach(c.schema, c.subject, ps, depth, nodes).result.value;
      var v := EvalEach(c, ps, depth, nodes).result.value;
      assert q[1..] == CompileEach(c.schema, c.subject, ps[1..], depth, first.nodes).result.value;
      assert v[1..] == EvalEach(c, ps[1..], depth, first.nodes).result.value;
      ReadEachCons(reserved, c, row, ps, q, v);
    }
  }

  // ---- Unions and the whole policy list -------------------------------------

  /** The predicate evaluates without error, to true. */
  predicate Matched(c: Context, p: Predicate) { Eval(c, p, 1, 0).result == Ok(true) }

  function Values(c: Context, ps: seq<Predicate>): (vs: seq<bool>)
    ensures |vs| == |ps| && forall i | 0 <= i < |ps| :: vs[i] == Matched(c, ps[i])
  {
    seq(|ps|, i requires 0 <= i < |ps| => Matched(c, ps[i]))
  }

  predicate AllEvaluate(c: Context, ps: seq<Predicate>) {
    forall p | p in ps :: Eval(c, p, 1, 0).result.Ok?
  }

  predicate SomeMatched(c: Context, ps: seq<Predicate>) {
    exists p | p in ps :: Matched(c, p)
  }

  lemma {:induction false} AloneReads(reserved: set<string>, c: Context, row: Row, ps: seq<Predicate>)
    requires Describes(c, row) && CompileAlone(c.schema, c.subject, ps).Ok?
    ensures AllEvaluate(c, ps)
    ensures ReadEach(Readings(reserved, c, ps, CompileAlone(c.schema, c.subject, ps).value, Values(c, ps)),
        reserved, row)
    decreases |ps|
  {
    if ps == [] {
    } else {
      CompiledReads(reserved, c, row, ps[0], 1, 0);
      AloneReads(reserved, c, row, ps[1..]);
      var q := CompileAlone(c.schema, c.subject, ps).value;
      assert q[1..] == CompileAlone(c.schema, c.subject, ps[1..]).value;
      assert Values(c, ps)[1..] == Values(c, ps[1..]);
      ReadEachCons(reserved, c, row, ps, q, Values(c, ps));
      assert forall p | p in ps :: p == ps[0] || p in ps[1..];
    }
  }

  lemma UnionReads(reserved: set<string>, c: Context, row: Row, ps: seq<Predicate>)
    requires Describes(c, row) && CompileAlone(c.schema, c.subject, ps).Ok? && ps != []
    ensures AllEvaluate(c, ps)
    ensures Reads(Reading(Union(CompileAlone(c.schema, c.subject, ps).value),
        EachReadable(reserved, c.schema, c.subject, ps), SomeMatched(c, ps)), reserved, row)
  {
    AloneReads(reserved, c, row, ps);
    var q := CompileAlone(c.schema, c.subject, ps).value;
    var rs := Readings(reserved, c, ps, q, Values(c, ps));
    assert SomeMatched(c, ps) == (true in Values(c, ps)) by {
      if p :| p in ps && Matched(c, p) {
        var i :| 0 <= i < |ps| && ps[i] == p;
        assert Values(c, ps)[i];
      }
    }
    if |q| == 1 {
      assert Reads(rs[0], reserved, row);
      assert rs[0] == Reading(q[0], Readable(reserved, c.schema, c.subject, ps[0]), Matched(c, ps[0]));
    } else {
      JoinedReads(rs, false, reserved, row);
    }
  }

  /** Policies minus the denies that also carry a proposed condition. */
  function WithoutProposedDenies(policies: seq<PolicyScope>): seq<PolicyScope> {
    if policies == [] then []
    else
      (if policies[0].effect.Deny? && policies[0].hasProposed then [] else [policies[0]])
      + WithoutProposedDenies(policies[1..])
  }

  lemma {:induction false} EvaluateKept(c: Context, policies: seq<PolicyScope>)
    requires KnownEffects(policies)
    ensures Evaluate(c, WithoutProposedDenies(policies), false).Ok? <==>
        AllEvaluate(c, Allows(policies) + Denies(policies))
    ensures AllEvaluate(c, Allows(policies) + Denies(policies)) ==>
              Evaluate(c, WithoutProposedDenies(policies), false)
              == Ok(Verdict(SomeMatched(c, Allows(policies)), SomeMatched(c, Denies(policies))))
    decreases |policies|
  {
    if policies == [] {
    } else {
      var rest := policies[1..];
      EvaluateKept(c, rest);
      var kept := WithoutProposedDenies(policies);
      var a, d := Allows(policies), Denies(policies);
      if policies[0].effect.Allow? {
        assert kept[1..] == WithoutProposedDenies(rest);
        assert a == [policies[0].current] + Allows(rest) && d == Denies(rest);
        assert policies[0].current in a;
      } else if !policies[0].hasProposed {
        assert kept[1..] == WithoutProposedDenies(rest);
        assert d == [policies[0].current] + Denies(rest) && a == Allows(rest);
        assert policies[0].current in d;
      } else {
        assert kept == WithoutProposedDenies(rest) && a == Allows(rest) && d == Denies(rest);
      }
    }
  }

  /** The columns the final clause names: none at all when nothing is allowed. */
  predicate ScopeReadable(reserved: set<string>, schema: Schema, subject: Attributes, policies: seq<PolicyScope>) {
    Allows(policies) == [] || EachReadable(reserved, schema, subject, Allows(policies) + Denies(policies))
  }

  lemma ScopeReads(reserved: set<string>, c: Context, row: Row, policies: seq<PolicyScope>)
    requires Describes(c, row) && CompilePolicies(c.schema, c.subject, policies).Ok?
    ensures AllEvaluate(c, Allows(policies) + Denies(policies))
    ensures var r := Reading(CompilePolicies(c.schema, c.subject, policies).value,
                             ScopeReadable(reserved, c.schema, c.subject, policies),
                             SomeMatched(c, Allows(policies)) && !SomeMatched(c, Denies(policies)));
            Reads(r, reserved, row)
  {
    var a, d := Allows(policies), Denies(policies);
    AloneReads(reserved, c, row, d);
    if a == [] {
      TrueReads(reserved, row);
    } else {
      UnionReads(reserved, c, row, a);
      if d != [] {
        UnionReads(reserved, c, row, d);
        var allow :=
            Reading(Union(CompileAlone(c.schema, c.subject, a).value), EachReadable(reserved, c.schema, c.subject, a),
                SomeMatched(c, a));
        var deny :=
            Reading(Union(CompileAlone(c.schema, c.subject, d).value), EachReadable(reserved, c.schema, c.subject, d),
                SomeMatched(c, d));
        DifferenceReads(allow, deny, reserved, row);
      }
    }
  }

  lemma DifferenceReads(allow: Reading, deny: Reading, reserved: set<string>, row: Row)
    requires Reads(allow, reserved, row) && Reads(deny, reserved, row)
    ensures Reads(Reading(Joined([allow.q, Negated(deny.q)], " AND "), allow.readable && deny.readable,
        allow.value && !deny.value), reserved, row)
  {
    NegatedReads(deny, reserved, row);
    var rs := [allow, Reading(Negated(deny.q), deny.readable, !deny.value)];
    JoinedReads(rs, true, reserved, row);
    assert Queries(rs) == [allow.q, Negated(deny.q)];
    assert AllReadable(rs) == (rs[0].readable && rs[1].readable);
    assert EveryValue(rs) == (rs[0].value && rs[1].value);
  }

  /** A clause that is the whole WHERE condition. */
  lemma WholeClause(r: Reading, reserved: set<string>, row: Row)
    requires Reads(r, reserved, row)
    ensures ParseWhere(reserved, r.q.clause).Some? == r.readable
    ensures r.readable ==> Holds(ParseWhere(reserved, r.q.clause).value, row, r.q.args) == r.value
    ensures Marks(r.q.clause) == |r.q.args|
  {
    assert Opened(r);
    assert Binds(r.q, 0, r.q.args) by { assert r.q.args[0..|r.q.args|] == r.q.args; }
    assert ReadsAt(r, reserved, row, 0, r.q.args, []);
    var toks := Lex(r.q.clause, 0).value;
    assert toks + [] == toks;
    NotIsPrimary(reserved, toks);
    SingleNot(reserved, toks);
  }

  /**
   Compiler correctness.  Whenever compilation succeeds: there are as many
   placeholders as arguments; a database parses the clause exactly when no column
   in it is a reserved word; and then the clause is true of a row exactly when the
   evaluator allows that row under the policies without proposed denies.
   */
  lemma CompileCorrect(reserved: set<string>, c: Context, row: Row, policies: seq<PolicyScope>)
    requires Describes(c, row) && CompilePolicies(c.schema, c.subject, policies).Ok?
    ensures var q := CompilePolicies(c.schema, c.subject, policies).value;
            var tree := ParseWhere(reserved, q.clause);
            && Marks(q.clause) == |q.args|
            && (tree.Some? <==> ScopeReadable(reserved, c.schema, c.subject, policies))
            && (tree.Some? ==> Decide(c, WithoutProposedDenies(policies), false) == Ok(Holds(tree.value, row, q.args)))
  {
    ScopeReads(reserved, c, row, policies);
    EvaluateKept(c, policies);
    var r := Reading(CompilePolicies(c.schema, c.subject, policies).value,
                     ScopeReadable(reserved, c.schema, c.subject, policies),
                     SomeMatched(c, Allows(policies)) && !SomeMatched(c, Denies(policies)));
    WholeClause(r, reserved, row);
  }

  /**
   A column pattern that admits SQL's own words: here the schema is valid and the policy
   compiles, yet no database can parse the clause.
   */
  lemma ReservedColumnUnparsed(reserved: set<string>) returns (schema: Schema, policies: seq<PolicyScope>)
    ensures ValidSchema(schema) && CompilePolicies(schema, map[], policies).Ok?
    ensures ParseWhere(reserved, CompilePolicies(schema, map[], policies).value.clause).None?
  {
    schema := map["owner" := "not"];
    var p := Equal(ResourceField("owner"), Literal(Text("a")));
    policies := [PolicyScope(Allow, p, Empty, false)];
    var c := Context(schema, map[], map["owner" := Text("x")], map[]);
    assert Compile(schema, map[], p, 1, 0).result.Ok?;
    assert Allows(policies) == [p] && Denies(policies) == [] by { assert policies[1..] == []; }
    assert CompileAlone(schema, map[], [p]).Ok? by { assert [p][1..] == []; }
    NotIsReserved(reserved);
    assert !EachReadable(reserved, schema, map[], [p] + []) by {
      assert [p] + [] == [p];
      assert [p][0] == p && !Readable(reserved, schema, map[], p);
    }
    CompileCorrect(reserved, c, map["not" := "x"], policies);
  }

  lemma NotIsReserved(reserved: set<string>)
    ensures !IsColumnName(reserved, "not")
  {
    assert FirstPart("not") == "not";
  }
}
