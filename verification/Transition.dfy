/**
 The two uses of one policy list: selecting rows by SQL, and then deciding a state
 change on a selected row.  Selection never loses a row the decision would accept.
 */
module Transition {
  import opened Wrappers
  import opened SqlFragment
  import opened PredicateIr
  import opened Evaluator
  import opened Compiler
  import opened ScopeCorrectness

  /** No operand of the current-row condition is a proposed field. */
  predicate CurrentOnly(p: Predicate)
    decreases p, 1
  {
    match p
    case Equal(l, _) => !l.ProposedField?
    case In(l, _) => !l.ProposedField?
    case And(cs) => AllCurrentOnly(cs)
    case Or(cs) => AllCurrentOnly(cs)
    case Not(cs) => AllCurrentOnly(cs)
    case _ => true
  }

  predicate AllCurrentOnly(ps: seq<Predicate>)
    decreases ps, 0
  {
    ps == [] || (CurrentOnly(ps[0]) && AllCurrentOnly(ps[1..]))
  }

  /** On a row with all fields present, what evaluates also compiles, with the same node count. */
  lemma {:induction false} EvaluatesCompiles(c: Context, row: Row, p: Predicate, depth: nat, nodes: nat)
    requires Describes(c, row) && CurrentOnly(p)
    requires Eval(c, p, depth, nodes).result.Ok?
    ensures var q := Compile(c.schema, c.subject, p, depth, nodes);
            q.result.Ok? && q.nodes == Eval(c, p, depth, nodes).nodes
    decreases p, 1
  {
    match p {
      case And(cs) => EachEvaluatesCompiles(c, row, cs, depth + 1, nodes + 1);
      case Or(cs) => EachEvaluatesCompiles(c, row, cs, depth + 1, nodes + 1);
      case Not(cs) => EvaluatesCompiles(c, row, cs[0], depth + 1, nodes + 1);
      case _ =>
    }
  }

  lemma {:induction false} EachEvaluatesCompiles(c: Context, row: Row, ps: seq<Predicate>, depth: nat, nodes: nat)
    requires Describes(c, row) && AllCurrentOnly(ps)
    requires EvalEach(c, ps, depth, nodes).result.Ok?
    ensures var q := CompileEach(c.schema, c.subject, ps, depth, nodes);
            q.result.Ok? && q.nodes == EvalEach(c, ps, depth, nodes).nodes
    decreases ps, 0
  {
    if ps == [] {
    } else {
      EvaluatesCompiles(c, row, ps[0], depth, nodes);
      EachEvaluatesCompiles(c, row, ps[1..], depth, Eval(c, ps[0], depth, nodes).nodes);
    }
  }

  /** What compiling a policy guarantees: only current fields in the condition, no proposed part unless declared. */
  predicate Linked(s: PolicyScope) {
    CurrentOnly(s.current) && (!s.hasProposed ==> s.proposed == Empty)
  }

  predicate AllLinked(policies: seq<PolicyScope>) {
    forall i | 0 <= i < |policies| :: Linked(policies[i])
  }

  lemma {:induction false} AloneCompiles(c: Context, row: Row, ps: seq<Predicate>)
    requires Describes(c, row) && AllEvaluate(c, ps) && forall p | p in ps :: CurrentOnly(p)
    ensures CompileAlone(c.schema, c.subject, ps).Ok?
    decreases |ps|
  {
    if ps == [] {
    } else {
      assert ps[0] in ps;
      EvaluatesCompiles(c, row, ps[0], 1, 0);
      AloneCompiles(c, row, ps[1..]);
    }
  }

  lemma {:induction false} ScopesCurrentOnly(policies: seq<PolicyScope>)
    requires AllLinked(policies)
    ensures forall p | p in Allows(policies) :: CurrentOnly(p)
    ensures forall p | p in Denies(policies) :: CurrentOnly(p)
    decreases |policies|
  {
    if policies == [] {
    } else {
      assert Linked(policies[0]);
      ScopesCurrentOnly(policies[1..]);
    }
  }

  /** An evaluation of all policies, with or without proposed parts, evaluates every condition the SQL uses. */
  lemma {:induction false} EvaluateCovers(c: Context, policies: seq<PolicyScope>, includeProposed: bool)
    requires Evaluate(c, policies, includeProposed).Ok?
    ensures KnownEffects(policies) && AllEvaluate(c, Allows(policies)) && AllEvaluate(c, Denies(policies))
    decreases |policies|
  {
    if policies == [] {
    } else {
      EvaluateCovers(c, policies[1..], includeProposed);
      assert forall i | 0 < i < |policies| :: policies[i] == policies[1..][i - 1];
    }
  }

  /** An accepting transition matches some allow's condition and no condition of an unconditional deny. */
  lemma {:induction false} AcceptedMatches(c: Context, policies: seq<PolicyScope>)
    requires AllLinked(policies) && Evaluate(c, policies, true).Ok?
    ensures var v := Evaluate(c, policies, true).value;
            && (v.allowed ==> SomeMatched(c, Allows(policies)))
            && (!v.denied ==> !SomeMatched(c, Denies(policies)))
    decreases |policies|
  {
    if policies == [] {
    } else {
      assert Linked(policies[0]);
      AcceptedMatches(c, policies[1..]);
      var a, d := Allows(policies), Denies(policies);
      if policies[0].effect.Allow? {
        assert a == [policies[0].current] + Allows(policies[1..]);
        assert policies[0].current in a;
      } else if !policies[0].hasProposed {
        assert d == [policies[0].current] + Denies(policies[1..]);
      }
    }
  }

  /**
   Every row on which a transition is accepted is selected by the compiled scope:
   the scope compiles, and where its columns can be named it is true of the row.
   */
  lemma TransitionIsSelected(reserved: set<string>, c: Context, row: Row, policies: seq<PolicyScope>)
    requires Describes(c, row) && AllLinked(policies)
    requires Decide(c, policies, true) == Ok(true)
    ensures var q := CompilePolicies(c.schema, c.subject, policies);
            && q.Ok?
            && var tree := ParseWhere(reserved, q.value.clause);
               tree.Some? ==> Holds(tree.value, row, q.value.args)
  {
    EvaluateCovers(c, policies, true);
    ScopesCurrentOnly(policies);
    AloneCompiles(c, row, Allows(policies));
    AloneCompiles(c, row, Denies(policies));
    AcceptedMatches(c, policies);
    CompileCorrect(reserved, c, row, policies);
    EvaluateKept(c, policies);
  }

  predicate NoneProposed(policies: seq<PolicyScope>) {
    forall i | 0 <= i < |policies| :: !policies[i].hasProposed
  }

  lemma {:induction false} NoneProposedSame(c: Context, policies: seq<PolicyScope>)
    requires AllLinked(policies) && NoneProposed(policies)
    ensures WithoutProposedDenies(policies) == policies
    ensures Evaluate(c, policies, true) == Evaluate(c, policies, false)
    decreases |policies|
  {
    if policies == [] {
    } else {
      assert Linked(policies[0]) && !policies[0].hasProposed;
      NoneProposedSame(c, policies[1..]);
      assert [policies[0]] + policies[1..] == policies;
    }
  }

  /**
   With no proposed conditions the two uses agree completely: one fails exactly when
   the other does, and a row is selected exactly when the transition is accepted.
   */
  lemma TransitionIsSelection(reserved: set<string>, c: Context, row: Row, policies: seq<PolicyScope>)
    requires Describes(c, row) && AllLinked(policies) && NoneProposed(policies)
    ensures var q := CompilePolicies(c.schema, c.subject, policies);
            var d := Decide(c, policies, true);
            && (q.Ok? <==> d.Ok?)
            && (q.Ok? ==>
                 var tree := ParseWhere(reserved, q.value.clause);
                 tree.Some? ==> Ok(Holds(tree.value, row, q.value.args)) == d)
  {
    NoneProposedSame(c, policies);
    if CompilePolicies(c.schema, c.subject, policies).Ok? {
      ScopeReads(reserved, c, row, policies);
      EvaluateKept(c, policies);
      CompileCorrect(reserved, c, row, policies);
    }
    if Decide(c, policies, true).Ok? {
      EvaluateCovers(c, policies, true);
      ScopesCurrentOnly(policies);
      AloneCompiles(c, row, Allows(policies));
      AloneCompiles(c, row, Denies(policies));
    }
  }

  // ---- Current rows only ----------------------------------------------------

  /** The conditions of denies that also have a proposed part; selection leaves these denies out. */
  function ProposedDenies(policies: seq<PolicyScope>): seq<Predicate> {
    if policies == [] then []
    else
      (if policies[0].effect.Deny? && policies[0].hasProposed then [policies[0].current] else [])
      + ProposedDenies(policies[1..])
  }

  /** A decision on the current row alone needs every condition, and counts every deny. */
  lemma {:induction false} CurrentDecides(c: Context, policies: seq<PolicyScope>)
    requires KnownEffects(policies)
    ensures Evaluate(c, policies, false).Ok? <==>
            AllEvaluate(c, Allows(policies)) && AllEvaluate(c, Denies(policies))
                && AllEvaluate(c, ProposedDenies(policies))
    ensures Evaluate(c, policies, false).Ok? ==>
              Evaluate(c, policies, false)
              == Ok(Verdict(SomeMatched(c, Allows(policies)),
                            SomeMatched(c, Denies(policies)) || SomeMatched(c, ProposedDenies(policies))))
    decreases |policies|
  {
    if policies == [] {
    } else {
      var first, rest := policies[0], policies[1..];
      var kept, left := first.effect.Deny? && !first.hasProposed, first.effect.Deny? && first.hasProposed;
      CurrentDecides(c, rest);
      assert Allows(policies) == (if first.effect.Allow? then [first.current] else []) + Allows(rest);
      assert Denies(policies) == (if kept then [first.current] else []) + Denies(rest);
      assert ProposedDenies(policies) == (if left then [first.current] else []) + ProposedDenies(rest);
      OneMore(c, first.effect.Allow?, first.current, Allows(rest));
      OneMore(c, kept, first.current, Denies(rest));
      OneMore(c, left, first.current, ProposedDenies(rest));
    }
  }

  lemma OneMore(c: Context, more: bool, p: Predicate, ps: seq<Predicate>)
    ensures var all := (if more then [p] else []) + ps;
            && (AllEvaluate(c, all) <==> (more ==> Eval(c, p, 1, 0).result.Ok?) && AllEvaluate(c, ps))
            && (SomeMatched(c, all) <==> (more && Matched(c, p)) || SomeMatched(c, ps))
  {
    SplitOne(c, if more then [p] else [], ps);
    if more { assert p in [p]; }
  }

  lemma SplitOne(c: Context, a: seq<Predicate>, b: seq<Predicate>)
    ensures AllEvaluate(c, a + b) <==> AllEvaluate(c, a) && AllEvaluate(c, b)
    ensures SomeMatched(c, a + b) <==> SomeMatched(c, a) || SomeMatched(c, b)
  {
    assert forall p :: p in a + b <==> p in a || p in b;
  }

  /**
   The decision on a current row alone against selection.  It succeeds exactly when the
   scope compiles and the conditions of the denies that selection leaves out evaluate too.
   Then it allows only selected rows, and the two agree exactly when the row is not
   selected or none of those denies matches it.
   */
  lemma CurrentAgainstSelection(reserved: set<string>, c: Context, row: Row, policies: seq<PolicyScope>)
    requires Describes(c, row) && AllLinked(policies)
    ensures var q := CompilePolicies(c.schema, c.subject, policies);
            var d := Decide(c, policies, false);
            && (d.Ok? <==> q.Ok? && AllEvaluate(c, ProposedDenies(policies)))
            && (d.Ok? ==>
                  var tree := ParseWhere(reserved, q.value.clause);
                  tree.Some? ==>
                    var selected := Holds(tree.value, row, q.value.args);
                    && (d.value ==> selected)
                    && (d.value == selected <==> !selected || !SomeMatched(c, ProposedDenies(policies))))
  {
    if Decide(c, policies, false).Ok? {
      EvaluateCovers(c, policies, false);
      ScopesCurrentOnly(policies);
      AloneCompiles(c, row, Allows(policies));
      AloneCompiles(c, row, Denies(policies));
    }
    if CompilePolicies(c.schema, c.subject, policies).Ok? {
      ScopeReads(reserved, c, row, policies);
      SplitOne(c, Allows(policies), Denies(policies));
      CurrentDecides(c, policies);
      EvaluateKept(c, policies);
      CompileCorrect(reserved, c, row, policies);
    }
  }
}
