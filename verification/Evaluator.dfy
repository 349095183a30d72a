/**
 The in-memory meaning of the IR, internal/datapermission/evaluator.go.
 The functions are the specification; the methods below them run the source's
 loops over a shared node counter and compute the same answers.
 */
module Evaluator {
  import opened Wrappers
  import opened PredicateIr

  /** Trusted values: the subject's, the stored row's and the proposed object's. */
  datatype Context = Context(schema: Schema, subject: Attributes, resource: Attributes, proposed: Attributes)

  function ObjectValue(c: Context, o: Operand): Result<Value, Error> {
    if o.ResourceField? then
      if o.name !in c.schema then Err(ResourceFieldUnknown)
      else if o.name !in c.resource then Err(ResourceAttributeMissing)
      else Ok(c.resource[o.name])
    else if o.ProposedField? then
      if o.name !in c.schema then Err(ResourceFieldUnknown)
      else if o.name !in c.proposed then Err(ResourceAttributeMissing)
      else Ok(c.proposed[o.name])
    else Err(InvalidPredicate)
  }

  function RightValue(c: Context, o: Operand): Result<Value, Error> {
    match o
    case SubjectField(n) => if n in c.subject then Ok(c.subject[n]) else Err(SubjectAttributeMissing)
    case Literal(v) => Ok(v)
    case _ => Err(InvalidPredicate)
  }

  /** The static check both back ends make on a subject operand before using it. */
  function SubjectOperandError(o: Operand, wanted: SubjectType): Option<Error> {
    if !o.SubjectField? then None
    else if SubjectFieldType(o.name).None? then Some(SubjectAttributeUnknown)
    else if SubjectFieldType(o.name).value != wanted then Some(TypeMismatch)
    else None
  }

  function EvalEqual(c: Context, left: Operand, right: Operand): Result<bool, Error> {
    if SubjectOperandError(right, TextType).Some? then Err(SubjectOperandError(right, TextType).value)
    else
      var l := ObjectValue(c, left);
      if l.Err? then Err(l.error)
      else
        var r := RightValue(c, right);
        if r.Err? then Err(r.error)
        else if !l.value.Text? || !r.value.Text? then Err(TypeMismatch)
        else Ok(l.value.text == r.value.text)
  }

  function EvalIn(c: Context, left: Operand, right: Operand): Result<bool, Error> {
    if !(left.ResourceField? || left.ProposedField?) || !right.SubjectField? then Err(InvalidPredicate)
    else if SubjectOperandError(right, TextListType).Some? then Err(SubjectOperandError(right, TextListType).value)
    else
      var l := ObjectValue(c, left);
      if l.Err? then Err(l.error)
      else if !l.value.Text? then Err(TypeMismatch)
      else if right.name !in c.subject then Err(SubjectAttributeMissing)
      else if !c.subject[right.name].TextList? then Err(TypeMismatch)
      else Ok(l.value.text in c.subject[right.name].texts)
  }

  /** A result together with the node counter after it. */
  datatype Counted<T> = Counted(result: Result<T, Error>, nodes: nat)

  function Eval(c: Context, p: Predicate, depth: nat, nodes: nat): Counted<bool>
    decreases p, 1
  {
    var n := nodes + 1;
    if depth > MAX_DEPTH || n > MAX_NODES then Counted(Err(TooComplex), n)
    else match p
      case Empty => Counted(Ok(true), n)
      case Equal(l, r) => Counted(EvalEqual(c, l, r), n)
      case In(l, r) => Counted(EvalIn(c, l, r), n)
      case And(cs) =>
        if |cs| < 2 then Counted(Err(InvalidPredicate), n)
        else
          var v := EvalEach(c, cs, depth + 1, n);
          Counted(if v.result.Err? then Err(v.result.error) else Ok(false !in v.result.value), v.nodes)
      case Or(cs) =>
        if |cs| < 2 then Counted(Err(InvalidPredicate), n)
        else
          var v := EvalEach(c, cs, depth + 1, n);
          Counted(if v.result.Err? then Err(v.result.error) else Ok(true in v.result.value), v.nodes)
      case Not(cs) =>
        if |cs| != 1 then Counted(Err(InvalidPredicate), n)
        else
          var v := Eval(c, cs[0], depth + 1, n);
          Counted(if v.result.Err? then Err(v.result.error) else Ok(!v.result.value), v.nodes)
      case UnknownKind => Counted(Err(InvalidPredicate), n)
  }

  /** Every child, left to right, stopping only at an error: no short circuit. */
  function EvalEach(c: Context, ps: seq<Predicate>, depth: nat, nodes: nat): (r: Counted<seq<bool>>)
    ensures r.result.Ok? ==> |r.result.value| == |ps|
    decreases ps, 0
  {
    if ps == [] then Counted(Ok([]), nodes)
    else
      var first := Eval(c, ps[0], depth, nodes);
      if first.result.Err? then Counted(Err(first.result.error), first.nodes)
      else
        var rest := EvalEach(c, ps[1..], depth, first.nodes);
        if rest.result.Err? then rest
        else Counted(Ok([first.result.value] + rest.result.value), rest.nodes)
  }

  function Matches(c: Context, s: PolicyScope, includeProposed: bool): Result<bool, Error> {
    var current := Eval(c, s.current, 1, 0).result;
    if current.Err? || !current.value || !includeProposed then current
    else Eval(c, s.proposed, 1, 0).result
  }

  /** Which effects have a matching policy. */
  datatype Verdict = Verdict(allowed: bool, denied: bool)

  function Evaluate(c: Context, policies: seq<PolicyScope>, includeProposed: bool): Result<Verdict, Error> {
    if policies == [] then Ok(Verdict(false, false))
    else if policies[0].effect.UnknownEffect? then Err(InvalidPredicate)
    else
      var m := Matches(c, policies[0], includeProposed);
      if m.Err? then Err(m.error)
      else
        var rest := Evaluate(c, policies[1..], includeProposed);
        if rest.Err? then rest
        else Ok(Verdict(rest.value.allowed || (m.value && policies[0].effect.Allow?),
                        rest.value.denied || (m.value && policies[0].effect.Deny?)))
  }

  /** `Evaluate` and `EvaluateTransition` of the source: an allow matches and no deny does. */
  function Decide(c: Context, policies: seq<PolicyScope>, includeProposed: bool): Result<bool, Error> {
    var v := Evaluate(c, policies, includeProposed);
    if v.Err? then Err(v.error) else Ok(v.value.allowed && !v.value.denied)
  }

  // ---- The source's loops ---------------------------------------------------

  class NodeCounter {
    var count: nat
    constructor () ensures count == 0 { count := 0; }
  }

  method EvaluatePredicate(c: Context, p: Predicate, depth: nat, nodes: NodeCounter) returns (r: Result<bool, Error>)
    modifies nodes
    ensures Counted(r, nodes.count) == Eval(c, p, depth, old(nodes.count))
    decreases p
  {
    nodes.count := nodes.count + 1;
    if depth > MAX_DEPTH || nodes.count > MAX_NODES {
      return Err(TooComplex);
    }
    match p {
      case Empty => r := Ok(true);
      case Equal(left, right) => r := EvalEqual(c, left, right);
      case In(left, right) => r := EvalIn(c, left, right);
      case And(children) => r := EvaluateAnd(c, children, depth, nodes);
      case Or(children) => r := EvaluateOr(c, children, depth, nodes);
      case Not(children) =>
        if |children| != 1 { return Err(InvalidPredicate); }
        var v := EvaluatePredicate(c, children[0], depth + 1, nodes);
        r := if v.Err? then v else Ok(!v.value);
      case UnknownKind => r := Err(InvalidPredicate);
    }
  }

  method EvaluateAnd(c: Context, children: seq<Predicate>, depth: nat, nodes: NodeCounter)
    returns (r: Result<bool, Error>)
    modifies nodes
    ensures |children| < 2 ==> r == Err(InvalidPredicate) && nodes.count == old(nodes.count)
    ensures |children| >= 2 ==>
              var v := EvalEach(c, children, depth + 1, old(nodes.count));
              && nodes.count == v.nodes
              && r == if v.result.Err? then Err(v.result.error) else Ok(false !in v.result.value)
    decreases children
  {
    if |children| < 2 { return Err(InvalidPredicate); }
    var all := true;
    ghost var start, seen := nodes.count, [];
    for i := 0 to |children|
      invariant |seen| == i && all == (false !in seen)
      invariant EvalEach(c, children[..i], depth + 1, start) == Counted(Ok(seen), nodes.count)
    {
      EvalEachStep(c, children, i, depth + 1, start);
      var v := EvaluatePredicate(c, children[i], depth + 1, nodes);
      if v.Err? { return v; }
      if !v.value { all := false; }
      seen := seen + [v.value];
    }
    assert children[..|children|] == children;
    r := Ok(all);
  }

  method EvaluateOr(c: Context, children: seq<Predicate>, depth: nat, nodes: NodeCounter)
    returns (r: Result<bool, Error>)
    modifies nodes
    ensures |children| < 2 ==> r == Err(InvalidPredicate) && nodes.count == old(nodes.count)
    ensures |children| >= 2 ==>
              var v := EvalEach(c, children, depth + 1, old(nodes.count));
              && nodes.count == v.nodes
              && r == if v.result.Err? then Err(v.result.error) else Ok(true in v.result.value)
    decreases children
  {
    if |children| < 2 { return Err(InvalidPredicate); }
    var any := false;
    ghost var start, seen := nodes.count, [];
    for i := 0 to |children|
      invariant |seen| == i && any == (true in seen)
      invariant EvalEach(c, children[..i], depth + 1, start) == Counted(Ok(seen), nodes.count)
    {
      EvalEachStep(c, children, i, depth + 1, start);
      var v := EvaluatePredicate(c, children[i], depth + 1, nodes);
      if v.Err? { return v; }
      if v.value { any := true; }
      seen := seen + [v.value];
    }
    assert children[..|children|] == children;
    r := Ok(any);
  }

  /** Evaluating one more child of a list, from the left. */
  lemma {:induction false} EvalEachSnoc(c: Context, ps: seq<Predicate>, last: Predicate, depth: nat, nodes: nat)
    ensures var before := EvalEach(c, ps, depth, nodes);
            EvalEach(c, ps + [last], depth, nodes) ==
            if before.result.Err? then before
            else
              var v := Eval(c, last, depth, before.nodes);
              Counted(if v.result.Err? then Err(v.result.error) else Ok(before.result.value + [v.result.value]),
                  v.nodes)
    decreases |ps|
  {
    var all := ps + [last];
    if ps == [] {
      assert all == [last] && all[1..] == [];
      var v := Eval(c, last, depth, nodes).result;
      if v.Ok? {
        assert [v.value] + [] == [] + [v.value];
      }
    } else {
      assert all[0] == ps[0] && all[1..] == ps[1..] + [last];
      var first := Eval(c, ps[0], depth, nodes);
      if first.result.Ok? {
        EvalEachSnoc(c, ps[1..], last, depth, first.nodes);
        var rest := EvalEach(c, ps[1..], depth, first.nodes);
        if rest.result.Ok? {
          var v := Eval(c, last, depth, rest.nodes).result;
          if v.Ok? {
            assert ([first.result.value] + rest.result.value) + [v.value]
                == [first.result.value] + (rest.result.value + [v.value]);
          }
        }
      }
    }
  }

  lemma {:induction false} EvalEachErr(c: Context, ps: seq<Predicate>, more: seq<Predicate>, depth: nat, nodes: nat)
    requires EvalEach(c, ps, depth, nodes).result.Err?
    ensures EvalEach(c, ps + more, depth, nodes) == EvalEach(c, ps, depth, nodes)
    decreases |ps|
  {
    assert (ps + more)[0] == ps[0] && (ps + more)[1..] == ps[1..] + more;
    var first := Eval(c, ps[0], depth, nodes);
    if first.result.Ok? {
      EvalEachErr(c, ps[1..], more, depth, first.nodes);
    }
  }

  /** One turn of the loop over the children. */
  lemma EvalEachStep(c: Context, ps: seq<Predicate>, i: nat, depth: nat, nodes: nat)
    requires i < |ps|
    ensures var before := EvalEach(c, ps[..i], depth, nodes);
            before.result.Ok? ==>
              var v := Eval(c, ps[i], depth, before.nodes);
              var now :=
                  Counted(if v.result.Err? then Err(v.result.error) else Ok(before.result.value + [v.result.value]),
                      v.nodes);
              && EvalEach(c, ps[..i + 1], depth, nodes) == now
              && (now.result.Err? ==> EvalEach(c, ps, depth, nodes) == now)
  {
    assert ps[..i + 1] == ps[..i] + [ps[i]];
    EvalEachSnoc(c, ps[..i], ps[i], depth, nodes);
    if EvalEach(c, ps[..i + 1], depth, nodes).result.Err? {
      assert ps[..i + 1] + ps[i + 1..] == ps;
      EvalEachErr(c, ps[..i + 1], ps[i + 1..], depth, nodes);
    }
  }

  method EvaluatePolicies(c: Context, policies: seq<PolicyScope>, includeProposed: bool)
    returns (r: Result<bool, Error>)
    ensures r == Decide(c, policies, includeProposed)
  {
    var allow, deny := false, false;
    for i := 0 to |policies|
      invariant var rest := Evaluate(c, policies[i..], includeProposed);
                Evaluate(c, policies, includeProposed) ==
                if rest.Err? then rest else Ok(Verdict(allow || rest.value.allowed, deny || rest.value.denied))
    {
      var scope := policies[i];
      assert policies[i..][0] == scope && policies[i..][1..] == policies[i + 1..];
      if scope.effect.UnknownEffect? {
        return Err(InvalidPredicate);
      }
      var counter := new NodeCounter();
      var matched := EvaluatePredicate(c, scope.current, 1, counter);
      if matched.Err? { return matched; }
      if matched.value && includeProposed {
        counter := new NodeCounter();
        matched := EvaluatePredicate(c, scope.proposed, 1, counter);
        if matched.Err? { return matched; }
      }
      if !matched.value { continue; }
      if scope.effect.Deny? { deny := true; continue; }
      allow := true;
    }
    r := Ok(allow && !deny);
  }
}
