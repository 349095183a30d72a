/**
 What a condition means as it is written: CEL's own truth of a checked tree over the
 objects its names stand for.  Conversion keeps that truth.
 */
module CelMeaning {
  import opened Wrappers
  import opened PredicateIr
  import Evaluator
  import opened ConditionParser

  /** What `resource`, `proposed` and `subject` stand for. */
  datatype Objects = Objects(resource: Attributes, proposed: Attributes, subject: Attributes)

  function Root(o: Objects, name: string): Option<Attributes> {
    if name == "resource" then Some(o.resource)
    else if name == "proposed" then Some(o.proposed)
    else if name == "subject" then Some(o.subject)
    else None
  }

  /** The value of `root.field` or of a literal; None where CEL has no value. */
  function Denoted(o: Objects, e: Cel): Option<Value> {
    match e
    case Select(testOnly, operand, field) =>
      if testOnly || !operand.Ident? then None
      else
        var fields := Root(o, operand.name);
        if fields.Some? && field in fields.value then Some(fields.value[field]) else None
    case Constant(v) => Some(v)
    case _ => None
  }

  /** CEL's `&&`: one false side decides, even if the other has no value. */
  function Both(a: Option<bool>, b: Option<bool>): Option<bool> {
    if a == Some(false) || b == Some(false) then Some(false)
    else if a == Some(true) && b == Some(true) then Some(true)
    else None
  }

  function Negation(a: Option<bool>): Option<bool> {
    if a.None? then None else Some(!a.value)
  }

  /** CEL's `||`, by De Morgan's law. */
  function Either(a: Option<bool>, b: Option<bool>): Option<bool> { Negation(Both(Negation(a), Negation(b))) }

  function Same(a: Option<Value>, b: Option<Value>): Option<bool> {
    if a.None? || b.None? then None else Some(a.value == b.value)
  }

  function Among(a: Option<Value>, b: Option<Value>): Option<bool> {
    if a.None? || b.None? || !b.value.TextList? then None
    else Some(a.value.Text? && a.value.text in b.value.texts)
  }

  function Truth(o: Objects, e: Cel): Option<bool> {
    if !e.Call? then None
    else match e.fn
      case LogicalNot => if |e.args| == 1 then Negation(Truth(o, e.args[0])) else None
      case LogicalAnd => if |e.args| == 2 then Both(Truth(o, e.args[0]), Truth(o, e.args[1])) else None
      case LogicalOr => if |e.args| == 2 then Either(Truth(o, e.args[0]), Truth(o, e.args[1])) else None
      case Equals => if |e.args| == 2 then Same(Denoted(o, e.args[0]), Denoted(o, e.args[1])) else None
      case OtherFunction(_) => None
      case _ => if |e.args| == 2 then Among(Denoted(o, e.args[0]), Denoted(o, e.args[1])) else None
  }

  predicate IsText(v: Option<Value>) { v.Some? && v.value.Text? }

  predicate IsTextList(v: Option<Value>) { v.Some? && v.value.TextList? }

  /** Every name the condition mentions has a value, and of the type it is used with. */
  predicate Settled(o: Objects, e: Cel) {
    && e.Call?
    && match e.fn
       case LogicalNot => |e.args| == 1 && Settled(o, e.args[0])
       case LogicalAnd => |e.args| == 2 && Settled(o, e.args[0]) && Settled(o, e.args[1])
       case LogicalOr => |e.args| == 2 && Settled(o, e.args[0]) && Settled(o, e.args[1])
       case Equals => |e.args| == 2 && IsText(Denoted(o, e.args[0])) && IsText(Denoted(o, e.args[1]))
       case OtherFunction(_) => false
       case _ => |e.args| == 2 && IsText(Denoted(o, e.args[0])) && IsTextList(Denoted(o, e.args[1]))
  }

  function ObjectsOf(c: Evaluator.Context): Objects { Objects(c.resource, c.proposed, c.subject) }

  // ---- Evaluation without its budget ----------------------------------------

  function AsOption<T, E>(r: Result<T, E>): Option<T> { if r.Ok? then Some(r.value) else None }

  function Value(c: Evaluator.Context, p: Predicate): Option<bool>
    decreases p, 1
  {
    match p
    case Empty => Some(true)
    case Equal(l, r) => AsOption(Evaluator.EvalEqual(c, l, r))
    case In(l, r) => AsOption(Evaluator.EvalIn(c, l, r))
    case And(cs) =>
      var vs := ValueEach(c, cs);
      if vs.None? then None else Some(false !in vs.value)
    case Or(cs) =>
      var vs := ValueEach(c, cs);
      if vs.None? then None else Some(true in vs.value)
    case Not(cs) => if |cs| == 1 then Negation(Value(c, cs[0])) else None
    case UnknownKind => None
  }

  function ValueEach(c: Evaluator.Context, ps: seq<Predicate>): Option<seq<bool>>
    decreases ps, 0
  {
    if ps == [] then Some([])
    else
      var first, rest := Value(c, ps[0]), ValueEach(c, ps[1..]);
      if first.None? || rest.None? then None else Some([first.value] + rest.value)
  }

  /** A well-formed predicate evaluates exactly when the budget suffices and it has a value. */
  lemma {:induction false} EvalIsValue(c: Evaluator.Context, p: Predicate, target: Target, depth: nat, nodes: nat)
    requires WellFormed(p, c.schema, target)
    ensures var v := Evaluator.Eval(c, p, depth, nodes).result;
            && (v.Ok? <==> WithinBudget(p, depth, nodes) && Value(c, p).Some?)
            && (v.Ok? ==> Value(c, p) == Some(v.value))
    decreases p, 1
  {
    match p {
      case And(cs) => EvalEachIsValue(c, cs, target, depth + 1, nodes + 1);
      case Or(cs) => EvalEachIsValue(c, cs, target, depth + 1, nodes + 1);
      case Not(cs) =>
        EvalIsValue(c, cs[0], target, depth + 1, nodes + 1);
        SingleSize(cs[0], c.schema, target);
        assert cs == [cs[0]];
      case _ =>
    }
  }

  lemma {:induction false} EvalEachIsValue(c: Evaluator.Context, ps: seq<Predicate>, target: Target, depth: nat,
          nodes: nat)
    requires AllWellFormed(ps, c.schema, target)
    ensures var v := Evaluator.EvalEach(c, ps, depth, nodes).result;
            && (v.Ok? <==> AllWithinBudget(ps, depth, nodes) && ValueEach(c, ps).Some?)
            && (v.Ok? ==> ValueEach(c, ps) == Some(v.value))
    decreases ps, 0
  {
    if ps == [] {
      assert Evaluator.EvalEach(c, ps, depth, nodes).result == Ok([]) && ValueEach(c, ps) == Some([]);
    } else {
      EvalIsValue(c, ps[0], target, depth, nodes);
      EvalWithinBudget(c, ps[0], target, depth, nodes);
      var first := Evaluator.Eval(c, ps[0], depth, nodes);
      EvalEachIsValue(c, ps[1..], target, depth, first.nodes);
      assert NodeCounts(ps) == NodeCount(ps[0]) + NodeCounts(ps[1..]);
    }
  }

  // ---- Conversion keeps the meaning -----------------------------------------

  lemma OperandMeans(c: Evaluator.Context, e: Cel, allowLiteral: bool)
    requires ConvertOperand(c.schema, e, allowLiteral).Ok?
    ensures var o := ConvertOperand(c.schema, e, allowLiteral).value;
            var v := Denoted(ObjectsOf(c), e);
            match o
            case ResourceField(name) => v == if name in c.resource then Some(c.resource[name]) else None
            case ProposedField(name) => v == if name in c.proposed then Some(c.proposed[name]) else None
            case SubjectField(name) => v == if name in c.subject then Some(c.subject[name]) else None
            case Literal(value) => v == Some(value)
            case NoOperand => true
  {}

  /** The condition's own truth, if every name it mentions is settled. */
  function Meaning(o: Objects, e: Cel): Option<bool> { if Settled(o, e) then Truth(o, e) else None }

  lemma EqualMeans(c: Evaluator.Context, e: Cel, target: Target)
    requires e.Call? && e.fn.Equals? && ConvertEqual(c.schema, e.args, target).Ok?
    ensures Value(c, ConvertEqual(c.schema, e.args, target).value) == Meaning(ObjectsOf(c), e)
  {
    OperandMeans(c, e.args[0], false);
    OperandMeans(c, e.args[1], true);
    OperandShape(c.schema, e.args[0], false);
    OperandShape(c.schema, e.args[1], true);
  }

  lemma InMeans(c: Evaluator.Context, e: Cel, target: Target)
    requires e.Call? && (e.fn.InList? || e.fn.OldIn?) && ConvertIn(c.schema, e.args, target).Ok?
    ensures Value(c, ConvertIn(c.schema, e.args, target).value) == Meaning(ObjectsOf(c), e)
  {
    OperandMeans(c, e.args[0], false);
    OperandMeans(c, e.args[1], false);
    OperandShape(c.schema, e.args[0], false);
    OperandShape(c.schema, e.args[1], false);
  }

  lemma NotMeans(c: Evaluator.Context, e: Cel, p: Predicate)
    requires e.Call? && e.fn.LogicalNot? && |e.args| == 1 && Value(c, p) == Meaning(ObjectsOf(c), e.args[0])
    ensures Value(c, Not([p])) == Meaning(ObjectsOf(c), e)
  {}

  lemma SingleValue(c: Evaluator.Context, p: Predicate)
    ensures ValueEach(c, [p]) == if Value(c, p).None? then None else Some([Value(c, p).value])
  {
    assert [p][1..] == [];
    if Value(c, p).Some? { assert [Value(c, p).value] + [] == [Value(c, p).value]; }
  }

  lemma PairValue(c: Evaluator.Context, p: Predicate, q: Predicate)
    ensures var v, w := Value(c, p), Value(c, q);
            ValueEach(c, [p, q]) == if v.None? || w.None? then None else Some([v.value, w.value])
  {
    assert [p, q][1..] == [q];
    SingleValue(c, q);
    var v, w := Value(c, p), Value(c, q);
    if v.Some? && w.Some? { assert [v.value] + [w.value] == [v.value, w.value]; }
  }

  lemma AndMeans(c: Evaluator.Context, e: Cel, p: Predicate, q: Predicate)
    requires e.Call? && e.fn.LogicalAnd? && |e.args| == 2
    requires Value(c, p) == Meaning(ObjectsOf(c), e.args[0]) && Value(c, q) == Meaning(ObjectsOf(c), e.args[1])
    ensures Value(c, And([p, q])) == Meaning(ObjectsOf(c), e)
  {
    PairValue(c, p, q);
    SettledIsTrue(ObjectsOf(c), e.args[0]);
    SettledIsTrue(ObjectsOf(c), e.args[1]);
  }

  lemma OrMeans(c: Evaluator.Context, e: Cel, p: Predicate, q: Predicate)
    requires e.Call? && e.fn.LogicalOr? && |e.args| == 2
    requires Value(c, p) == Meaning(ObjectsOf(c), e.args[0]) && Value(c, q) == Meaning(ObjectsOf(c), e.args[1])
    ensures Value(c, Or([p, q])) == Meaning(ObjectsOf(c), e)
  {
    PairValue(c, p, q);
    SettledIsTrue(ObjectsOf(c), e.args[0]);
    SettledIsTrue(ObjectsOf(c), e.args[1]);
  }

  /** A settled condition is true or false. */
  lemma {:induction false} SettledIsTrue(o: Objects, e: Cel)
    ensures Settled(o, e) ==> Truth(o, e).Some?
    decreases e
  {
    if Settled(o, e) && !e.fn.Equals? {
      SettledIsTrue(o, e.args[0]);
      if !e.fn.LogicalNot? { SettledIsTrue(o, e.args[1]); }
    }
  }

  lemma {:induction false} ConvertMeans(c: Evaluator.Context, e: Cel, target: Target, depth: nat, nodes: nat)
    requires Convert(c.schema, e, target, depth, nodes).result.Ok?
    ensures Value(c, Convert(c.schema, e, target, depth, nodes).result.value) == Meaning(ObjectsOf(c), e)
    decreases e
  {
    if e.fn.LogicalAnd? || e.fn.LogicalOr? {
      var left := Convert(c.schema, e.args[0], target, depth + 1, nodes + 1);
      var right := Convert(c.schema, e.args[1], target, depth + 1, left.nodes);
      ConvertMeans(c, e.args[0], target, depth + 1, nodes + 1);
      ConvertMeans(c, e.args[1], target, depth + 1, left.nodes);
      if e.fn.LogicalAnd? {
        AndMeans(c, e, left.result.value, right.result.value);
      } else {
        OrMeans(c, e, left.result.value, right.result.value);
      }
    } else if e.fn.LogicalNot? {
      ConvertMeans(c, e.args[0], target, depth + 1, nodes + 1);
      NotMeans(c, e, Convert(c.schema, e.args[0], target, depth + 1, nodes + 1).result.value);
    } else if e.fn.Equals? {
      EqualMeans(c, e, target);
    } else {
      InMeans(c, e, target);
    }
  }

  /**
   Whatever the converter accepts as a condition, for either target, evaluates exactly when
   every name the condition mentions has a value of the type it is used with, and then to
   the condition's own truth.
   */
  lemma ConditionMeans(c: Evaluator.Context, e: Cel, target: Target)
    requires Convert(c.schema, e, target, 1, 0).result.Ok?
    ensures var v := Evaluator.Eval(c, Convert(c.schema, e, target, 1, 0).result.value, 1, 0).result;
            && (v.Ok? <==> Settled(ObjectsOf(c), e))
            && (v.Ok? ==> Truth(ObjectsOf(c), e) == Some(v.value))
  {
    ConvertExact(c.schema, e, target, 1, 0);
    ConvertMeans(c, e, target, 1, 0);
    EvalIsValue(c, Convert(c.schema, e, target, 1, 0).result.value, target, 1, 0);
    SettledIsTrue(ObjectsOf(c), e);
  }
}
