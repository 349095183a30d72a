/**
 From a checked CEL tree to predicate IR, internal/datapermission/condition_parser.go,
 and what the node and depth budget checked there buys the two back ends.
 */
module ConditionParser {
  import opened Wrappers
  import opened PredicateIr
  import Evaluator
  import Compiler

  /** CEL's function names, `_&&_`, `_||_`, `!_`, `_==_`, `@in` and `_in_` among them. */
  datatype Function = LogicalAnd | LogicalOr | LogicalNot | Equals | InList | OldIn | OtherFunction(name: string)

  /** A checked CEL expression; every kind the converter does not look into is OtherExpr. */
  datatype Cel =
    | Call(fn: Function, member: bool, args: seq<Cel>)
    | Select(testOnly: bool, operand: Cel, field: string)
    | Ident(name: string)
    | Constant(value: Value)
    | OtherExpr

  datatype Target = Current | Proposed

  datatype ConditionError = InvalidCondition | Unsupported | ConditionTooComplex | UnknownField | UnknownSubject

  predicate IsFieldName(s: string) {
    s != "" && 'a' <= s[0] <= 'z' && forall i | 0 <= i < |s| :: IdentChar(s[i])
  }

  function ConvertOperand(schema: Schema, e: Cel, allowLiteral: bool): Result<Operand, ConditionError> {
    match e
    case Select(testOnly, operand, field) =>
      if testOnly || !operand.Ident? || !IsFieldName(field) then Err(Unsupported)
      else if operand.name == "resource" then
        if field in schema then Ok(ResourceField(field)) else Err(UnknownField)
      else if operand.name == "proposed" then
        if field in schema then Ok(ProposedField(field)) else Err(UnknownField)
      else if operand.name == "subject" then
        if SubjectFieldType(field).Some? then Ok(SubjectField(field)) else Err(UnknownSubject)
      else Err(Unsupported)
    case Constant(v) => if allowLiteral && v.Text? then Ok(Literal(v)) else Err(Unsupported)
    case _ => Err(Unsupported)
  }

  predicate OnTarget(o: Operand, target: Target) {
    if target.Current? then o.ResourceField? else o.ProposedField?
  }

  function ConvertEqual(schema: Schema, args: seq<Cel>, target: Target): Result<Predicate, ConditionError> {
    if |args| != 2 then Err(InvalidCondition)
    else
      var left := ConvertOperand(schema, args[0], false);
      if left.Err? then Err(left.error)
      else
        var right := ConvertOperand(schema, args[1], true);
        if right.Err? then Err(right.error)
        else if !OnTarget(left.value, target) || !(right.value.SubjectField? || right.value.Literal?)
            then Err(Unsupported)
        else if right.value.SubjectField? && SubjectFieldType(right.value.name) != Some(TextType) then Err(Unsupported)
        else Ok(Equal(left.value, right.value))
  }

  function ConvertIn(schema: Schema, args: seq<Cel>, target: Target): Result<Predicate, ConditionError> {
    if |args| != 2 then Err(InvalidCondition)
    else
      var left := ConvertOperand(schema, args[0], false);
      if left.Err? then Err(left.error)
      else
        var right := ConvertOperand(schema, args[1], false);
        if right.Err? then Err(right.error)
        else if !OnTarget(left.value, target) || !right.value.SubjectField? then Err(Unsupported)
        else if SubjectFieldType(right.value.name) != Some(TextListType) then Err(Unsupported)
        else Ok(In(left.value, right.value))
  }

  datatype Converted = Converted(result: Result<Predicate, ConditionError>, nodes: nat)

  function Convert(schema: Schema, e: Cel, target: Target, depth: nat, nodes: nat): Converted
    decreases e
  {
    var n := nodes + 1;
    if depth > MAX_DEPTH || n > MAX_NODES then Converted(Err(ConditionTooComplex), n)
    else if !e.Call? || e.member then Converted(Err(Unsupported), n)
    else if e.fn.LogicalAnd? || e.fn.LogicalOr? then
      if |e.args| != 2 then Converted(Err(InvalidCondition), n)
      else
        var left := Convert(schema, e.args[0], target, depth + 1, n);
        if left.result.Err? then left
        else
          var right := Convert(schema, e.args[1], target, depth + 1, left.nodes);
          if right.result.Err? then right
          else
            var children := [left.result.value, right.result.value];
            Converted(Ok(if e.fn.LogicalAnd? then And(children) else Or(children)), right.nodes)
    else if e.fn.LogicalNot? then
      if |e.args| != 1 then Converted(Err(InvalidCondition), n)
      else
        var child := Convert(schema, e.args[0], target, depth + 1, n);
        if child.result.Err? then child else Converted(Ok(Not([child.result.value])), child.nodes)
    else if e.fn.Equals? then Converted(ConvertEqual(schema, e.args, target), n)
    else if e.fn.InList? || e.fn.OldIn? then Converted(ConvertIn(schema, e.args, target), n)
    else Converted(Err(Unsupported), n)
  }

  /** The source's recursion over one shared counter. */
  method ConvertCondition(schema: Schema, e: Cel, target: Target, depth: nat, nodes: Evaluator.NodeCounter)
    returns (r: Result<Predicate, ConditionError>)
    modifies nodes
    ensures Converted(r, nodes.count) == Convert(schema, e, target, depth, old(nodes.count))
    decreases e
  {
    nodes.count := nodes.count + 1;
    if depth > MAX_DEPTH || nodes.count > MAX_NODES { return Err(ConditionTooComplex); }
    if !e.Call? || e.member { return Err(Unsupported); }
    if e.fn.LogicalAnd? || e.fn.LogicalOr? {
      if |e.args| != 2 { return Err(InvalidCondition); }
      var left := ConvertCondition(schema, e.args[0], target, depth + 1, nodes);
      if left.Err? { return left; }
      var right := ConvertCondition(schema, e.args[1], target, depth + 1, nodes);
      if right.Err? { return right; }
      var children := [left.value, right.value];
      r := Ok(if e.fn.LogicalAnd? then And(children) else Or(children));
    } else if e.fn.LogicalNot? {
      if |e.args| != 1 { return Err(InvalidCondition); }
      var child := ConvertCondition(schema, e.args[0], target, depth + 1, nodes);
      r := if child.Err? then child else Ok(Not([child.value]));
    } else if e.fn.Equals? {
      r := ConvertEqual(schema, e.args, target);
    } else if e.fn.InList? || e.fn.OldIn? {
      r := ConvertIn(schema, e.args, target);
    } else {
      r := Err(Unsupported);
    }
  }

  // ---- Size of the IR -------------------------------------------------------

  function NodeCount(p: Predicate): (n: nat)
    ensures n >= 1
    decreases p, 1
  {
    match p
    case And(cs) => 1 + NodeCounts(cs)
    case Or(cs) => 1 + NodeCounts(cs)
    case Not(cs) => 1 + NodeCounts(cs)
    case _ => 1
  }

  function NodeCounts(ps: seq<Predicate>): nat
    decreases ps, 0
  {
    if ps == [] then 0 else NodeCount(ps[0]) + NodeCounts(ps[1..])
  }

  function Max(a: nat, b: nat): nat { if a < b then b else a }

  function Depth(p: Predicate): (d: nat)
    ensures d >= 1
    decreases p, 1
  {
    match p
    case And(cs) => 1 + Depths(cs)
    case Or(cs) => 1 + Depths(cs)
    case Not(cs) => 1 + Depths(cs)
    case _ => 1
  }

  function Depths(ps: seq<Predicate>): nat
    decreases ps, 0
  {
    if ps == [] then 0 else Max(Depth(ps[0]), Depths(ps[1..]))
  }

  /** The shape every converted predicate has: operands in place, fields known, arities right. */
  predicate WellFormed(p: Predicate, schema: Schema, target: Target)
    decreases p, 1
  {
    match p
    case Empty => true
    case Equal(l, r) =>
      && OnTarget(l, target) && l.name in schema
      && (if r.SubjectField? then SubjectFieldType(r.name) == Some(TextType) else r.Literal? && r.literal.Text?)
    case In(l, r) =>
      OnTarget(l, target) && l.name in schema && r.SubjectField? && SubjectFieldType(r.name) == Some(TextListType)
    case And(cs) => |cs| >= 2 && AllWellFormed(cs, schema, target)
    case Or(cs) => |cs| >= 2 && AllWellFormed(cs, schema, target)
    case Not(cs) => |cs| == 1 && AllWellFormed(cs, schema, target)
    case UnknownKind => false
  }

  predicate AllWellFormed(ps: seq<Predicate>, schema: Schema, target: Target)
    decreases ps, 0
  {
    ps == [] || (WellFormed(ps[0], schema, target) && AllWellFormed(ps[1..], schema, target))
  }

  // ---- What the converter accepts -------------------------------------------

  /** The condition is in the supported subset, budgets aside. */
  predicate Supported(schema: Schema, e: Cel, target: Target) {
    && e.Call? && !e.member
    && if e.fn.LogicalAnd? || e.fn.LogicalOr? then
         |e.args| == 2 && Supported(schema, e.args[0], target) && Supported(schema, e.args[1], target)
       else if e.fn.LogicalNot? then |e.args| == 1 && Supported(schema, e.args[0], target)
       else if e.fn.Equals? then ConvertEqual(schema, e.args, target).Ok?
       else (e.fn.InList? || e.fn.OldIn?) && ConvertIn(schema, e.args, target).Ok?
  }

  function Operators(e: Cel): (n: nat)
    ensures n >= 1
  {
    if e.Call? && (e.fn.LogicalAnd? || e.fn.LogicalOr?) && |e.args| == 2
        then 1 + Operators(e.args[0]) + Operators(e.args[1])
    else if e.Call? && e.fn.LogicalNot? && |e.args| == 1 then 1 + Operators(e.args[0])
    else 1
  }

  function Nesting(e: Cel): (n: nat)
    ensures n >= 1
  {
    if e.Call? && (e.fn.LogicalAnd? || e.fn.LogicalOr?) && |e.args| == 2
        then 1 + Max(Nesting(e.args[0]), Nesting(e.args[1]))
    else if e.Call? && e.fn.LogicalNot? && |e.args| == 1 then 1 + Nesting(e.args[0])
    else 1
  }

  ghost predicate Exact(schema: Schema, e: Cel, target: Target, depth: nat, nodes: nat) {
    var c := Convert(schema, e, target, depth, nodes);
    && (c.result.Ok? <==>
         && Supported(schema, e, target)
         && depth + Nesting(e) - 1 <= MAX_DEPTH && nodes + Operators(e) <= MAX_NODES)
    && (c.result.Ok? ==>
         && c.nodes == nodes + Operators(e)
         && NodeCount(c.result.value) == Operators(e) && Depth(c.result.value) == Nesting(e)
         && WellFormed(c.result.value, schema, target))
  }

  /**
   The converter accepts exactly the supported conditions within budget, and the
   predicate has one node per operator, the same nesting, and the shape the back
   ends expect.
   */
  lemma {:induction false} ConvertExact(schema: Schema, e: Cel, target: Target, depth: nat, nodes: nat)
    ensures Exact(schema, e, target, depth, nodes)
    decreases e
  {
    if e.Call? && !e.member && (e.fn.LogicalAnd? || e.fn.LogicalOr?) && |e.args| == 2 {
      ConvertExact(schema, e.args[0], target, depth + 1, nodes + 1);
      ConvertExact(schema, e.args[1], target, depth + 1,
          Convert(schema, e.args[0], target, depth + 1, nodes + 1).nodes);
      BinaryExact(schema, e, target, depth, nodes);
    } else if e.Call? && !e.member && e.fn.LogicalNot? && |e.args| == 1 {
      ConvertExact(schema, e.args[0], target, depth + 1, nodes + 1);
      NotExact(schema, e, target, depth, nodes);
    } else {
      LeafExact(schema, e, target, depth, nodes);
    }
  }

  lemma LeafExact(schema: Schema, e: Cel, target: Target, depth: nat, nodes: nat)
    requires !(e.Call? && !e.member && (e.fn.LogicalAnd? || e.fn.LogicalOr?) && |e.args| == 2)
    requires !(e.Call? && !e.member && e.fn.LogicalNot? && |e.args| == 1)
    ensures Exact(schema, e, target, depth, nodes)
  {
    if e.Call? && !e.member && e.fn.Equals? {
      EqualShape(schema, e.args, target);
    } else if e.Call? && !e.member && (e.fn.InList? || e.fn.OldIn?) {
      InShape(schema, e.args, target);
    }
  }

  lemma OperandShape(schema: Schema, e: Cel, allowLiteral: bool)
    requires ConvertOperand(schema, e, allowLiteral).Ok?
    ensures var o := ConvertOperand(schema, e, allowLiteral).value;
            match o
            case ResourceField(n) => n in schema
            case ProposedField(n) => n in schema
            case SubjectField(n) => SubjectFieldType(n).Some?
            case Literal(v) => v.Text?
            case NoOperand => false
  {}

  lemma EqualShape(schema: Schema, args: seq<Cel>, target: Target)
    ensures ConvertEqual(schema, args, target).Ok? ==>
        WellFormed(ConvertEqual(schema, args, target).value, schema, target)
    ensures ConvertEqual(schema, args, target).Ok? ==> ConvertEqual(schema, args, target).value.Equal?
  {
    if ConvertEqual(schema, args, target).Ok? {
      OperandShape(schema, args[0], false);
      OperandShape(schema, args[1], true);
    }
  }

  lemma InShape(schema: Schema, args: seq<Cel>, target: Target)
    ensures ConvertIn(schema, args, target).Ok? ==> WellFormed(ConvertIn(schema, args, target).value, schema, target)
    ensures ConvertIn(schema, args, target).Ok? ==> ConvertIn(schema, args, target).value.In?
  {
    if ConvertIn(schema, args, target).Ok? {
      OperandShape(schema, args[0], false);
      OperandShape(schema, args[1], false);
    }
  }

  lemma NotExact(schema: Schema, e: Cel, target: Target, depth: nat, nodes: nat)
    requires e.Call? && !e.member && e.fn.LogicalNot? && |e.args| == 1
    requires Exact(schema, e.args[0], target, depth + 1, nodes + 1)
    ensures Exact(schema, e, target, depth, nodes)
  {
    var child := Convert(schema, e.args[0], target, depth + 1, nodes + 1);
    if child.result.Ok? {
      SingleSize(child.result.value, schema, target);
    }
  }

  lemma BinaryExact(schema: Schema, e: Cel, target: Target, depth: nat, nodes: nat)
    requires e.Call? && !e.member && (e.fn.LogicalAnd? || e.fn.LogicalOr?) && |e.args| == 2
    requires Exact(schema, e.args[0], target, depth + 1, nodes + 1)
    requires Exact(schema, e.args[1], target, depth + 1, Convert(schema, e.args[0], target, depth + 1, nodes + 1).nodes)
    ensures Exact(schema, e, target, depth, nodes)
  {
    var left := Convert(schema, e.args[0], target, depth + 1, nodes + 1);
    var right := Convert(schema, e.args[1], target, depth + 1, left.nodes);
    if left.result.Ok? && right.result.Ok? {
      PairSize(left.result.value, right.result.value, schema, target);
    }
  }

  lemma SingleSize(p: Predicate, schema: Schema, target: Target)
    ensures NodeCounts([p]) == NodeCount(p) && Depths([p]) == Depth(p)
    ensures AllWellFormed([p], schema, target) == WellFormed(p, schema, target)
  {
    assert [p][1..] == [];
  }

  lemma PairSize(p: Predicate, q: Predicate, schema: Schema, target: Target)
    ensures NodeCounts([p, q]) == NodeCount(p) + NodeCount(q) && Depths([p, q]) == Max(Depth(p), Depth(q))
    ensures AllWellFormed([p, q], schema, target) == (WellFormed(p, schema, target) && WellFormed(q, schema, target))
  {
    assert [p, q][1..] == [q];
    SingleSize(q, schema, target);
  }

  // ---- What the back ends may still report ----------------------------------

  predicate WithinBudget(p: Predicate, depth: nat, nodes: nat) {
    depth + Depth(p) - 1 <= MAX_DEPTH && nodes + NodeCount(p) <= MAX_NODES
  }

  predicate AllWithinBudget(ps: seq<Predicate>, depth: nat, nodes: nat) {
    ps != [] ==> depth + Depths(ps) - 1 <= MAX_DEPTH && nodes + NodeCounts(ps) <= MAX_NODES
  }

  predicate DataError(e: Error) {
    e.ResourceAttributeMissing? || e.SubjectAttributeMissing? || e.TypeMismatch?
  }

  /**
   Evaluating a well-formed predicate counts exactly its nodes.  Within budget the
   only errors are missing or ill-typed attributes; out of budget it cannot succeed.
   */
  lemma {:induction false} EvalWithinBudget(c: Evaluator.Context, p: Predicate, target: Target, depth: nat, nodes: nat)
    requires WellFormed(p, c.schema, target)
    ensures var v := Evaluator.Eval(c, p, depth, nodes);
            && (v.result.Ok? ==> v.nodes == nodes + NodeCount(p) && WithinBudget(p, depth, nodes))
            && (WithinBudget(p, depth, nodes) && v.result.Err? ==> DataError(v.result.error))
    decreases p, 1
  {
    match p {
      case And(cs) =>
        EvalEachWithinBudget(c, cs, target, depth + 1, nodes + 1);
        BooleanWithinBudget(c, p, cs, target, depth, nodes);
      case Or(cs) =>
        EvalEachWithinBudget(c, cs, target, depth + 1, nodes + 1);
        BooleanWithinBudget(c, p, cs, target, depth, nodes);
      case Not(cs) =>
        EvalWithinBudget(c, cs[0], target, depth + 1, nodes + 1);
        NotWithinBudget(c, cs, target, depth, nodes);
      case _ => LeafWithinBudget(c, p, target, depth, nodes);
    }
  }

  lemma BooleanWithinBudget(c: Evaluator.Context, p: Predicate, cs: seq<Predicate>, target: Target, depth: nat,
          nodes: nat)
    requires WellFormed(p, c.schema, target) && (p == And(cs) || p == Or(cs))
    requires var v := Evaluator.EvalEach(c, cs, depth + 1, nodes + 1);
             && (v.result.Ok? ==> v.nodes == nodes + 1 + NodeCounts(cs) && AllWithinBudget(cs, depth + 1, nodes + 1))
             && (AllWithinBudget(cs, depth + 1, nodes + 1) && v.result.Err? ==> DataError(v.result.error))
    ensures var v := Evaluator.Eval(c, p, depth, nodes);
            && (v.result.Ok? ==> v.nodes == nodes + NodeCount(p) && WithinBudget(p, depth, nodes))
            && (WithinBudget(p, depth, nodes) && v.result.Err? ==> DataError(v.result.error))
  {}

  lemma NotWithinBudget(c: Evaluator.Context, cs: seq<Predicate>, target: Target, depth: nat, nodes: nat)
    requires WellFormed(Not(cs), c.schema, target)
    requires var v := Evaluator.Eval(c, cs[0], depth + 1, nodes + 1);
             && (v.result.Ok? ==> v.nodes == nodes + 1 + NodeCount(cs[0]) && WithinBudget(cs[0], depth + 1, nodes + 1))
             && (WithinBudget(cs[0], depth + 1, nodes + 1) && v.result.Err? ==> DataError(v.result.error))
    ensures var v := Evaluator.Eval(c, Not(cs), depth, nodes);
            && (v.result.Ok? ==> v.nodes == nodes + NodeCount(Not(cs)) && WithinBudget(Not(cs), depth, nodes))
            && (WithinBudget(Not(cs), depth, nodes) && v.result.Err? ==> DataError(v.result.error))
  {
    SingleSize(cs[0], c.schema, target);
    assert cs == [cs[0]];
  }

  lemma LeafWithinBudget(c: Evaluator.Context, p: Predicate, target: Target, depth: nat, nodes: nat)
    requires WellFormed(p, c.schema, target) && !p.And? && !p.Or? && !p.Not?
    ensures var v := Evaluator.Eval(c, p, depth, nodes);
            && (v.result.Ok? ==> v.nodes == nodes + NodeCount(p) && WithinBudget(p, depth, nodes))
            && (WithinBudget(p, depth, nodes) && v.result.Err? ==> DataError(v.result.error))
  {}

  lemma {:induction false} EvalEachWithinBudget(c: Evaluator.Context, ps: seq<Predicate>, target: Target,
          depth: nat, nodes: nat)
    requires AllWellFormed(ps, c.schema, target)
    ensures var v := Evaluator.EvalEach(c, ps, depth, nodes);
            && (v.result.Ok? ==> v.nodes == nodes + NodeCounts(ps) && AllWithinBudget(ps, depth, nodes))
            && (AllWithinBudget(ps, depth, nodes) && v.result.Err? ==> DataError(v.result.error))
    decreases ps, 0
  {
    if ps == [] {
    } else {
      EvalWithinBudget(c, ps[0], target, depth, nodes);
      var first := Evaluator.Eval(c, ps[0], depth, nodes);
      if first.result.Ok? {
        EvalEachWithinBudget(c, ps[1..], target, depth, first.nodes);
        assert NodeCounts(ps) == NodeCount(ps[0]) + NodeCounts(ps[1..]);
      }
    }
  }

  /** The same for compilation of a current-row condition; no row is read, so no row attribute is missing. */
  lemma {:induction false} CompileWithinBudget(schema: Schema, subject: Attributes, p: Predicate, depth: nat,
          nodes: nat)
    requires WellFormed(p, schema, Current)
    ensures var q := Compiler.Compile(schema, subject, p, depth, nodes);
            && (q.result.Ok? ==> q.nodes == nodes + NodeCount(p) && WithinBudget(p, depth, nodes))
            && (WithinBudget(p, depth, nodes) && q.result.Err? ==> SubjectDataError(q.result.error))
    decreases p, 1
  {
    match p {
      case And(cs) =>
        CompileEachWithinBudget(schema, subject, cs, depth + 1, nodes + 1);
        CompileBooleanWithinBudget(schema, subject, p, cs, depth, nodes);
      case Or(cs) =>
        CompileEachWithinBudget(schema, subject, cs, depth + 1, nodes + 1);
        CompileBooleanWithinBudget(schema, subject, p, cs, depth, nodes);
      case Not(cs) =>
        CompileWithinBudget(schema, subject, cs[0], depth + 1, nodes + 1);
        CompileNotWithinBudget(schema, subject, cs, depth, nodes);
      case _ => CompileLeafWithinBudget(schema, subject, p, depth, nodes);
    }
  }

  predicate SubjectDataError(e: Error) { e.SubjectAttributeMissing? || e.TypeMismatch? }

  lemma CompileBooleanWithinBudget(schema: Schema, subject: Attributes, p: Predicate, cs: seq<Predicate>,
          depth: nat, nodes: nat)
    requires WellFormed(p, schema, Current) && (p == And(cs) || p == Or(cs))
    requires var q := Compiler.CompileEach(schema, subject, cs, depth + 1, nodes + 1);
             && (q.result.Ok? ==> q.nodes == nodes + 1 + NodeCounts(cs) && AllWithinBudget(cs, depth + 1, nodes + 1))
             && (AllWithinBudget(cs, depth + 1, nodes + 1) && q.result.Err? ==> SubjectDataError(q.result.error))
    ensures var q := Compiler.Compile(schema, subject, p, depth, nodes);
            && (q.result.Ok? ==> q.nodes == nodes + NodeCount(p) && WithinBudget(p, depth, nodes))
            && (WithinBudget(p, depth, nodes) && q.result.Err? ==> SubjectDataError(q.result.error))
  {}

  lemma CompileNotWithinBudget(schema: Schema, subject: Attributes, cs: seq<Predicate>, depth: nat, nodes: nat)
    requires WellFormed(Not(cs), schema, Current)
    requires var q := Compiler.Compile(schema, subject, cs[0], depth + 1, nodes + 1);
             && (q.result.Ok? ==> q.nodes == nodes + 1 + NodeCount(cs[0]) && WithinBudget(cs[0], depth + 1, nodes + 1))
             && (WithinBudget(cs[0], depth + 1, nodes + 1) && q.result.Err? ==> SubjectDataError(q.result.error))
    ensures var q := Compiler.Compile(schema, subject, Not(cs), depth, nodes);
            && (q.result.Ok? ==> q.nodes == nodes + NodeCount(Not(cs)) && WithinBudget(Not(cs), depth, nodes))
            && (WithinBudget(Not(cs), depth, nodes) && q.result.Err? ==> SubjectDataError(q.result.error))
  {
    SingleSize(cs[0], schema, Current);
    assert cs == [cs[0]];
  }

  lemma CompileLeafWithinBudget(schema: Schema, subject: Attributes, p: Predicate, depth: nat, nodes: nat)
    requires WellFormed(p, schema, Current) && !p.And? && !p.Or? && !p.Not?
    ensures var q := Compiler.Compile(schema, subject, p, depth, nodes);
            && (q.result.Ok? ==> q.nodes == nodes + NodeCount(p) && WithinBudget(p, depth, nodes))
            && (WithinBudget(p, depth, nodes) && q.result.Err? ==> SubjectDataError(q.result.error))
  {}

  lemma {:induction false} CompileEachWithinBudget(schema: Schema, subject: Attributes, ps: seq<Predicate>,
          depth: nat, nodes: nat)
    requires AllWellFormed(ps, schema, Current)
    ensures var q := Compiler.CompileEach(schema, subject, ps, depth, nodes);
            && (q.result.Ok? ==> q.nodes == nodes + NodeCounts(ps) && AllWithinBudget(ps, depth, nodes))
            && (AllWithinBudget(ps, depth, nodes) && q.result.Err? ==> SubjectDataError(q.result.error))
    decreases ps, 0
  {
    if ps == [] {
    } else {
      CompileWithinBudget(schema, subject, ps[0], depth, nodes);
      var first := Compiler.Compile(schema, subject, ps[0], depth, nodes);
      if first.result.Ok? {
        CompileEachWithinBudget(schema, subject, ps[1..], depth, first.nodes);
        assert NodeCounts(ps) == NodeCount(ps[0]) + NodeCounts(ps[1..]);
      }
    }
  }

  /**
   A condition the converter accepts is never reported too complex, malformed or
   unknown later: not by the evaluator, and not by the compiler.
   */
  lemma AcceptedStaysAccepted(c: Evaluator.Context, e: Cel, target: Target)
    requires Convert(c.schema, e, target, 1, 0).result.Ok?
    ensures var p := Convert(c.schema, e, target, 1, 0).result.value;
            var v := Evaluator.Eval(c, p, 1, 0).result;
            && (v.Err? ==> DataError(v.error))
            && (target == Current ==>
                 var q := Compiler.Compile(c.schema, c.subject, p, 1, 0).result;
                 q.Err? ==> q.error.SubjectAttributeMissing? || q.error.TypeMismatch?)
  {
    ConvertExact(c.schema, e, target, 1, 0);
    var p := Convert(c.schema, e, target, 1, 0).result.value;
    EvalWithinBudget(c, p, target, 1, 0);
    if target == Current {
      CompileWithinBudget(c.schema, c.subject, p, 1, 0);
    }
  }
}
