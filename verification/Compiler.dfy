/**
 From predicate IR to a parameterised WHERE clause,
 internal/datapermission/compiler.go.  The functions are the specification; the
 methods run the source's loops and produce the same clauses and arguments.
 */
module Compiler {
  import opened Wrappers
  import opened PredicateIr
  import opened Evaluator

  /** Clause text and the values for its placeholders, in order. */
  datatype SqlPredicate = SqlPredicate(clause: string, args: seq<string>)

  const TRUE_CLAUSE: SqlPredicate := SqlPredicate("(1 = 1)", [])
  const FALSE_CLAUSE: SqlPredicate := SqlPredicate("(1 = 0)", [])

  /** `strings.Join`. */
  function Join(parts: seq<string>, separator: string): string {
    if parts == [] then "" else if |parts| == 1 then parts[0] else parts[0] + separator + Join(parts[1..], separator)
  }

  function Clauses(qs: seq<SqlPredicate>): (r: seq<string>)
    ensures |r| == |qs| && forall i | 0 <= i < |qs| :: r[i] == qs[i].clause
  {
    seq(|qs|, i requires 0 <= i < |qs| => qs[i].clause)
  }

  function AllArgs(qs: seq<SqlPredicate>): seq<string> {
    if qs == [] then [] else qs[0].args + AllArgs(qs[1..])
  }

  function Joined(qs: seq<SqlPredicate>, separator: string): SqlPredicate {
    SqlPredicate("(" + Join(Clauses(qs), separator) + ")", AllArgs(qs))
  }

  function Negated(q: SqlPredicate): SqlPredicate {
    SqlPredicate("(NOT " + q.clause + ")", q.args)
  }

  function CompileEqual(schema: Schema, subject: Attributes, left: Operand,
          right: Operand): Result<SqlPredicate, Error>
  {
    if SubjectOperandError(right, TextType).Some? then Err(SubjectOperandError(right, TextType).value)
    else if !left.ResourceField? then Err(InvalidPredicate)
    else if left.name !in schema then Err(ResourceFieldUnknown)
    else
      var v := RightValue(Context(schema, subject, map[], map[]), right);
      if v.Err? then Err(v.error)
      else if !v.value.Text? then Err(TypeMismatch)
      else Ok(SqlPredicate("(" + schema[left.name] + " = ?)", [v.value.text]))
  }

  function Placeholders(n: nat): seq<string> {
    seq(n, _ => "?")
  }

  function CompileIn(schema: Schema, subject: Attributes, left: Operand, right: Operand): Result<SqlPredicate, Error> {
    if !left.ResourceField? || !right.SubjectField? then Err(InvalidPredicate)
    else if SubjectOperandError(right, TextListType).Some? then Err(SubjectOperandError(right, TextListType).value)
    else if left.name !in schema then Err(ResourceFieldUnknown)
    else if right.name !in subject then Err(SubjectAttributeMissing)
    else if !subject[right.name].TextList? then Err(TypeMismatch)
    else
      var values := subject[right.name].texts;
      if values == [] then Ok(FALSE_CLAUSE)
      else Ok(SqlPredicate("(" + schema[left.name] + " IN (" + Join(Placeholders(|values|), ", ") + "))", values))
  }

  function Compile(schema: Schema, subject: Attributes, p: Predicate, depth: nat, nodes: nat): Counted<SqlPredicate>
    decreases p, 1
  {
    var n := nodes + 1;
    if depth > MAX_DEPTH || n > MAX_NODES then Counted(Err(TooComplex), n)
    else match p
      case Empty => Counted(Ok(TRUE_CLAUSE), n)
      case Equal(l, r) => Counted(CompileEqual(schema, subject, l, r), n)
      case In(l, r) => Counted(CompileIn(schema, subject, l, r), n)
      case And(cs) =>
        if |cs| < 2 then Counted(Err(InvalidPredicate), n)
        else
          var parts := CompileEach(schema, subject, cs, depth + 1, n);
          Counted(if parts.result.Err? then Err(parts.result.error) else Ok(Joined(parts.result.value, " AND ")),
              parts.nodes)
      case Or(cs) =>
        if |cs| < 2 then Counted(Err(InvalidPredicate), n)
        else
          var parts := CompileEach(schema, subject, cs, depth + 1, n);
          Counted(if parts.result.Err? then Err(parts.result.error) else Ok(Joined(parts.result.value, " OR ")),
              parts.nodes)
      case Not(cs) =>
        if |cs| != 1 then Counted(Err(InvalidPredicate), n)
        else
          var child := Compile(schema, subject, cs[0], depth + 1, n);
          Counted(if child.result.Err? then Err(child.result.error) else Ok(Negated(child.result.value)), child.nodes)
      case UnknownKind => Counted(Err(InvalidPredicate), n)
  }

  function CompileEach(schema: Schema, subject: Attributes, ps: seq<Predicate>, depth: nat,
          nodes: nat): (r: Counted<seq<SqlPredicate>>)
    ensures r.result.Ok? ==> |r.result.value| == |ps|
    decreases ps, 0
  {
    if ps == [] then Counted(Ok([]), nodes)
    else
      var first := Compile(schema, subject, ps[0], depth, nodes);
      if first.result.Err? then Counted(Err(first.result.error), first.nodes)
      else
        var rest := CompileEach(schema, subject, ps[1..], depth, first.nodes);
        if rest.result.Err? then rest
        else Counted(Ok([first.result.value] + rest.result.value), rest.nodes)
  }

  /** Each predicate of a union has its own node budget. */
  function CompileAlone(schema: Schema, subject: Attributes, ps: seq<Predicate>): (r: Result<seq<SqlPredicate>, Error>)
    ensures r.Ok? ==> |r.value| == |ps|
  {
    if ps == [] then Ok([])
    else
      var first := Compile(schema, subject, ps[0], 1, 0).result;
      if first.Err? then Err(first.error)
      else
        var rest := CompileAlone(schema, subject, ps[1..]);
        if rest.Err? then rest else Ok([first.value] + rest.value)
  }

  function Union(qs: seq<SqlPredicate>): SqlPredicate
    requires qs != []
  {
    if |qs| == 1 then qs[0] else Joined(qs, " OR ")
  }

  function Allows(policies: seq<PolicyScope>): seq<Predicate> {
    if policies == [] then []
    else (if policies[0].effect.Allow? then [policies[0].current] else []) + Allows(policies[1..])
  }

  /** A deny with a proposed condition cannot be decided on the stored row: it is left out. */
  function Denies(policies: seq<PolicyScope>): seq<Predicate> {
    if policies == [] then []
    else
      (if policies[0].effect.Deny? && !policies[0].hasProposed then [policies[0].current] else [])
      + Denies(policies[1..])
  }

  predicate KnownEffects(policies: seq<PolicyScope>) {
    forall i | 0 <= i < |policies| :: !policies[i].effect.UnknownEffect?
  }

  /** Allow-union minus deny-union. */
  function CompilePolicies(schema: Schema, subject: Attributes,
          policies: seq<PolicyScope>): Result<SqlPredicate, Error>
  {
    if !KnownEffects(policies) then Err(InvalidPredicate)
    else Difference(schema, subject, Allows(policies), Denies(policies))
  }

  function Difference(schema: Schema, subject: Attributes, allowed: seq<Predicate>,
          denied: seq<Predicate>): Result<SqlPredicate, Error>
  {
    var denies := CompileAlone(schema, subject, denied);
    if denies.Err? then Err(denies.error)
    else if allowed == [] then Ok(FALSE_CLAUSE)
    else
      var allows := CompileAlone(schema, subject, allowed);
      if allows.Err? then Err(allows.error)
      else if denies.value == [] then Ok(Union(allows.value))
      else Ok(Joined([Union(allows.value), Negated(Union(denies.value))], " AND "))
  }

  // ---- The source's loops ---------------------------------------------------

  method CompilePredicate(schema: Schema, subject: Attributes, p: Predicate, depth: nat, nodes: NodeCounter)
    returns (r: Result<SqlPredicate, Error>)
    modifies nodes
    ensures Counted(r, nodes.count) == Compile(schema, subject, p, depth, old(nodes.count))
    decreases p
  {
    nodes.count := nodes.count + 1;
    if depth > MAX_DEPTH || nodes.count > MAX_NODES {
      return Err(TooComplex);
    }
    match p {
      case Empty => r := Ok(TRUE_CLAUSE);
      case Equal(left, right) => r := CompileEqual(schema, subject, left, right);
      case In(left, right) => r := CompileIn(schema, subject, left, right);
      case And(children) =>
        if |children| < 2 { return Err(InvalidPredicate); }
        r := CompileBoolean(schema, subject, children, " AND ", depth, nodes);
      case Or(children) =>
        if |children| < 2 { return Err(InvalidPredicate); }
        r := CompileBoolean(schema, subject, children, " OR ", depth, nodes);
      case Not(children) =>
        if |children| != 1 { return Err(InvalidPredicate); }
        var child := CompilePredicate(schema, subject, children[0], depth + 1, nodes);
        r := if child.Err? then child else Ok(Negated(child.value));
      case UnknownKind => r := Err(InvalidPredicate);
    }
  }

  method CompileBoolean(schema: Schema, subject: Attributes, children: seq<Predicate>, separator: string,
          depth: nat, nodes: NodeCounter)
    returns (r: Result<SqlPredicate, Error>)
    modifies nodes
    ensures var parts := CompileEach(schema, subject, children, depth + 1, old(nodes.count));
            && nodes.count == parts.nodes
            && r == if parts.result.Err? then Err(parts.result.error) else Ok(Joined(parts.result.value, separator))
    decreases children
  {
    var parts: seq<SqlPredicate> := [];
    ghost var start := nodes.count;
    for i := 0 to |children|
      invariant CompileEach(schema, subject, children[..i], depth + 1, start) == Counted(Ok(parts), nodes.count)
    {
      CompileEachStep(schema, subject, children, i, depth + 1, start);
      var part := CompilePredicate(schema, subject, children[i], depth + 1, nodes);
      if part.Err? { return part; }
      parts := parts + [part.value];
    }
    assert children[..|children|] == children;
    var joined := JoinParts(parts, separator);
    r := Ok(joined);
  }

  method JoinParts(parts: seq<SqlPredicate>, separator: string) returns (r: SqlPredicate)
    ensures r == Joined(parts, separator)
  {
    var clauses, args := [], [];
    for i := 0 to |parts|
      invariant clauses == Clauses(parts)[..i]
      invariant args + AllArgs(parts[i..]) == AllArgs(parts)
    {
      assert parts[i..][0] == parts[i] && parts[i..][1..] == parts[i + 1..];
      clauses := clauses + [parts[i].clause];
      args := args + parts[i].args;
    }
    assert clauses == Clauses(parts);
    assert args == AllArgs(parts);
    r := SqlPredicate("(" + Join(clauses, separator) + ")", args);
  }

  /** The first i predicates are compiled; the whole result follows from the rest. */
  ghost predicate CompiledSoFar(schema: Schema, subject: Attributes, ps: seq<Predicate>, i: nat,
          compiled: seq<SqlPredicate>)
  {
    && i <= |ps| && |compiled| == i
    && var rest := CompileAlone(schema, subject, ps[i..]);
       CompileAlone(schema, subject, ps) == if rest.Err? then rest else Ok(compiled + rest.value)
  }

  lemma CompiledStart(schema: Schema, subject: Attributes, ps: seq<Predicate>)
    ensures CompiledSoFar(schema, subject, ps, 0, [])
  {
    assert ps[0..] == ps;
    var whole := CompileAlone(schema, subject, ps);
    if whole.Ok? { assert [] + whole.value == whole.value; }
  }

  lemma CompiledStep(schema: Schema, subject: Attributes, ps: seq<Predicate>, i: nat, compiled: seq<SqlPredicate>)
    requires i < |ps| && CompiledSoFar(schema, subject, ps, i, compiled)
    ensures var part := Compile(schema, subject, ps[i], 1, 0).result;
            if part.Err? then CompileAlone(schema, subject, ps) == Err(part.error)
            else CompiledSoFar(schema, subject, ps, i + 1, compiled + [part.value])
  {
    assert ps[i..][0] == ps[i] && ps[i..][1..] == ps[i + 1..];
    var part := Compile(schema, subject, ps[i], 1, 0).result;
    var rest := CompileAlone(schema, subject, ps[i + 1..]);
    if part.Ok? && rest.Ok? {
      assert compiled + ([part.value] + rest.value) == (compiled + [part.value]) + rest.value;
    }
  }

  method CompileUnion(schema: Schema, subject: Attributes, ps: seq<Predicate>) returns (r: Result<SqlPredicate, Error>)
    requires ps != []
    ensures var parts := CompileAlone(schema, subject, ps);
            r == if parts.Err? then Err(parts.error) else Ok(Union(parts.value))
  {
    var compiled: seq<SqlPredicate> := [];
    CompiledStart(schema, subject, ps);
    for i := 0 to |ps|
      invariant CompiledSoFar(schema, subject, ps, i, compiled)
    {
      CompiledStep(schema, subject, ps, i, compiled);
      var counter := new NodeCounter();
      var part := CompilePredicate(schema, subject, ps[i], 1, counter);
      if part.Err? { return part; }
      compiled := compiled + [part.value];
    }
    assert compiled + [] == compiled;
    if |compiled| == 1 { return Ok(compiled[0]); }
    var joined := JoinParts(compiled, " OR ");
    r := Ok(joined);
  }

  /** The first i scopes are sorted into allows and denies. */
  ghost predicate SortedSoFar(policies: seq<PolicyScope>, i: nat, allows: seq<Predicate>, denies: seq<Predicate>) {
    && i <= |policies| && KnownEffects(policies[..i])
    && allows + Allows(policies[i..]) == Allows(policies)
    && denies + Denies(policies[i..]) == Denies(policies)
  }

  lemma SortedStep(policies: seq<PolicyScope>, i: nat, allows: seq<Predicate>, denies: seq<Predicate>)
    requires i < |policies| && SortedSoFar(policies, i, allows, denies)
    ensures match policies[i].effect
            case Allow => SortedSoFar(policies, i + 1, allows + [policies[i].current], denies)
            case Deny =>
              SortedSoFar(policies, i + 1, allows,
                  if policies[i].hasProposed then denies else denies + [policies[i].current])
            case UnknownEffect => !KnownEffects(policies)
  {
    var scope := policies[i];
    assert policies[i..][0] == scope && policies[i..][1..] == policies[i + 1..];
    assert policies[..i + 1] == policies[..i] + [scope];
    assert allows + ([scope.current] + Allows(policies[i + 1..]))
        == (allows + [scope.current]) + Allows(policies[i + 1..]);
    assert denies + ([scope.current] + Denies(policies[i + 1..]))
        == (denies + [scope.current]) + Denies(policies[i + 1..]);
    assert [] + Allows(policies[i + 1..]) == Allows(policies[i + 1..]);
    assert [] + Denies(policies[i + 1..]) == Denies(policies[i + 1..]);
  }

  lemma SortedDone(policies: seq<PolicyScope>, allows: seq<Predicate>, denies: seq<Predicate>)
    requires SortedSoFar(policies, |policies|, allows, denies)
    ensures KnownEffects(policies) && allows == Allows(policies) && denies == Denies(policies)
  {
    assert policies[..|policies|] == policies;
  }

  method CompileScopes(schema: Schema, subject: Attributes,
          policies: seq<PolicyScope>) returns (r: Result<SqlPredicate, Error>)
    ensures r == CompilePolicies(schema, subject, policies)
  {
    var allows, denies := [], [];
    assert policies[0..] == policies;
    for i := 0 to |policies|
      invariant SortedSoFar(policies, i, allows, denies)
    {
      SortedStep(policies, i, allows, denies);
      var scope := policies[i];
      match scope.effect {
        case Allow => allows := allows + [scope.current];
        case Deny =>
          if scope.hasProposed { continue; }
          denies := denies + [scope.current];
        case UnknownEffect => return Err(InvalidPredicate);
      }
    }
    SortedDone(policies, allows, denies);
    r := CompileDifference(schema, subject, allows, denies);
  }

  method CompileDifference(schema: Schema, subject: Attributes, allows: seq<Predicate>,
          denies: seq<Predicate>) returns (r: Result<SqlPredicate, Error>)
    ensures r == Difference(schema, subject, allows, denies)
  {
    var deny := FALSE_CLAUSE;
    if |denies| > 0 {
      var compiled := CompileUnion(schema, subject, denies);
      if compiled.Err? { return compiled; }
      deny := compiled.value;
    }
    if |allows| == 0 { return Ok(FALSE_CLAUSE); }
    var allow := CompileUnion(schema, subject, allows);
    if allow.Err? { return allow; }
    if |denies| == 0 { return allow; }
    r := Ok(SqlPredicate("(" + allow.value.clause + " AND (NOT " + deny.clause + "))", allow.value.args + deny.args));
    DifferenceIsJoined(allow.value, deny);
  }

  lemma DifferenceIsJoined(a: SqlPredicate, b: SqlPredicate)
    ensures SqlPredicate("(" + a.clause + " AND (NOT " + b.clause + "))", a.args + b.args)
        == Joined([a, Negated(b)], " AND ")
  {
    var pair := [a, Negated(b)];
    var clauses := Clauses(pair);
    assert clauses == [a.clause, "(NOT " + b.clause + ")"] && clauses[1..] == ["(NOT " + b.clause + ")"];
    assert Join(clauses, " AND ") == a.clause + " AND " + ("(NOT " + b.clause + ")");
    assert pair[1..] == [Negated(b)];
    assert AllArgs([Negated(b)]) == b.args + [];
    assert "(" + a.clause + " AND (NOT " + b.clause + "))"
        == "(" + (a.clause + " AND " + ("(NOT " + b.clause + ")")) + ")";
  }

  // ---- Folding from the left ------------------------------------------------

  lemma {:induction false} CompileEachSnoc(schema: Schema, subject: Attributes, ps: seq<Predicate>, last: Predicate,
          depth: nat, nodes: nat)
    ensures var before := CompileEach(schema, subject, ps, depth, nodes);
            CompileEach(schema, subject, ps + [last], depth, nodes) ==
            if before.result.Err? then before
            else
              var v := Compile(schema, subject, last, depth, before.nodes);
              Counted(if v.result.Err? then Err(v.result.error) else Ok(before.result.value + [v.result.value]),
                  v.nodes)
    decreases |ps|
  {
    var all := ps + [last];
    if ps == [] {
      assert all == [last] && all[1..] == [];
      var v := Compile(schema, subject, last, depth, nodes).result;
      if v.Ok? {
        assert [v.value] + [] == [] + [v.value];
      }
    } else {
      assert all[0] == ps[0] && all[1..] == ps[1..] + [last];
      var first := Compile(schema, subject, ps[0], depth, nodes);
      if first.result.Ok? {
        CompileEachSnoc(schema, subject, ps[1..], last, depth, first.nodes);
        var rest := CompileEach(schema, subject, ps[1..], depth, first.nodes);
        if rest.result.Ok? {
          var v := Compile(schema, subject, last, depth, rest.nodes).result;
          if v.Ok? {
            assert ([first.result.value] + rest.result.value) + [v.value]
                == [first.result.value] + (rest.result.value + [v.value]);
          }
        }
      }
    }
  }

  lemma {:induction false} CompileEachErr(schema: Schema, subject: Attributes, ps: seq<Predicate>,
          more: seq<Predicate>, depth: nat, nodes: nat)
    requires CompileEach(schema, subject, ps, depth, nodes).result.Err?
    ensures CompileEach(schema, subject, ps + more, depth, nodes) == CompileEach(schema, subject, ps, depth, nodes)
    decreases |ps|
  {
    assert (ps + more)[0] == ps[0] && (ps + more)[1..] == ps[1..] + more;
    var first := Compile(schema, subject, ps[0], depth, nodes);
    if first.result.Ok? {
      CompileEachErr(schema, subject, ps[1..], more, depth, first.nodes);
    }
  }

  lemma CompileEachStep(schema: Schema, subject: Attributes, ps: seq<Predicate>, i: nat, depth: nat, nodes: nat)
    requires i < |ps|
    ensures var before := CompileEach(schema, subject, ps[..i], depth, nodes);
            before.result.Ok? ==>
              var v := Compile(schema, subject, ps[i], depth, before.nodes);
              var now :=
                  Counted(if v.result.Err? then Err(v.result.error) else Ok(before.result.value + [v.result.value]),
                      v.nodes);
              && CompileEach(schema, subject, ps[..i + 1], depth, nodes) == now
              && (now.result.Err? ==> CompileEach(schema, subject, ps, depth, nodes) == now)
  {
    assert ps[..i + 1] == ps[..i] + [ps[i]];
    CompileEachSnoc(schema, subject, ps[..i], ps[i], depth, nodes);
    if CompileEach(schema, subject, ps[..i + 1], depth, nodes).result.Err? {
      assert ps[..i + 1] + ps[i + 1..] == ps;
      CompileEachErr(schema, subject, ps[..i + 1], ps[i + 1..], depth, nodes);
    }
  }
}
