/** The predicate IR of internal/datapermission/predicate.go and the resource schema. */
module PredicateIr {
  import opened Wrappers

  const MAX_NODES: nat := 256
  const MAX_DEPTH: nat := 32

  /** Go's `any`: text, a text list, or a value of another dynamic type. */
  datatype Value = Text(text: string) | TextList(texts: seq<string>) | OtherValue(tag: int)

  datatype Operand =
    | NoOperand
    | ResourceField(name: string)
    | ProposedField(name: string)
    | SubjectField(name: string)
    | Literal(literal: Value)

  datatype Predicate =
    | Empty
    | Equal(left: Operand, right: Operand)
    | In(left: Operand, right: Operand)
    | And(children: seq<Predicate>)
    | Or(children: seq<Predicate>)
    | Not(children: seq<Predicate>)
    | UnknownKind

  datatype Error =
    | InvalidPredicate
    | TooComplex
    | ResourceFieldUnknown
    | ResourceAttributeMissing
    | SubjectAttributeMissing
    | SubjectAttributeUnknown
    | TypeMismatch

  datatype SubjectType = TextType | TextListType

  function SubjectFieldType(name: string): Option<SubjectType> {
    if name == "id" || name == "tenant_id" || name == "membership_id" then Some(TextType)
    else if name == "role_codes" || name == "department_ids" then Some(TextListType)
    else None
  }

  datatype Effect = Allow | Deny | UnknownEffect

  datatype PolicyScope = PolicyScope(effect: Effect, current: Predicate, proposed: Predicate, hasProposed: bool)

  type Attributes = map<string, Value>

  /** Logical field name to SQL column. */
  type Schema = map<string, string>

  predicate IdentStart(c: char) { 'a' <= c <= 'z' || c == '_' }

  predicate IdentChar(c: char) { IdentStart(c) || '0' <= c <= '9' }

  predicate IsIdent(s: string) {
    s != "" && IdentStart(s[0]) && forall i | 0 <= i < |s| :: IdentChar(s[i])
  }

  /** `columnNamePattern`: an identifier, or two of them around a dot. */
  predicate IsColumn(s: string) {
    IsIdent(s) || exists i | 0 < i < |s| :: s[i] == '.' && IsIdent(s[..i]) && IsIdent(s[i + 1..])
  }

  predicate ValidSchema(schema: Schema) {
    forall f | f in schema :: IsColumn(schema[f])
  }
}
