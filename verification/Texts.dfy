/** Text as strings.Contains, the database's LIKE, strings.Compare and sort.Strings treat it. */
module Texts {
  predicate Contains(text: string, part: string) {
    exists i | 0 <= i <= |text| :: part <= text[i..]
  }

  /** `strings.Compare`. */
  function CompareText(a: string, b: string): int {
    if a == "" && b == "" then 0
    else if a == "" then -1
    else if b == "" then 1
    else if a[0] < b[0] then -1
    else if a[0] > b[0] then 1
    else CompareText(a[1..], b[1..])
  }

  lemma {:induction false} TextOrder(a: string, b: string, c: string)
    ensures CompareText(a, b) == -CompareText(b, a)
    ensures CompareText(a, b) == 0 <==> a == b
    ensures CompareText(a, b) <= 0 && CompareText(b, c) <= 0 ==> CompareText(a, c) <= 0
    ensures CompareText(a, b) <= 0 && CompareText(b, c) <= 0 && CompareText(a, c) == 0 ==>
        CompareText(a, b) == 0 && CompareText(b, c) == 0
    decreases |a| + |b| + |c|
  {
    if a != "" && b != "" {
      TextOrder(a[1..], b[1..], if c == "" then "" else c[1..]);
      assert a == [a[0]] + a[1..] && b == [b[0]] + b[1..];
    }
  }

  predicate StrictlySorted(values: seq<string>) {
    forall i, j | 0 <= i < j < |values| :: CompareText(values[i], values[j]) < 0
  }

  function InsertText(value: string, values: seq<string>): seq<string> {
    if values == [] then [value]
    else
      var c := CompareText(value, values[0]);
      if c < 0 then [value] + values else if c == 0 then values else [values[0]] + InsertText(value, values[1..])
  }

  lemma {:induction false} InsertTextMembers(value: string, values: seq<string>)
    ensures forall x :: x in InsertText(value, values) <==> x == value || x in values
    decreases |values|
  {
    if values == [] {
    } else {
      TextOrder(value, values[0], value);
      InsertTextMembers(value, values[1..]);
      assert values == [values[0]] + values[1..];
    }
  }

  lemma {:induction false} InsertTextSorted(value: string, values: seq<string>)
    requires StrictlySorted(values)
    ensures StrictlySorted(InsertText(value, values))
    decreases |values|
  {
    if values == [] {
    } else {
      var c := CompareText(value, values[0]);
      TextOrder(value, values[0], value);
      if c < 0 {
        forall j | 0 < j < |values| ensures CompareText(value, values[j]) < 0 {
          TextOrder(value, values[0], values[j]);
        }
      } else if c > 0 {
        var rest := InsertText(value, values[1..]);
        InsertTextSorted(value, values[1..]);
        InsertTextMembers(value, values[1..]);
        forall j | 0 <= j < |rest| ensures CompareText(values[0], rest[j]) < 0 {
          TextOrder(values[0], value, values[0]);
          assert rest[j] in rest;
          if rest[j] != value {
            var k :| 0 <= k < |values[1..]| && values[1..][k] == rest[j];
            assert values[k + 1] == rest[j];
          }
        }
      }
    }
  }
}
