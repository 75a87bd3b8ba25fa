/** Python's order on strings: code point by code point, a prefix first. */
module Lexicographic {

  predicate Le(a: string, b: string) {
    if a == [] then true
    else if b == [] then false
    else a[0] < b[0] || (a[0] == b[0] && Le(a[1..], b[1..]))
  }

  /** A closed window compared as text. */
  predicate Within(lower: string, time: string, upper: string) {
    Le(lower, time) && Le(time, upper)
  }

  lemma {:induction false} LeReflexive(a: string)
    ensures Le(a, a)
  {
    if a != [] {
      LeReflexive(a[1..]);
    }
  }

  lemma {:induction false} LeTransitive(a: string, b: string, c: string)
    requires Le(a, b) && Le(b, c)
    ensures Le(a, c)
  {
    if a != [] && a[0] == b[0] == c[0] {
      LeTransitive(a[1..], b[1..], c[1..]);
    }
  }

  lemma {:induction false} LeTotal(a: string, b: string)
    ensures Le(a, b) || Le(b, a)
  {
    if a != [] && b != [] && a[0] == b[0] {
      LeTotal(a[1..], b[1..]);
    }
  }

  /** `max` of a nonempty sequence of strings. */
  function Max(values: seq<string>): string
    requires values != []
  {
    if |values| == 1 then values[0]
    else
      var rest := Max(values[1..]);
      if Le(rest, values[0]) then values[0] else rest
  }

  /** `min` of a nonempty sequence of strings. */
  function Min(values: seq<string>): string
    requires values != []
  {
    if |values| == 1 then values[0]
    else
      var rest := Min(values[1..]);
      if Le(values[0], rest) then values[0] else rest
  }

  lemma {:induction false} MaxBounds(values: seq<string>, x: string)
    requires values != []
    ensures Le(Max(values), x) <==> forall i :: 0 <= i < |values| ==> Le(values[i], x)
  {
    if |values| > 1 {
      var rest := Max(values[1..]);
      MaxBounds(values[1..], x);
      assert forall i :: 1 <= i < |values| ==> values[i] == values[1..][i - 1];
      LeTotal(rest, values[0]);
      if Le(rest, values[0]) {
        if Le(values[0], x) {
          LeTransitive(rest, values[0], x);
        }
      } else if Le(rest, x) {
        LeTransitive(values[0], rest, x);
      }
    }
  }

  lemma {:induction false} MinBounds(values: seq<string>, x: string)
    requires values != []
    ensures Le(x, Min(values)) <==> forall i :: 0 <= i < |values| ==> Le(x, values[i])
  {
    if |values| > 1 {
      var rest := Min(values[1..]);
      MinBounds(values[1..], x);
      assert forall i :: 1 <= i < |values| ==> values[i] == values[1..][i - 1];
      LeTotal(rest, values[0]);
      if Le(values[0], rest) {
        if Le(x, values[0]) {
          LeTransitive(x, values[0], rest);
        }
      } else if Le(x, rest) {
        LeTransitive(x, rest, values[0]);
      }
    }
  }
}
