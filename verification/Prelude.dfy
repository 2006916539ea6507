/** Small definitions shared by the other modules. */
module Prelude {

  datatype Option<+T> = None | Some(value: T)

  ghost predicate Distinct<T>(s: seq<T>) { forall i, j :: 0 <= i < j < |s| ==> s[i] != s[j] }

  function Max(a: nat, b: nat): nat { if a >= b then a else b }

  /** How far apart two integers are. */
  function Distance(a: int, b: int): nat { if a >= b then a - b else b - a }

  lemma Regrouped<T>(a: seq<T>, b: seq<T>, c: seq<T>)
    ensures a + b + c == a + (b + c)
  {
  }
}
