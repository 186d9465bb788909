/** Failure-free building blocks shared by every component of the model. */
module Prelude {

  datatype Option<+T> = None | Some(value: T)

  datatype Result<+T, +E> = Ok(value: T) | Err(error: E)

  /** The last row wanted, if there is one. */
  function FindLast<T>(rows: seq<T>, wanted: T -> bool): (found: Option<nat>)
    ensures found.Some? ==> found.value < |rows| && wanted(rows[found.value])
    ensures found.None? ==> forall i :: 0 <= i < |rows| ==> !wanted(rows[i])
  {
    if rows == [] then None
    else if wanted(rows[|rows| - 1]) then Some(|rows| - 1)
    else FindLast(rows[..|rows| - 1], wanted)
  }

  lemma {:induction false} FindLastAlike<T>(a: seq<T>, b: seq<T>, wanted: T -> bool)
    requires |a| == |b| && forall i :: 0 <= i < |a| ==> wanted(a[i]) == wanted(b[i])
    ensures FindLast(a, wanted) == FindLast(b, wanted)
    decreases |a|
  {
    if a != [] && !wanted(a[|a| - 1]) {
      FindLastAlike(a[..|a| - 1], b[..|b| - 1], wanted);
    }
  }

  /** An injection into `codomain` bounds the size of its domain. */
  lemma {:induction false} InjectionBound<A(!new), B>(domain: set<A>, f: A -> B, codomain: set<B>)
    requires forall x :: x in domain ==> f(x) in codomain
    requires forall x, y :: x in domain && y in domain && f(x) == f(y) ==> x == y
    ensures |domain| <= |codomain|
    decreases |domain|
  {
    if domain != {} {
      var x :| x in domain;
      InjectionBound(domain - {x}, f, codomain - {f(x)});
    }
  }
}
