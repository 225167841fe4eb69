/** Failure-compatible datatypes shared by every module. */
module Wrappers {

  datatype Option<+T> = None | Some(value: T) {

    function GetOr(default: T): T {
      match this
      case Some(v) => v
      case None => default
    }
  }

  datatype Result<+R, +E> = Success(value: R) | Failure(error: E) {

    function PropagateFailure<U>(): Result<U, E>
      requires Failure?
    {
      Failure(error)
    }
  }

  /** Some element of a non-empty set. */
  ghost function Any<T>(s: set<T>): (x: T)
    requires s != {}
    ensures x in s
  {
    var x :| x in s;
    x
  }

  lemma SetExt<T(!new)>(a: set<T>, b: set<T>)
    requires forall x :: x in a <==> x in b
    ensures a == b
  {
  }

  lemma MapExt<K(!new), V>(a: map<K, V>, b: map<K, V>)
    requires forall k :: k in a <==> k in b
    requires forall k | k in a :: a[k] == b[k]
    ensures a == b
  {
  }

  /** The elements of a set in some order, as iterating over it visits them. */
  method Elements<T>(s: set<T>) returns (r: seq<T>)
    ensures forall x :: x in r <==> x in s
    ensures |r| == |s| && forall i, j | 0 <= i < j < |r| :: r[i] != r[j]
  {
    r := [];
    var rest := s;
    while rest != {}
      invariant forall x :: x in s <==> x in r || x in rest
      invariant |r| + |rest| == |s|
      invariant (forall x | x in r :: x !in rest) && forall i, j | 0 <= i < j < |r| :: r[i] != r[j]
    {
      var x :| x in rest;
      rest := rest - {x};
      r := r + [x];
    }
  }

  /** The next element in ascending order. */
  method Least(s: set<int>) returns (c: int)
    requires s != {}
    ensures c in s && forall d | d in s :: c <= d
  {
    var order := Elements(s);
    assert Any(s) in order;
    c := order[0];
    assert c in order;
    for i := 1 to |order|
      invariant c in s && forall j | 0 <= j < i :: c <= order[j]
    {
      assert order[i] in order;
      if order[i] < c {
        c := order[i];
      }
    }
    assert forall d | d in s :: d in order;
  }
}
