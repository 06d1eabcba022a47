/** Insertion into a list kept in a strict total order: the result of Python's `sorted`
    on distinct keys, which such an order determines uniquely. */
module Sorting {
  import opened Basics

  ghost predicate StrictTotal<T(!new)>(lt: (T, T) -> bool) {
    && (forall x, y, z :: lt(x, y) && lt(y, z) ==> lt(x, z))
    && (forall x, y :: x != y ==> lt(x, y) || lt(y, x))
    && (forall x :: !lt(x, x))
  }

  ghost predicate Sorted<T>(xs: seq<T>, lt: (T, T) -> bool) {
    forall i, j | 0 <= i < j < |xs| :: lt(xs[i], xs[j])
  }

  function Insert<T(!new)>(x: T, xs: seq<T>, lt: (T, T) -> bool): (r: seq<T>)
    requires StrictTotal(lt) && Sorted(xs, lt) && x !in xs
    ensures Sorted(r, lt) && |r| == |xs| + 1
    ensures forall y :: y in r <==> y == x || y in xs
  {
    if xs == [] || lt(x, xs[0]) then [x] + xs
    else
      assert xs[0] in xs;
      var t := Insert(x, xs[1..], lt);
      assert forall y | y in t :: lt(xs[0], y) by {
        forall y | y in t ensures lt(xs[0], y) {
          if y in xs[1..] { var i :| 0 < i < |xs| && xs[i] == y; }
        }
      }
      [xs[0]] + t
  }

  function Sort<T(!new)>(xs: seq<T>, lt: (T, T) -> bool): (r: seq<T>)
    requires StrictTotal(lt) && Distinct(xs)
    ensures Sorted(r, lt) && |r| == |xs|
    ensures forall y :: y in r <==> y in xs
  {
    if xs == [] then [] else Insert(xs[0], Sort(xs[1..], lt), lt)
  }
}
