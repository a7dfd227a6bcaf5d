/** Linear first-match search, as `Iterator::position` and `Iterator::find` perform it. */
module Search {
  import opened Wrappers

  /** The index of the first element of `xs` equal to `x`, or None when there is none. */
  function IndexOf<T(==)>(xs: seq<T>, x: T): (r: Option<nat>)
    ensures r.Some? ==> r.value < |xs| && xs[r.value] == x
    ensures r.Some? ==> forall j :: 0 <= j < r.value ==> xs[j] != x
    ensures r.None? <==> x !in xs
  {
    if xs == [] then None
    else if xs[0] == x then Some(0)
    else match IndexOf(xs[1..], x)
      case None => None
      case Some(i) => Some(i + 1)
  }

  /** The scan itself: walks `xs` from the front and stops at the first match. */
  method FindIndex<T(==)>(xs: seq<T>, x: T) returns (r: Option<nat>)
    ensures r == IndexOf(xs, x)
  {
    var i := 0;
    while i < |xs|
      invariant 0 <= i <= |xs|
      invariant forall j :: 0 <= j < i ==> xs[j] != x
    {
      if xs[i] == x {
        return Some(i);
      }
      i := i + 1;
    }
    return None;
  }
}
