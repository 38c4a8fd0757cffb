/** How far a sequence of attempts goes before the first one that fails. */
module Leading {
  function Count<T>(xs: seq<T>, ok: T -> bool): (k: nat)
    ensures k <= |xs|
    ensures forall j :: 0 <= j < k ==> ok(xs[j])
    ensures k < |xs| ==> !ok(xs[k])
  {
    if xs == [] || !ok(xs[0]) then 0 else 1 + Count(xs[1..], ok)
  }
}
