/** Simulated time and the few helpers every simulator of the repository shares.

    Times are exact reals.  The sources compute in `double` and compare with a
    tolerance of 1e-9; the model sets that tolerance to zero.
 */
module SimTime {

  datatype Option<+T> = None | Some(value: T)

  function Max(a: real, b: real): real {
    if a < b then b else a
  }

  function Min(a: real, b: real): real {
    if b < a then b else a
  }

  function NatMax(a: nat, b: nat): nat {
    if a < b then b else a
  }

  function NatMin(a: nat, b: nat): nat {
    if b < a then b else a
  }

  /** The sum of a sequence, taken from its last element. */
  function Sum(xs: seq<real>): real {
    if |xs| == 0 then 0.0 else Sum(xs[..|xs| - 1]) + xs[|xs| - 1]
  }

  lemma SumTake(xs: seq<real>, n: nat)
    requires n < |xs|
    ensures Sum(xs[..n + 1]) == Sum(xs[..n]) + xs[n]
  {
    assert xs[..n + 1][..n] == xs[..n];
  }
}
