/** Small shared vocabulary: an optional value for the operations that raise
    in the source, monotonicity predicates and sums over sequences. */
module Common {

  /** A value, or nothing when the source raises (empty input, division by zero). */
  datatype Option<T> = None | Some(value: T)

  ghost predicate NonDecreasing(s: seq<real>)
  {
    forall i, j :: 0 <= i <= j < |s| ==> s[i] <= s[j]
  }

  ghost predicate StrictlyIncreasing(s: seq<real>)
  {
    forall i, j :: 0 <= i < j < |s| ==> s[i] < s[j]
  }

  /** Scaling by a non-negative factor preserves order. */
  lemma MulMonotone(a: real, b: real, s: real)
    requires a <= b && 0.0 <= s
    ensures a * s <= b * s && s * a <= s * b
  {
    assert b * s - a * s == (b - a) * s;
  }

  /** The sum of a sequence of reals, built up from its last element. */
  function Sum(s: seq<real>): real
  {
    if |s| == 0 then 0.0 else Sum(s[..|s| - 1]) + s[|s| - 1]
  }

  /** The sum of a sequence of counts. */
  function SumNat(s: seq<nat>): nat
  {
    if |s| == 0 then 0 else SumNat(s[..|s| - 1]) + s[|s| - 1]
  }
}
