/** `VFMaxEnt` of vf_maxent/vf_maxent.py: a volume-fraction profile made of n
    equally thick slabs, slab i holding polymer at volume fraction beta_i and
    solvent in the rest. Parameters are plain values here. */
module VfMaxEnt {
  import opened Common

  /** The range every beta parameter is given. */
  const MinBeta: real := 0.00001
  const MaxBeta: real := 1.0
  /** Roughness the first slab gets whatever `rough` is. */
  const FirstRoughness: real := 4.0
  /** Columns of a slab table: thickness, sld real, sld imag, roughness, solvent fraction. */
  const SlabColumns: nat := 5

  datatype VFMaxEnt = VFMaxEnt(dryThickness: real, sldReal: real, sldImag: real, betas: seq<real>,
                               totalThickness: real, alpha: real, rough: real)

  /** `slab_thickness`: the profile's total thickness shared equally among the
      slabs; with no betas the division fails. */
  function SlabThickness(m: VFMaxEnt): (t: Option<real>)
    ensures t.None? <==> |m.betas| == 0
    ensures t.Some? ==> t.value * (|m.betas| as real) == m.totalThickness
  {
    if |m.betas| == 0 then None else Some(m.totalThickness / (|m.betas| as real))
  }

  /** `np.sum(betas * t)`. */
  function ScaledSum(betas: seq<real>, t: real): real
  {
    if |betas| == 0 then 0.0 else ScaledSum(betas[..|betas| - 1], t) + betas[|betas| - 1] * t
  }

  lemma {:induction false} ScaledSumFactor(betas: seq<real>, t: real)
    ensures ScaledSum(betas, t) == Sum(betas) * t
  {
    if |betas| > 0 {
      ScaledSumFactor(betas[..|betas| - 1], t);
    }
  }

  /** `adsorbed_amount`: the polymer in all slabs together; it fails with
      `slab_thickness` when there are no betas. */
  function AdsorbedAmount(m: VFMaxEnt): (amount: Option<real>)
    ensures amount.None? <==> |m.betas| == 0
  {
    if |m.betas| == 0 then None else Some(ScaledSum(m.betas, SlabThickness(m).value))
  }

  /** The adsorbed amount is the mean volume fraction times the total thickness. */
  lemma AdsorbedAmountIsMeanTimesThickness(m: VFMaxEnt)
    requires |m.betas| > 0
    ensures AdsorbedAmount(m).value == Sum(m.betas) * m.totalThickness / (|m.betas| as real)
  {
    ScaledSumFactor(m.betas, SlabThickness(m).value);
  }

  lemma {:induction false} SumWithin(s: seq<real>, lo: real, hi: real)
    requires forall i :: 0 <= i < |s| ==> lo <= s[i] <= hi
    ensures (|s| as real) * lo <= Sum(s) <= (|s| as real) * hi
  {
    if |s| > 0 {
      SumWithin(s[..|s| - 1], lo, hi);
    }
  }

  /** With every beta in its range and a non-negative thickness, the adsorbed
      amount lies between MinBeta and MaxBeta times the total thickness. */
  lemma AdsorbedAmountWithin(m: VFMaxEnt)
    requires |m.betas| > 0 && 0.0 <= m.totalThickness
    requires forall i :: 0 <= i < |m.betas| ==> MinBeta <= m.betas[i] <= MaxBeta
    ensures MinBeta * m.totalThickness <= AdsorbedAmount(m).value <= MaxBeta * m.totalThickness
  {
    var n := |m.betas| as real;
    var t := SlabThickness(m).value;
    ScaledSumFactor(m.betas, t);
    SumWithin(m.betas, MinBeta, MaxBeta);
    assert 0.0 <= t;
    MulMonotone(n * MinBeta, Sum(m.betas), t);
    MulMonotone(Sum(m.betas), n * MaxBeta, t);
    assert n * MinBeta * t == MinBeta * (t * n);
    assert n * MaxBeta * t == MaxBeta * (t * n);
  }

  /** `slabs[:, column] = value`. */
  method FillColumn(a: array2<real>, column: nat, value: real)
    requires column < a.Length1
    modifies a
    ensures forall i :: 0 <= i < a.Length0 ==> a[i, column] == value
    ensures forall i, j :: 0 <= i < a.Length0 && 0 <= j < a.Length1 && j != column ==> a[i, j] == old(a[i, j])
  {
    for i := 0 to a.Length0
      invariant forall i' :: 0 <= i' < i ==> a[i', column] == value
      invariant forall i', j :: 0 <= i' < a.Length0 && 0 <= j < a.Length1 && (j != column || i <= i') ==>
        a[i', j] == old(a[i', j])
    {
      a[i, column] := value;
    }
  }

  /** `slabs[:, column] = 1 - betas`. */
  method FillSolventColumn(a: array2<real>, column: nat, betas: seq<real>)
    requires column < a.Length1 && |betas| == a.Length0
    modifies a
    ensures forall i :: 0 <= i < a.Length0 ==> a[i, column] == 1.0 - betas[i]
    ensures forall i, j :: 0 <= i < a.Length0 && 0 <= j < a.Length1 && j != column ==> a[i, j] == old(a[i, j])
  {
    for i := 0 to a.Length0
      invariant forall i' :: 0 <= i' < i ==> a[i', column] == 1.0 - betas[i']
      invariant forall i', j :: 0 <= i' < a.Length0 && 0 <= j < a.Length1 && (j != column || i <= i') ==>
        a[i', j] == old(a[i', j])
    {
      a[i, column] := 1.0 - betas[i];
    }
  }

  /** `slabs`: one row per beta of thickness, sld, roughness and solvent
      fraction, the first slab's roughness forced to 4. With no betas the
      slab thickness fails, which is `None`. */
  method Slabs(m: VFMaxEnt) returns (table: Option<array2<real>>)
    ensures table.None? <==> |m.betas| == 0
    ensures table.Some? ==> fresh(table.value)
    ensures table.Some? ==>
      var a := table.value;
      a.Length0 == |m.betas| && a.Length1 == SlabColumns &&
      (forall i :: 0 <= i < a.Length0 ==>
         a[i, 0] == SlabThickness(m).value &&
         a[i, 1] == m.sldReal && a[i, 2] == m.sldImag &&
         a[i, 3] == (if i == 0 then FirstRoughness else m.rough) &&
         a[i, 4] == 1.0 - m.betas[i]) &&
      ((forall i :: 0 <= i < |m.betas| ==> MinBeta <= m.betas[i] <= MaxBeta) ==>
         forall i :: 0 <= i < a.Length0 ==> 0.0 <= a[i, 4] <= 1.0 - MinBeta)
  {
    var n := |m.betas|;
    if n == 0 {
      return None;
    }
    var a := new real[n, SlabColumns]((_, _) => 0.0);
    FillColumn(a, 0, SlabThickness(m).value);
    FillColumn(a, 1, m.sldReal);
    FillColumn(a, 2, m.sldImag);
    FillColumn(a, 3, m.rough);
    FillSolventColumn(a, 4, m.betas);
    a[0, 3] := FirstRoughness;
    table := Some(a);
  }
}
