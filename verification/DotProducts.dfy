/** The quantization error of a dot product: each term's own bound, weighted by its input. */
module DotProducts {
  import opened Options
  import opened Int4

  /** The unit roundoff of single precision. */
  const UNIT: real := 1.0 / 16777216.0

  /** What one unit of input costs at a stored scale and zero point, `ulp` being the spacing of
      the stored numbers at a value. */
  function TermBound(s: real, z: real, ulp: real -> real): real {
    if s == 0.0 then
      ulp(z) / 2.0
    else
      var ds := ulp(s) / 2.0 + 2.0 * UNIT * s;
      var dz := ulp(z) / 2.0 + UNIT * Abs(z);
      s / 2.0 + 15.0 * ds + dz * s
  }

  function Total(terms: seq<real>, n: nat): real
    requires n <= |terms|
  {
    if n == 0 then 0.0 else Total(terms, n - 1) + terms[n - 1]
  }

  function Products(x: seq<real>, w: seq<real>): seq<real>
    requires |x| == |w|
  {
    seq(|x|, i requires 0 <= i < |x| => x[i] * w[i])
  }

  function Dot(x: seq<real>, w: seq<real>): real
    requires |x| == |w|
  {
    Total(Products(x, w), |x|)
  }

  /** The terms of the bound: each input's size times what one unit of it costs. */
  function Charges(x: seq<real>, bounds: seq<real>): seq<real>
    requires |x| == |bounds|
  {
    seq(|x|, i requires 0 <= i < |x| => Abs(x[i]) * bounds[i])
  }

  function Bounds(scales: seq<real>, zeros: seq<real>, ulp: real -> real): seq<real>
    requires |scales| == |zeros|
  {
    seq(|scales|, i requires 0 <= i < |scales| => TermBound(scales[i], zeros[i], ulp))
  }

  function BoundSum(x: seq<real>, scales: seq<real>, zeros: seq<real>, ulp: real -> real): real
    requires |x| == |scales| == |zeros|
  {
    Total(Charges(x, Bounds(scales, zeros, ulp)), |x|)
  }

  /** One scale and one zero point per term, or nothing. */
  method Int4ErrorBound(x: seq<real>, scales: seq<real>, zeros: seq<real>, ulp: real -> real) returns (r: Option<real>)
    ensures r.None? <==> |scales| != |x| || |zeros| != |x|
    ensures r.Some? ==> r.value == BoundSum(x, scales, zeros, ulp)
  {
    if |scales| != |x| || |zeros| != |x| {
      return None;
    }
    var sum := 0.0;
    for i := 0 to |x|
      invariant sum == Total(Charges(x, Bounds(scales, zeros, ulp)), i)
    {
      var s, z := scales[i], zeros[i];
      var e := ulp(z) / 2.0;
      if s != 0.0 {
        var ds := ulp(s) / 2.0 + 2.0 * UNIT * s;
        var dz := ulp(z) / 2.0 + UNIT * Abs(z);
        e := s / 2.0 + 15.0 * ds + dz * s;
      }
      sum := sum + Abs(x[i]) * e;
    }
    r := Some(sum);
  }

  /** A term within its bound: its group's scale and zero point moved by no more than the bound
      charges when they were stored, or its group is one value and only the zero point moved. */
  predicate Charged(w: seq<real>, half: real -> real, t: Stored, ulp: real -> real, i: nat)
    requires i < |w| && |t.scales| == |t.zeros| == Groups(|w|)
  {
    InGroup(|w|, i);
    var group, s, z := GroupOf(w, i / GROUP), t.scales[i / GROUP], t.zeros[i / GROUP];
    if s > 0.0 then
      && Abs(IdealScale(group) - s) <= ulp(s) / 2.0 + 2.0 * UNIT * s
      && Abs(IdealZero(group, s) - z) <= ulp(z) / 2.0 + UNIT * Abs(z)
    else
      s == 0.0 && Greatest(group) == Least(group) && Abs(w[i] - half(w[i])) <= ulp(z) / 2.0
  }

  lemma TermCovers(w: seq<real>, half: real -> real, t: Stored, ulp: real -> real, i: nat)
    requires Quantized(w, half, t) && i < |w| && Charged(w, half, t, ulp, i)
    ensures i / 8 < |t.packed| && i / GROUP < |t.scales|
    ensures Abs(w[i] - ValueAt(t, i)) <= TermBound(t.scales[i / GROUP], t.zeros[i / GROUP], ulp)
  {
    GroupBound(w, half, t, i);
    var group, s, z := GroupOf(w, i / GROUP), t.scales[i / GROUP], t.zeros[i / GROUP];
    if s > 0.0 {
      ChargedBound(s, z, IdealScale(group), IdealZero(group, s), ulp);
    }
  }

  /** A term of the bound is the weight bound at the furthest storing can have moved the scale and the zero
      point: half a unit of the stored number each, and the rounding of the divisions before it. */
  lemma TermIsWorst(s: real, z: real, ulp: real -> real)
    requires s > 0.0 && ulp(s) >= 0.0 && ulp(z) >= 0.0
    ensures var ds, dz := ulp(s) / 2.0 + s / 8388608.0, ulp(z) / 2.0 + Abs(z) / 16777216.0;
            && TermBound(s, z, ulp) == ErrorBound(s, z, s + ds, z + dz)
            && forall idealScale, idealZero :: Abs(idealScale - s) <= ds && Abs(idealZero - z) <= dz ==>
                 ErrorBound(s, z, idealScale, idealZero) <= TermBound(s, z, ulp)
  {
    var ds, dz := ulp(s) / 2.0 + s / 8388608.0, ulp(z) / 2.0 + Abs(z) / 16777216.0;
    forall idealScale, idealZero | Abs(idealScale - s) <= ds && Abs(idealZero - z) <= dz
      ensures ErrorBound(s, z, idealScale, idealZero) <= TermBound(s, z, ulp)
    {
      TimesPositive(dz - Abs(idealZero - z), s);
    }
  }

  lemma TimesPositive(a: real, s: real)
    requires a >= 0.0 && s > 0.0
    ensures a * s >= 0.0
  {
  }

  lemma ChargedBound(s: real, z: real, idealScale: real, idealZero: real, ulp: real -> real)
    requires s > 0.0
    requires Abs(idealScale - s) <= ulp(s) / 2.0 + 2.0 * UNIT * s
    requires Abs(idealZero - z) <= ulp(z) / 2.0 + UNIT * Abs(z)
    ensures ErrorBound(s, z, idealScale, idealZero) <= TermBound(s, z, ulp)
  {
    MulMonotone(Abs(idealZero - z), ulp(z) / 2.0 + UNIT * Abs(z), s);
  }

  lemma MulMonotone(a: real, b: real, s: real)
    requires a <= b && s >= 0.0
    ensures a * s <= b * s
  {
  }

  /** A term over stored weights reads weight k, and its group's numbers. */
  ghost predicate TermReads(w: seq<real>, t: Stored, k: nat, original: real, read: real, s: real, z: real) {
    && k < |w| && k / 8 < |t.packed| && k / GROUP < |t.scales| && k / GROUP < |t.zeros|
    && original == w[k] && read == ValueAt(t, k) && s == t.scales[k / GROUP] && z == t.zeros[k / GROUP]
  }

  ghost predicate TermsRead(w: seq<real>, t: Stored, index: seq<nat>,
                            original: seq<real>, read: seq<real>, scales: seq<real>, zeros: seq<real>) {
    && |index| == |original| == |read| == |scales| == |zeros|
    && forall i :: 0 <= i < |index| ==> TermReads(w, t, index[i], original[i], read[i], scales[i], zeros[i])
  }

  /** A dot product over weights read back is off by at most the bound, whichever weights its
      terms name and in whatever order. */
  lemma DotProductBound(
      w: seq<real>, half: real -> real, t: Stored, ulp: real -> real, x: seq<real>, index: seq<nat>,
      original: seq<real>, read: seq<real>, scales: seq<real>, zeros: seq<real>)
    requires Quantized(w, half, t) && TermsRead(w, t, index, original, read, scales, zeros)
    requires |x| == |index|
    requires forall k: nat :: k in index ==> k < |w| && Charged(w, half, t, ulp, k)
    ensures Abs(Dot(x, original) - Dot(x, read)) <= BoundSum(x, scales, zeros, ulp)
  {
    var bounds := Bounds(scales, zeros, ulp);
    forall i | 0 <= i < |x|
      ensures Close(original[i], read[i], bounds[i])
    {
      assert TermReads(w, t, index[i], original[i], read[i], scales[i], zeros[i]);
      assert index[i] in index;
      TermCovers(w, half, t, ulp, index[i]);
    }
    DotsClose(x, original, read, bounds);
  }

  /** Weights within their bounds give dot products within the weighted sum of the bounds. */
  lemma DotsClose(x: seq<real>, w: seq<real>, v: seq<real>, bounds: seq<real>)
    requires |x| == |w| == |v| == |bounds|
    requires forall i :: 0 <= i < |x| ==> Close(w[i], v[i], bounds[i])
    ensures Abs(Dot(x, w) - Dot(x, v)) <= Total(Charges(x, bounds), |x|)
  {
    forall i | 0 <= i < |x|
      ensures Close(Products(x, w)[i], Products(x, v)[i], Charges(x, bounds)[i])
    {
      ProductsClose(x, w, v, bounds, i);
    }
    ErrorsAddUp(Products(x, w), Products(x, v), Charges(x, bounds), |x|);
  }

  lemma ProductsClose(x: seq<real>, w: seq<real>, v: seq<real>, bounds: seq<real>, i: nat)
    requires i < |x| == |w| == |v| == |bounds| && Close(w[i], v[i], bounds[i])
    ensures Close(Products(x, w)[i], Products(x, v)[i], Charges(x, bounds)[i])
  {
    var a, b, c, e := x[i], w[i], v[i], bounds[i];
    ProductBound(a, b, c, e);
    assert Products(x, w)[i] == a * b && Products(x, v)[i] == a * c && Charges(x, bounds)[i] == Abs(a) * e;
  }

  predicate Close(a: real, b: real, e: real) { Abs(a - b) <= e }

  lemma {:induction false} ErrorsAddUp(a: seq<real>, b: seq<real>, errors: seq<real>, n: nat)
    requires n <= |a| == |b| == |errors|
    requires forall i :: 0 <= i < n ==> Close(a[i], b[i], errors[i])
    ensures Abs(Total(a, n) - Total(b, n)) <= Total(errors, n)
  {
    if n > 0 {
      ErrorsAddUp(a, b, errors, n - 1);
      assert Close(a[n - 1], b[n - 1], errors[n - 1]);
    }
  }

  lemma ProductBound(x: real, w: real, v: real, e: real)
    requires Abs(w - v) <= e
    ensures Abs(x * w - x * v) <= Abs(x) * e
  {
    assert x * w - x * v == x * (w - v);
    assert Abs(x * (w - v)) == Abs(x) * Abs(w - v);
    MulMonotone(Abs(w - v), e, Abs(x));
  }
}
