/** Asymmetric 4-bit weights: a group of 128 shares a scale and a zero point, stored narrowed, and
    w is read back as (q - z) * s. Weights are reals and `half` is the narrowing to the stored
    width, left arbitrary; what is proved is how far its error carries. */
module Int4 {
  import opened Nibbles

  const GROUP: nat := 128
  const TOP: int := 15

  function Abs(x: real): real { if x < 0.0 then -x else x }

  // ---- one code ----

  /** The nearest integer, ties to the even one. */
  function RoundToEven(x: real): (n: int)
    ensures Abs(x - n as real) <= 0.5
    ensures Abs(x - n as real) == 0.5 ==> n % 2 == 0
  {
    var f := x.Floor;
    var rest := x - f as real;
    if rest < 0.5 || (rest == 0.5 && f % 2 == 0) then f else f + 1
  }

  function Clamp(q: int): (c: int)
    ensures 0 <= c <= TOP
  {
    if q > TOP then TOP else if q < 0 then 0 else q
  }

  /** The code a weight takes against a stored scale and zero point. */
  function CodeFor(w: real, s: real, z: real): int
    requires s != 0.0
  {
    Clamp(RoundToEven(w / s + z))
  }

  /** What a code is read back as; a zero scale marks a group whose zero point is the value. */
  function Reconstructed(q: int, s: real, z: real): real {
    if s == 0.0 then z else (q as real - z) * s
  }

  /** The bound on one weight: half a step, and what narrowing the scale and the zero point costs. */
  function ErrorBound(s: real, z: real, idealScale: real, idealZero: real): real {
    s / 2.0 + 15.0 * Abs(idealScale - s) + Abs(idealZero - z) * s
  }

  // ---- the extremes of a group ----

  function Smaller(a: real, b: real): real { if b < a then b else a }

  function Larger(a: real, b: real): real { if b > a then b else a }

  function Least(w: seq<real>): real
    requires |w| > 0
  {
    if |w| == 1 then w[0] else Smaller(Least(w[..|w| - 1]), w[|w| - 1])
  }

  function Greatest(w: seq<real>): real
    requires |w| > 0
  {
    if |w| == 1 then w[0] else Larger(Greatest(w[..|w| - 1]), w[|w| - 1])
  }

  lemma {:induction false} Between(w: seq<real>, i: nat)
    requires i < |w|
    ensures Least(w) <= w[i] <= Greatest(w)
  {
    if i < |w| - 1 {
      Between(w[..|w| - 1], i);
    }
  }

  /** The extremes are weights of the group. */
  lemma {:induction false} Attained(w: seq<real>)
    requires |w| > 0
    ensures Least(w) in w && Greatest(w) in w
  {
    if |w| > 1 {
      Attained(w[..|w| - 1]);
    }
  }

  function Groups(n: nat): nat { (n + GROUP - 1) / GROUP }

  function GroupStart(n: nat, g: nat): nat {
    if g * GROUP < n then g * GROUP else n
  }

  function GroupEnd(n: nat, g: nat): nat { GroupStart(n, g + 1) }

  /** The weights of group g. */
  function GroupOf(w: seq<real>, g: nat): (group: seq<real>)
    requires g < Groups(|w|)
    ensures |group| > 0
  {
    w[GroupStart(|w|, g)..GroupEnd(|w|, g)]
  }

  /** Groups are 128 weights each, the last one whatever remains. */
  lemma GroupsOf128(w: seq<real>, g: nat)
    requires g < Groups(|w|)
    ensures Groups(|w|) == (|w| + 127) / 128 && 128 * g < |w|
    ensures GroupOf(w, g) == if 128 * g + 128 <= |w| then w[128 * g..128 * g + 128] else w[128 * g..]
  {
  }

  // ---- the stored form ----

  datatype Stored = Stored(packed: seq<bv32>, scales: seq<real>, zeros: seq<real>)

  predicate Sized(n: nat, packed: seq<bv32>, scales: seq<real>, zeros: seq<real>) {
    |packed| == (n + 7) / 8 && |scales| == Groups(n) && |zeros| == Groups(n)
  }

  /** The scale before it is narrowed. */
  function IdealScale(group: seq<real>): real
    requires |group| > 0
  {
    (Greatest(group) - Least(group)) / 15.0
  }

  /** The zero point before it is narrowed; it divides by the scale as stored. */
  function IdealZero(group: seq<real>, s: real): real
    requires |group| > 0 && s != 0.0
  {
    -Least(group) / s
  }

  function ScaleFor(group: seq<real>, half: real -> real): real
    requires |group| > 0
  {
    if Greatest(group) == Least(group) then 0.0 else half(IdealScale(group))
  }

  function ZeroFor(group: seq<real>, half: real -> real): real
    requires |group| > 0
  {
    var s := ScaleFor(group, half);
    half(if s == 0.0 then Least(group) else IdealZero(group, s))
  }

  /** The code as the word it is packed from. */
  function CodeWord(w: real, s: real, z: real): (q: bv32)
    requires s != 0.0
    ensures q <= 15 && CodeIs(q, w, s, z)
  {
    CodeFor(w, s, z) as bv32
  }

  predicate CodeIs(q: bv32, w: real, s: real, z: real) {
    q as int == if s == 0.0 then 0 else CodeFor(w, s, z)
  }

  /** Codes up to n stand for their weights against their own group's scale and zero point, and
      the rest of the packed words is zero. */
  ghost predicate CodesTo(n: nat, w: seq<real>, packed: seq<bv32>, scales: seq<real>, zeros: seq<real>)
    requires |packed| == (|w| + 7) / 8 && Groups(n) <= |scales| && Groups(n) <= |zeros| && n <= |w|
  {
    forall i: nat :: i / 8 < |packed| ==> CodeAt(n, w, packed, scales, zeros, i)
  }

  predicate CodeAt(n: nat, w: seq<real>, packed: seq<bv32>, scales: seq<real>, zeros: seq<real>, i: nat)
    requires i / 8 < |packed| && Groups(n) <= |scales| && Groups(n) <= |zeros| && n <= |w|
  {
    if i < n then
      CodeIs(Int4Nibble(packed, i), w[i], scales[i / GROUP], zeros[i / GROUP])
    else
      Int4Nibble(packed, i) == 0
  }

  ghost predicate MetadataTo(g: nat, w: seq<real>, half: real -> real, scales: seq<real>, zeros: seq<real>)
    requires g <= Groups(|w|) && g <= |scales| && g <= |zeros|
  {
    forall h: nat :: h < g ==> MetadataAt(w, half, scales, zeros, h)
  }

  predicate MetadataAt(w: seq<real>, half: real -> real, scales: seq<real>, zeros: seq<real>, h: nat)
    requires h < Groups(|w|) && h < |scales| && h < |zeros|
  {
    scales[h] == ScaleFor(GroupOf(w, h), half) && zeros[h] == ZeroFor(GroupOf(w, h), half)
  }

  /** The three arrays are exactly what quantizing w stores. */
  ghost predicate Quantized(w: seq<real>, half: real -> real, t: Stored) {
    && Sized(|w|, t.packed, t.scales, t.zeros)
    && MetadataTo(Groups(|w|), w, half, t.scales, t.zeros)
    && CodesTo(|w|, w, t.packed, t.scales, t.zeros)
  }

  function ValueAt(t: Stored, i: nat): real
    requires i / 8 < |t.packed| && i / GROUP < |t.scales| && i / GROUP < |t.zeros|
  {
    Reconstructed(Int4Nibble(t.packed, i) as int, t.scales[i / GROUP], t.zeros[i / GROUP])
  }

  // ---- the error of one weight ----

  /** How far a weight is from what its code reads back as. */
  function Error(w: real, s: real, z: real): real
    requires s != 0.0
  {
    Abs(w - Reconstructed(CodeFor(w, s, z), s, z))
  }

  /** A code that was not clamped is half a step off at most, and a clamped one is off by more
      than half a step: the first term alone suffices exactly when the scaled weight lands within
      half a step of the sixteen codes. */
  lemma HalfStepExactly(w: real, s: real, z: real)
    requires s > 0.0
    ensures Error(w, s, z) <= s / 2.0 <==> -0.5 <= w / s + z <= 15.5
  {
    var x, q := w / s + z, CodeFor(w, s, z);
    Scaled(w, s, z, q);
    NearestCode(x);
    HalfOf(Error(w, s, z), Abs(x - q as real), s);
  }

  lemma NearestCode(x: real)
    ensures Abs(x - Clamp(RoundToEven(x)) as real) <= 0.5 <==> -0.5 <= x <= 15.5
  {
    var n := RoundToEven(x);
    if n > TOP {
      assert n >= 16;
      assert x >= 15.5;
    } else if n < 0 {
      assert n <= -1;
      assert x <= -0.5;
    }
  }

  lemma HalfOf(e: real, d: real, s: real)
    requires s > 0.0 && e == d * s
    ensures e <= s / 2.0 <==> d <= 0.5
  {
    if d <= 0.5 {
      assert (0.5 - d) * s >= 0.0;
    } else {
      assert (d - 0.5) * s > 0.0;
    }
  }

  /** The error of a code is its distance from the scaled weight, in steps. */
  lemma Scaled(w: real, s: real, z: real, q: int)
    requires s > 0.0
    ensures Abs(w - Reconstructed(q, s, z)) == Abs(w / s + z - q as real) * s
  {
    var t := w / s;
    assert w == t * s;
    assert (t + z - q as real) * s == t * s - (q as real - z) * s;
  }

  /** Any weight of a range [low, low + 15 * idealScale], clamped or not. */
  lemma WeightBound(w: real, low: real, idealScale: real, s: real, z: real)
    requires s > 0.0 && low <= w <= low + 15.0 * idealScale
    ensures Error(w, s, z) <= ErrorBound(s, z, idealScale, -low / s)
  {
    var x := w / s + z;
    if -0.5 <= x <= 15.5 {
      InsideBound(w, idealScale, s, z, -low / s);
    } else {
      Quotients(w, low, s, z);
      ClampedError(w, s, z);
      OutsideExcess(Error(w, s, z), x, s, z, w, low, -low / s, idealScale);
    }
  }

  /** The bound is no larger than it has to be: but for the half step it is reached at the top of the range
      when narrowing shrank the scale, and at the bottom when narrowing lowered the zero point. */
  lemma BoundReached(low: real, idealScale: real, s: real, z: real)
    requires s > 0.0
    ensures 15.0 * idealScale > 15.5 * s ==>
              Error(low + 15.0 * idealScale, s, -low / s) == ErrorBound(s, -low / s, idealScale, -low / s) - s / 2.0
    ensures z < -low / s - 0.5 ==> Error(low, s, z) == ErrorBound(s, z, s, -low / s) - s / 2.0
  {
    if 15.0 * idealScale > 15.5 * s {
      TopReached(low, idealScale, s);
    }
    if z < -low / s - 0.5 {
      BottomReached(low, s, z);
    }
  }

  lemma TopReached(low: real, idealScale: real, s: real)
    requires s > 0.0 && 15.0 * idealScale > 15.5 * s
    ensures Error(low + 15.0 * idealScale, s, -low / s) == 15.0 * (idealScale - s)
  {
    var top, z := low + 15.0 * idealScale, -low / s;
    Quotients(top, low, s, z);
    TopExcess(top / s + z, z, s, low, idealScale);
    ClampedError(top, s, z);
  }

  lemma TopExcess(x: real, z: real, s: real, low: real, idealScale: real)
    requires s > 0.0 && (x - z) * s == low + 15.0 * idealScale && z * s == -low && 15.0 * idealScale > 15.5 * s
    ensures x > 15.5 && Abs(x - 15.0) * s == 15.0 * idealScale - 15.0 * s
  {
    assert (x - z) * s == x * s - z * s;
    assert (x - 15.5) * s > 0.0;
  }

  lemma BottomReached(low: real, s: real, z: real)
    requires s > 0.0 && z < -low / s - 0.5
    ensures Error(low, s, z) == (-low / s - z) * s
  {
    assert low / s == -(-low / s);
    ClampedError(low, s, z);
  }

  lemma InsideBound(w: real, idealScale: real, s: real, z: real, ideal: real)
    requires s > 0.0 && -0.5 <= w / s + z <= 15.5
    ensures Error(w, s, z) <= ErrorBound(s, z, idealScale, ideal)
  {
    HalfStepExactly(w, s, z);
    NarrowingCost(ideal, z, s);
    Charge(Error(w, s, z), s, idealScale, Abs(ideal - z) * s);
  }

  lemma Quotients(w: real, low: real, s: real, z: real)
    requires s > 0.0
    ensures (w / s + z - z) * s == w && -low / s * s == -low
  {
  }

  lemma ClampedError(w: real, s: real, z: real)
    requires s > 0.0 && !(-0.5 <= w / s + z <= 15.5)
    ensures Error(w, s, z) == Abs(w / s + z - ClampedTo(w / s + z)) * s
  {
    NearestCode(w / s + z);
    Scaled(w, s, z, CodeFor(w, s, z));
  }

  function ClampedTo(x: real): real { if x > 15.5 then 15.0 else 0.0 }

  lemma OutsideExcess(e: real, x: real, s: real, z: real, w: real, low: real, ideal: real, idealScale: real)
    requires s > 0.0 && !(-0.5 <= x <= 15.5) && e == Abs(x - ClampedTo(x)) * s
    requires (x - z) * s == w && ideal * s == -low
    requires low <= w <= low + 15.0 * idealScale
    ensures e <= ErrorBound(s, z, idealScale, ideal)
  {
    if x > 15.5 {
      TopStep(x, s, z, w, low, ideal, idealScale);
    } else {
      BottomStep(x, s, z, w, low, ideal);
    }
    NarrowingCost(ideal, z, s);
    Charge(e, s, idealScale, Abs(ideal - z) * s);
  }

  lemma NarrowingCost(ideal: real, z: real, s: real)
    requires s > 0.0
    ensures Abs(ideal - z) * s >= 0.0
  {
  }

  /** Past the top code the whole excess is what narrowing moved the top of the range by. */
  lemma TopStep(x: real, s: real, z: real, w: real, low: real, ideal: real, idealScale: real)
    requires s > 0.0 && x > 15.5 && (x - z) * s == w && ideal * s == -low && w <= low + 15.0 * idealScale
    ensures Abs(x - 15.0) * s <= 15.0 * Abs(idealScale - s) + Abs(ideal - z) * s
  {
    assert (x - 15.0) * s == (x - z) * s + z * s - 15.0 * s;
    assert z * s - ideal * s == (z - ideal) * s;
    assert (z - ideal) * s <= Abs(ideal - z) * s;
  }

  lemma BottomStep(x: real, s: real, z: real, w: real, low: real, ideal: real)
    requires s > 0.0 && x < -0.5 && (x - z) * s == w && ideal * s == -low && low <= w
    ensures Abs(x - 0.0) * s <= Abs(ideal - z) * s
  {
    assert (0.0 - x) * s == -((x - z) * s) - z * s;
    assert ideal * s - z * s == (ideal - z) * s;
    assert (ideal - z) * s <= Abs(ideal - z) * s;
  }

  lemma Charge(e: real, s: real, idealScale: real, cost: real)
    requires s > 0.0 && cost >= 0.0
    requires e <= s / 2.0 || e <= 15.0 * Abs(idealScale - s) + cost
    ensures e <= s / 2.0 + 15.0 * Abs(idealScale - s) + cost
  {
  }

  /** Every weight of a group whose stored scale is not zero, and the constant of one that is. */
  lemma GroupBound(w: seq<real>, half: real -> real, t: Stored, i: nat)
    requires Quantized(w, half, t) && i < |w|
    ensures i / GROUP < Groups(|w|) && i / 8 < |t.packed|
    ensures var group, s, z := GroupOf(w, i / GROUP), t.scales[i / GROUP], t.zeros[i / GROUP];
            s > 0.0 ==> Abs(w[i] - ValueAt(t, i)) <= ErrorBound(s, z, IdealScale(group), IdealZero(group, s))
    ensures var group, s, z := GroupOf(w, i / GROUP), t.scales[i / GROUP], t.zeros[i / GROUP];
            Greatest(group) == Least(group) ==> Abs(w[i] - ValueAt(t, i)) == Abs(w[i] - half(w[i]))
  {
    var g := i / GROUP;
    InGroup(|w|, i);
    var group, s, z := GroupOf(w, g), t.scales[g], t.zeros[g];
    Between(group, i - g * GROUP);
    assert group[i - g * GROUP] == w[i];
    assert MetadataAt(w, half, t.scales, t.zeros, g);
    assert CodeAt(|w|, w, t.packed, t.scales, t.zeros, i);
    if s > 0.0 {
      WeightBound(w[i], Least(group), IdealScale(group), s, z);
    }
  }

  lemma InGroup(n: nat, i: nat)
    requires i < n
    ensures i / GROUP < Groups(n) && i / 8 < (n + 7) / 8
    ensures i / GROUP * GROUP <= i < GroupEnd(n, i / GROUP)
  {
  }

  // ---- the loops ----

  method Extremes(w: seq<real>, lo: nat, hi: nat) returns (lowest: real, highest: real)
    requires lo < hi <= |w|
    ensures lowest == Least(w[lo..hi]) && highest == Greatest(w[lo..hi])
    ensures lowest in w[lo..hi] && highest in w[lo..hi]
    ensures forall i :: lo <= i < hi ==> lowest <= w[i] <= highest
  {
    lowest, highest := w[lo], w[lo];
    for i := lo to hi
      invariant lowest == if i == lo then w[lo] else Least(w[lo..i])
      invariant highest == if i == lo then w[lo] else Greatest(w[lo..i])
    {
      assert w[lo..i + 1][..i - lo] == w[lo..i];
      if w[i] < lowest {
        lowest := w[i];
      }
      if w[i] > highest {
        highest := w[i];
      }
    }
    Attained(w[lo..hi]);
    forall i | lo <= i < hi
      ensures lowest <= w[i] <= highest
    {
      Between(w[lo..hi], i - lo);
    }
  }

  /** Stores one group's scale and zero point: the scale narrowed first, and the zero point taken
      against the scale as stored. */
  method StoreGroup(w: seq<real>, half: real -> real, g: nat, scales: array<real>, zeros: array<real>)
    requires g < Groups(|w|) && scales.Length == Groups(|w|) && zeros.Length == Groups(|w|) && scales != zeros
    requires MetadataTo(g, w, half, scales[..], zeros[..])
    modifies scales, zeros
    ensures MetadataTo(g + 1, w, half, scales[..], zeros[..])
    ensures scales[..g] == old(scales[..g]) && zeros[..g] == old(zeros[..g])
  {
    ghost var scales', zeros' := scales[..], zeros[..];
    var lowest, highest := Extremes(w, GroupStart(|w|, g), GroupEnd(|w|, g));
    var s, z := 0.0, lowest;
    if highest != lowest {
      s := half((highest - lowest) / 15.0);
      if s != 0.0 {
        z := -lowest / s;
      }
    }
    scales[g], zeros[g] := s, half(z);
    forall h: nat | h < g + 1
      ensures MetadataAt(w, half, scales[..], zeros[..], h)
    {
      assert h < g ==> MetadataAt(w, half, scales', zeros', h);
    }
  }

  /** Writes one group's codes against its stored scale and zero point; a zero scale leaves them
      zero. */
  method PackGroup(w: seq<real>, g: nat, packed: array<bv32>, scales: seq<real>, zeros: seq<real>)
    requires g < Groups(|w|) && packed.Length == (|w| + 7) / 8 && g < |scales| && g < |zeros|
    requires CodesTo(GroupStart(|w|, g), w, packed[..], scales, zeros)
    modifies packed
    ensures CodesTo(GroupEnd(|w|, g), w, packed[..], scales, zeros)
  {
    var s, z := scales[g], zeros[g];
    if s == 0.0 {
      ConstantGroup(w, g, packed[..], scales, zeros);
      return;
    }
    for i := GroupStart(|w|, g) to GroupEnd(|w|, g)
      invariant CodesTo(i, w, packed[..], scales, zeros)
    {
      ghost var packed' := packed[..];
      SetNibble(packed, i, CodeWord(w[i], s, z));
      CodeWritten(w, packed', packed[..], scales, zeros, i);
    }
  }

  /** The codes of a group whose scale is zero are the zeros already there. */
  lemma ConstantGroup(w: seq<real>, g: nat, packed: seq<bv32>, scales: seq<real>, zeros: seq<real>)
    requires g < Groups(|w|) && |packed| == (|w| + 7) / 8 && g < |scales| && g < |zeros| && scales[g] == 0.0
    requires CodesTo(GroupStart(|w|, g), w, packed, scales, zeros)
    ensures CodesTo(GroupEnd(|w|, g), w, packed, scales, zeros)
  {
    forall i: nat | i / 8 < |packed|
      ensures CodeAt(GroupEnd(|w|, g), w, packed, scales, zeros, i)
    {
      assert CodeAt(GroupStart(|w|, g), w, packed, scales, zeros, i);
    }
  }

  /** Writing the code of weight i extends the codes by one. */
  lemma CodeWritten(w: seq<real>, before: seq<bv32>, after: seq<bv32>, scales: seq<real>, zeros: seq<real>, i: nat)
    requires i < |w| && |before| == |after| == (|w| + 7) / 8 && Groups(i + 1) <= |scales| && Groups(i + 1) <= |zeros|
    requires CodesTo(i, w, before, scales, zeros)
    requires CodeIs(Int4Nibble(after, i), w[i], scales[i / GROUP], zeros[i / GROUP])
    requires forall j: nat :: j / 8 < |after| && j != i ==> Int4Nibble(after, j) == Int4Nibble(before, j)
    ensures CodesTo(i + 1, w, after, scales, zeros)
  {
    forall j: nat | j / 8 < |after|
      ensures CodeAt(i + 1, w, after, scales, zeros, j)
    {
      assert CodeAt(i, w, before, scales, zeros, j);
    }
  }

  /** The codes of earlier groups do not read later scales and zero points. */
  lemma CodesFrame(g: nat, w: seq<real>, packed: seq<bv32>, scales: seq<real>, zeros: seq<real>,
                   scales': seq<real>, zeros': seq<real>)
    requires |packed| == (|w| + 7) / 8 && g <= Groups(|w|)
    requires g <= |scales| && g <= |zeros| && g <= |scales'| && g <= |zeros'|
    requires scales[..g] == scales'[..g] && zeros[..g] == zeros'[..g]
    requires CodesTo(GroupStart(|w|, g), w, packed, scales, zeros)
    ensures CodesTo(GroupStart(|w|, g), w, packed, scales', zeros')
  {
    forall i: nat | i / 8 < |packed|
      ensures CodeAt(GroupStart(|w|, g), w, packed, scales', zeros', i)
    {
      assert CodeAt(GroupStart(|w|, g), w, packed, scales, zeros, i);
      assert i < GroupStart(|w|, g) ==> scales[i / GROUP] == scales[..g][i / GROUP] == scales'[i / GROUP];
      assert i < GroupStart(|w|, g) ==> zeros[i / GROUP] == zeros[..g][i / GROUP] == zeros'[i / GROUP];
    }
  }

  lemma NothingCoded(w: seq<real>, packed: seq<bv32>)
    requires |packed| == (|w| + 7) / 8 && forall j :: 0 <= j < |packed| ==> packed[j] == 0
    ensures CodesTo(0, w, packed, [], [])
  {
    forall i: nat | i / 8 < |packed|
      ensures CodeAt(0, w, packed, [], [], i)
    {
      Words.ZeroFields(Shift(i));
    }
  }

  /** One group: its scale and zero point, then its codes against them. */
  method QuantizeGroup(w: seq<real>, half: real -> real, g: nat, packed: array<bv32>, scales: array<real>,
      zeros: array<real>)
    requires packed.Length == (|w| + 7) / 8 && scales.Length == Groups(|w|) == zeros.Length && scales != zeros
    requires {packed as object} !! {scales as object, zeros as object}
    requires g < Groups(|w|) && MetadataTo(g, w, half, scales[..], zeros[..])
    requires CodesTo(GroupStart(|w|, g), w, packed[..], scales[..], zeros[..])
    modifies packed, scales, zeros
    ensures MetadataTo(g + 1, w, half, scales[..], zeros[..])
    ensures CodesTo(GroupEnd(|w|, g), w, packed[..], scales[..], zeros[..])
  {
    ghost var scales', zeros' := scales[..], zeros[..];
    StoreGroup(w, half, g, scales, zeros);
    CodesFrame(g, w, packed[..], scales', zeros', scales[..], zeros[..]);
    PackGroup(w, g, packed, scales[..], zeros[..]);
  }

  /** The arrays before any group is written: every code is zero. */
  method Blank(w: seq<real>) returns (packed: array<bv32>, scales: array<real>, zeros: array<real>)
    ensures fresh(packed) && fresh(scales) && fresh(zeros) && scales != zeros
    ensures {packed as object} !! {scales as object, zeros as object}
    ensures packed.Length == (|w| + 7) / 8 && scales.Length == Groups(|w|) == zeros.Length
    ensures CodesTo(0, w, packed[..], scales[..], zeros[..])
  {
    packed := new bv32[(|w| + 7) / 8](_ => 0);
    scales := new real[Groups(|w|)](_ => 0.0);
    zeros := new real[Groups(|w|)](_ => 0.0);
    NothingCoded(w, packed[..]);
    CodesFrame(0, w, packed[..], [], [], scales[..], zeros[..]);
  }

  /** Quantizes w group by group. */
  method Int4Quantize(w: seq<real>, half: real -> real)
    returns (packed: array<bv32>, scales: array<real>, zeros: array<real>)
    ensures fresh(packed) && fresh(scales) && fresh(zeros)
    ensures Quantized(w, half, Stored(packed[..], scales[..], zeros[..]))
  {
    packed, scales, zeros := Blank(w);
    for g := 0 to Groups(|w|)
      invariant MetadataTo(g, w, half, scales[..], zeros[..])
      invariant CodesTo(GroupStart(|w|, g), w, packed[..], scales[..], zeros[..])
    {
      QuantizeGroup(w, half, g, packed, scales, zeros);
    }
  }

  /** Reads every weight back. */
  method Int4Dequantize(t: Stored, n: nat) returns (out: seq<real>)
    requires Sized(n, t.packed, t.scales, t.zeros)
    ensures |out| == n
    ensures forall i: nat :: i < n ==> i / 8 < |t.packed| && i / GROUP < |t.scales| && out[i] == ValueAt(t, i)
  {
    out := [];
    for i := 0 to n
      invariant |out| == i
      invariant forall j: nat :: j < i ==> j / 8 < |t.packed| && j / GROUP < |t.scales| && out[j] == ValueAt(t, j)
    {
      InGroup(n, i);
      var s, z := t.scales[i / GROUP], t.zeros[i / GROUP];
      out := out + [if s == 0.0 then z else (Int4Nibble(t.packed, i) as int as real - z) * s];
    }
  }

  // ---- where half a step is not enough ----

  const FAR: seq<real> := [1000.0, 1001.0]
  const FAR_SCALE: real := 1092.0 / 16384.0

  /** What storing at half precision makes of the far group's scale and zero point. */
  function Narrowed(v: real): real {
    if v == 1.0 / 15.0 then FAR_SCALE else if v == -1000.0 / FAR_SCALE then -15000.0 else v
  }

  /** Two weights far from zero: the larger one is clamped, and read back more than half a step off. */
  lemma HalfStepExceeded(t: Stored)
    requires Quantized(FAR, Narrowed, t)
    ensures t.scales == [FAR_SCALE] && t.zeros == [-15000.0] && |t.packed| == 1
    ensures Abs(1001.0 - ValueAt(t, 1)) > FAR_SCALE / 2.0
  {
    var group := GroupOf(FAR, 0);
    assert group == FAR && FAR[..1] == [1000.0];
    assert Least(FAR) == 1000.0 && Greatest(FAR) == 1001.0;
    assert MetadataAt(FAR, Narrowed, t.scales, t.zeros, 0);
    assert CodeAt(2, FAR, t.packed, t.scales, t.zeros, 1);
    HalfStepExactly(1001.0, FAR_SCALE, -15000.0);
  }

  /** The far group quantized: such an array exists. */
  method QuantizeFar() returns (t: Stored)
    ensures Quantized(FAR, Narrowed, t)
    ensures Abs(1001.0 - ValueAt(t, 1)) > t.scales[0] / 2.0
  {
    var packed, scales, zeros := Int4Quantize(FAR, Narrowed);
    t := Stored(packed[..], scales[..], zeros[..]);
    HalfStepExceeded(t);
  }
}
