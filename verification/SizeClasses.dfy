/** The two-level size classes of the general allocator: where a size belongs, where a request for
    a size may look, and how far apart the two can be. Shifts are repeated doubling and halving. */
module SizeClasses {
  import opened Arith

  const SL_BITS: nat := 4
  const SL_COUNT: nat := 16

  // ---- shifts ----

  function Shl(u: nat, k: nat): nat {
    if k == 0 then u else 2 * Shl(u, k - 1)
  }

  function Shr(u: nat, k: nat): nat
    decreases k
  {
    if k == 0 then u else Shr(u / 2, k - 1)
  }

  /** One less than the bit length of u. */
  function Log2(u: nat): nat {
    if u < 2 then 0 else 1 + Log2(u / 2)
  }

  lemma {:induction false} ShlMonotone(u: nat, v: nat, k: nat)
    requires u <= v
    ensures Shl(u, k) <= Shl(v, k)
    ensures u < v ==> Shl(u, k) < Shl(v, k)
  {
    if k > 0 {
      ShlMonotone(u, v, k - 1);
    }
  }

  lemma {:induction false} ShlSum(u: nat, v: nat, k: nat)
    ensures Shl(u + v, k) == Shl(u, k) + Shl(v, k)
  {
    if k > 0 {
      ShlSum(u, v, k - 1);
    }
  }

  lemma {:induction false} ShrMonotone(u: nat, v: nat, k: nat)
    requires u <= v
    ensures Shr(u, k) <= Shr(v, k)
    decreases k
  {
    if k > 0 {
      ShrMonotone(u / 2, v / 2, k - 1);
    }
  }

  lemma {:induction false} ShlShl(u: nat, j: nat, k: nat)
    ensures Shl(Shl(u, j), k) == Shl(u, j + k)
  {
    if k > 0 {
      ShlShl(u, j, k - 1);
    }
  }

  /** Halving k times and doubling back loses less than 2^k. */
  lemma {:induction false} ShrBounds(u: nat, k: nat)
    ensures Shl(Shr(u, k), k) <= u < Shl(Shr(u, k) + 1, k)
    decreases k
  {
    if k > 0 {
      ShrBounds(u / 2, k - 1);
    }
  }

  /** The exponent brackets the number. */
  lemma {:induction false} Log2Bounds(u: nat)
    requires u > 0
    ensures Shl(1, Log2(u)) <= u < Shl(1, Log2(u) + 1)
  {
    if u >= 2 {
      Log2Bounds(u / 2);
    }
  }

  lemma {:induction false} Log2Monotone(u: nat, v: nat)
    requires u <= v
    ensures Log2(u) <= Log2(v)
  {
    if u >= 2 {
      Log2Monotone(u / 2, v / 2);
    }
  }

  lemma {:induction false} Log2Halved(u: nat, k: nat)
    requires k <= Log2(u)
    ensures Log2(Shr(u, k)) == Log2(u) - k
    decreases k
  {
    if k > 0 {
      Log2Halved(u / 2, k - 1);
    }
  }

  // ---- granularity units ----

  /** How many whole units of g fit in n. */
  function Units(n: nat, g: nat): nat
    requires g > 0
  {
    if n < g then 0 else 1 + Units(n - g, g)
  }

  lemma {:induction false} UnitsQuotient(n: nat, g: nat)
    requires g > 0
    ensures Units(n, g) == n / g
  {
    if n < g {
      DivModUnique(n, g, 0, n);
    } else {
      UnitsQuotient(n - g, g);
      var q, r := (n - g) / g, (n - g) % g;
      assert (q + 1) * g == q * g + g;
      DivModUnique(n, g, q + 1, r);
    }
  }

  lemma {:induction false} UnitsMonotone(m: nat, n: nat, g: nat)
    requires g > 0 && m <= n
    ensures Units(m, g) <= Units(n, g)
  {
    if m >= g {
      UnitsMonotone(m - g, n - g, g);
    }
  }

  /** Multiples of g compare as their unit counts do. */
  lemma {:induction false} UnitsOrder(m: nat, n: nat, g: nat)
    requires g > 0 && Aligned(m, g) && Aligned(n, g)
    ensures Units(m, g) <= Units(n, g) <==> m <= n
  {
    if m < g {
      AlignedGap(m, 0, g);
    } else if n < g {
      AlignedGap(n, 0, g);
    } else if g > 1 {
      UnitsOrder(m - g, n - g, g);
    } else {
      UnitsOrder(m - g, n - g, g);
    }
  }

  lemma {:induction false} UnitsOfProduct(u: nat, g: nat)
    requires g > 0
    ensures u * g >= 0 && Units(u * g, g) == u
  {
    if u > 0 {
      UnitsOfProduct(u - 1, g);
      assert u * g == (u - 1) * g + g;
    }
  }

  // ---- classes ----

  datatype SizeClass = SizeClass(fl: nat, sl: nat) {
    function Rank(): nat {
      16 * fl + sl
    }
  }

  /** The top five bits of u: its leading one and the mantissa bits that pick the sub-class. */
  function Lead(u: nat): nat {
    var fl := Log2(u);
    if fl < SL_BITS then Shl(u, SL_BITS - fl) else Shr(u, fl - SL_BITS)
  }

  function ClassOf(u: nat): SizeClass {
    SizeClass(Log2(u), Lead(u) % SL_COUNT)
  }

  /** The class a block of this size belongs to. */
  function Mapping(size: nat, g: nat): SizeClass
    requires g > 0
  {
    ClassOf(Units(size, g))
  }

  function RoundedUnits(u: nat): nat {
    var e := Log2(u);
    if e > SL_BITS then u + Shl(1, e - SL_BITS) - 1 else u
  }

  /** The class a request of this size starts looking in. */
  function MappingUp(size: nat, g: nat): SizeClass
    requires g > 0
  {
    Mapping(RoundedUnits(Units(size, g)) * g, g)
  }

  lemma {:induction false} LeadRange(u: nat)
    requires u > 0
    ensures 16 <= Lead(u) < 32
    ensures ClassOf(u).sl == Lead(u) - 16 < 16
  {
    var fl := Log2(u);
    if fl < SL_BITS {
      Log2Bounds(u);
      ShlShl(1, fl, SL_BITS - fl);
      ShlShl(1, fl + 1, SL_BITS - fl);
      ShlMonotone(Shl(1, fl), u, SL_BITS - fl);
      ShlMonotone(u, Shl(1, fl + 1), SL_BITS - fl);
      SixteenTimes(0);
      SixteenTimes(1);
    } else {
      Log2Halved(u, fl - SL_BITS);
      var v := Shr(u, fl - SL_BITS);
      assert Log2(v) == 4;
      Log2Bounds(v);
    }
  }

  /** Classes are ordered as the sizes in them are. */
  lemma ClassMonotone(u: nat, v: nat)
    requires 0 < u <= v
    ensures ClassOf(u).Rank() <= ClassOf(v).Rank()
  {
    LeadRange(u);
    LeadRange(v);
    Log2Monotone(u, v);
    var fl := Log2(u);
    if fl == Log2(v) {
      if fl < SL_BITS {
        ShlMonotone(u, v, SL_BITS - fl);
      } else {
        ShrMonotone(u, v, fl - SL_BITS);
      }
    }
  }

  /** Rounding up and dropping the low bits is dividing by 2^k rounding up. */
  lemma RoundedLead(u: nat, v: nat, k: nat)
    requires u > 0 && Shr(v, k) >= Shr(u + Shl(1, k) - 1, k)
    ensures u <= v
  {
    var w := u + Shl(1, k) - 1;
    ShrBounds(v, k);
    ShrBounds(w, k);
    ShlMonotone(Shr(w, k), Shr(v, k), k);
    ShlSum(Shr(w, k), 1, k);
  }

  /** Every block in the class a request starts at, or in a higher one, is large enough. */
  lemma HitIsEnough(u: nat, v: nat)
    requires u > 0 && v > 0
    requires ClassOf(v).Rank() >= ClassOf(RoundedUnits(u)).Rank()
    ensures v >= u
  {
    var e, w := Log2(u), RoundedUnits(u);
    ShlMonotone(0, 1, if e > SL_BITS then e - SL_BITS else 0);
    assert w >= u;
    if v < u {
      ClassMonotone(v, u);
      ClassMonotone(u, w);
      LeadRange(u);
      LeadRange(v);
      LeadRange(w);
      assert ClassOf(v).fl == ClassOf(u).fl == ClassOf(w).fl == e && Lead(v) == Lead(w);
      if e > SL_BITS {
        RoundedLead(u, v, e - SL_BITS);
      } else if e < SL_BITS {
        ShlMonotone(v, u, SL_BITS - e);
      }
    }
  }

  /** A block below the class a request starts at is smaller than the rounded request. */
  lemma MissIsClose(u: nat, f: nat)
    requires u > 0 && f > 0
    requires ClassOf(f).Rank() < ClassOf(RoundedUnits(u)).Rank()
    ensures 16 * f < 17 * u
  {
    var e, w := Log2(u), RoundedUnits(u);
    if e > SL_BITS {
      ShlMonotone(0, 1, e - SL_BITS);
    }
    if f >= w {
      ClassMonotone(w, f);
    }
    assert f < w;
    if e > SL_BITS {
      Log2Bounds(u);
      SixteenTimes(e - SL_BITS);
    }
  }

  lemma SixteenTimes(k: nat)
    ensures Shl(1, k + 4) == 16 * Shl(1, k)
  {
    assert Shl(1, k + 4) == 2 * Shl(1, k + 3) && Shl(1, k + 3) == 2 * Shl(1, k + 2);
    assert Shl(1, k + 2) == 2 * Shl(1, k + 1);
  }

  /** No bit of u lies below its leading five. */
  predicate FiveBits(u: nat) {
    Log2(u) <= SL_BITS || Shl(Shr(u, Log2(u) - SL_BITS), Log2(u) - SL_BITS) == u
  }

  /** Rounding up leaves a request in the class of its own size exactly when that size has no bit below
      its leading five. */
  lemma RoundingKeepsClass(u: nat)
    requires u > 0
    ensures ClassOf(RoundedUnits(u)).Rank() <= ClassOf(u).Rank() <==> FiveBits(u)
  {
    var e := Log2(u);
    if e > SL_BITS {
      var k, w := e - SL_BITS, RoundedUnits(u);
      LeadRange(u);
      ShrBounds(u, k);
      ShlSum(Lead(u), 1, k);
      if FiveBits(u) {
        RoundedWhole(u, w, k);
      } else {
        RoundedPast(u, w, k);
      }
    }
  }

  /** 33 units are a size with a bit below its leading five. */
  lemma ThirtyThree()
    ensures !FiveBits(33)
  {
    assert Log2(33) == 5 && Shr(33, 1) == 16 && Shl(16, 1) == 32;
  }

  /** A whole number of steps, rounded up by less than one step, keeps its leading five bits. */
  lemma RoundedWhole(u: nat, w: nat, k: nat)
    requires u > 0 && Log2(u) == k + SL_BITS && k > 0
    requires u <= w < Shl(Lead(u) + 1, k)
    ensures ClassOf(w).Rank() <= ClassOf(u).Rank()
  {
    SameExponent(u, w, k);
    ShrBounds(w, k);
    ShlReflects(Lead(u), Shr(w, k), k);
    LeadRange(u);
    LeadRange(w);
  }

  lemma SameExponent(u: nat, w: nat, k: nat)
    requires u > 0 && Log2(u) == k + SL_BITS && u <= w < Shl(Lead(u) + 1, k)
    ensures Log2(w) == k + SL_BITS
  {
    LeadRange(u);
    ShlMonotone(Lead(u) + 1, 32, k);
    ThirtyTwoTimes(k);
    LogBelow(w, k + SL_BITS);
    Log2Monotone(u, w);
  }

  lemma RoundedPast(u: nat, w: nat, k: nat)
    requires u > 0 && Log2(u) == k + SL_BITS && k > 0
    requires w >= Shl(Lead(u) + 1, k)
    ensures ClassOf(w).Rank() > ClassOf(u).Rank()
  {
    ShiftedPast(u, w, k);
    Log2Monotone(u, w);
    LeadRange(u);
    LeadRange(w);
  }

  lemma ShiftedPast(u: nat, w: nat, k: nat)
    requires w >= Shl(Shr(u, k) + 1, k)
    ensures u <= w && Shr(u, k) < Shr(w, k)
  {
    ShrBounds(u, k);
    ShrBounds(w, k);
    ShlReflects(Shr(u, k) + 1, Shr(w, k) + 1, k);
  }

  lemma ThirtyTwoTimes(k: nat)
    ensures Shl(32, k) == Shl(1, k + 5)
  {
    ShlShl(1, 5, k);
    SixteenTimes(1);
    assert Shl(1, 5) == 32;
  }

  lemma LogBelow(w: nat, e: nat)
    requires w < Shl(1, e + 1)
    ensures Log2(w) <= e
  {
    if Log2(w) > e {
      Log2Bounds(w);
      PowerMonotone(e + 1, Log2(w));
    }
  }

  /** Doubling reflects the order. */
  lemma ShlReflects(a: nat, b: nat, k: nat)
    ensures Shl(a, k) < Shl(b, k) ==> a < b
    ensures Shl(b, k) < Shl(a + 1, k) ==> b <= a
  {
    if b <= a {
      ShlMonotone(b, a, k);
    } else {
      ShlMonotone(a + 1, b, k);
    }
  }

  /** Requests stay within one exponent of the whole pool's. */
  lemma RoundedExponent(u: nat)
    requires u > 0
    ensures Log2(u) <= Log2(RoundedUnits(u)) <= Log2(u) + 1
  {
    var e, w := Log2(u), RoundedUnits(u);
    if e > SL_BITS {
      ShlMonotone(0, 1, e - SL_BITS);
      Log2Monotone(u, w);
      Log2Bounds(u);
      SixteenTimes(e - SL_BITS);
      Log2Bounds(w);
      if Log2(w) > e + 1 {
        PowerMonotone(e + 2, Log2(w));
      }
    }
  }

  lemma {:induction false} PowerMonotone(j: nat, k: nat)
    requires j <= k
    ensures Shl(1, j) <= Shl(1, k)
  {
    if j < k {
      PowerMonotone(j, k - 1);
    }
  }

  lemma {:induction false} UnitsBytes(n: nat, g: nat)
    requires g > 0 && Aligned(n, g)
    ensures n == Units(n, g) * g
  {
    if n < g {
      assert n == 0;
    } else {
      UnitsBytes(n - g, g);
      assert Units(n, g) * g == Units(n - g, g) * g + g;
    }
  }

  /** Comparisons of unit counts carry over to bytes. */
  lemma CloseInBytes(n: nat, m: nat, g: nat)
    requires g > 0 && Aligned(n, g) && Aligned(m, g) && 16 * Units(n, g) < 17 * Units(m, g)
    ensures 16 * n < 17 * m
  {
    UnitsBytes(n, g);
    UnitsBytes(m, g);
    var a, b := Units(n, g), Units(m, g);
    TimesAssociates(16, a, g);
    TimesAssociates(17, b, g);
    TimesDistributes(17 * b, 16 * a, g);
    MulLeast(17 * b - 16 * a, g);
  }

  lemma TimesAssociates(c: int, a: int, g: int)
    ensures (c * a) * g == c * (a * g)
  {
  }

  lemma TimesDistributes(a: int, b: int, g: int)
    ensures (a - b) * g == a * g - b * g
  {
  }

  lemma {:induction false} UnitsOfDown(n: nat, g: nat)
    requires g > 0
    ensures Units(AlignDown(n, g), g) == Units(n, g)
  {
    if n >= g {
      UnitsOfDown(n - g, g);
    }
  }
}
