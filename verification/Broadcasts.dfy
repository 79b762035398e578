/** Broadcasts that copies alone can materialize: one contiguous run, repeated. */
module Broadcasts {
  import opened Arith
  import opened Shapes

  /** A layout over some storage: extents, strides in elements, and where it starts. */
  datatype View = View(shape: Shape, strides: seq<nat>, offset: nat) {
    ghost predicate Ok() {
      |shape| == |strides|
    }
  }

  /** The stride axis i of `want` has when t is broadcast to it: zero where the axis repeats. */
  function EffectiveAt(t: View, want: Shape, i: nat): nat
    requires t.Ok() && |t.shape| <= |want| && i < |want|
  {
    var off := |want| - |t.shape|;
    if i < off || t.shape[i - off] != want[i] then 0 else t.strides[i - off]
  }

  function EffectiveFrom(t: View, want: Shape, i: nat): (st: seq<nat>)
    requires t.Ok() && |t.shape| <= |want| && i <= |want|
    ensures |st| == |want| - i
    decreases |want| - i
  {
    if i == |want| then [] else [EffectiveAt(t, want, i)] + EffectiveFrom(t, want, i + 1)
  }

  /** Every axis longer than one is the operand's own, absent from it, or expanded from one. */
  ghost predicate Expands(t: View, want: Shape) {
    |t.shape| <= |want| && forall i :: 0 <= i < |want| ==> AxisExpands(t, want, i)
  }

  ghost predicate AxisExpands(t: View, want: Shape, i: nat)
    requires |t.shape| <= |want| && i < |want|
  {
    var off := |want| - |t.shape|;
    want[i] == 1 || i < off || t.shape[i - off] == want[i] || t.shape[i - off] == 1
  }

  /** The element of the operand, past its offset, that a broadcast reads at coordinate c. */
  ghost function Pattern(t: View, want: Shape, c: seq<nat>): nat
    requires t.Ok() && |t.shape| <= |want| && |c| == |want|
  {
    Dot(c, EffectiveFrom(t, want, 0))
  }

  /** The axes from i on read "position modulo block". */
  ghost predicate ModularFrom(t: View, want: Shape, i: nat, block: nat)
    requires t.Ok() && |t.shape| <= |want| && i <= |want|
  {
    block > 0 && forall c :: Within(c, want[i..]) ==> ModularAt(t, want, i, block, c)
  }

  ghost predicate ModularAt(t: View, want: Shape, i: nat, block: nat, c: seq<nat>)
    requires t.Ok() && |t.shape| <= |want| && i <= |want| && |c| == |want| - i && block > 0
  {
    Dot(c, EffectiveFrom(t, want, i)) == Linear(want[i..], c) % block
  }

  /** The whole broadcast reads "linear index modulo block". */
  ghost predicate Modular(t: View, want: Shape, block: nat)
    requires t.Ok() && |t.shape| <= |want|
  {
    ModularFrom(t, want, 0, block)
  }

  lemma ModularMeans(t: View, want: Shape, block: nat, c: seq<nat>)
    requires t.Ok() && |t.shape| <= |want| && Modular(t, want, block) && Within(c, want)
    ensures Pattern(t, want, c) == Linear(want, c) % block
  {
    assert want[0..] == want;
    assert ModularAt(t, want, 0, block, c);
  }

  // ---- one axis at a time ----

  lemma AxisSplit(t: View, want: Shape, i: nat, c: seq<nat>)
    requires t.Ok() && |t.shape| <= |want| && i < |want| && Within(c, want[i..])
    ensures Within(c[1..], want[i + 1..]) && c[0] < want[i]
    ensures Dot(c, EffectiveFrom(t, want, i)) ==
            c[0] * EffectiveAt(t, want, i) + Dot(c[1..], EffectiveFrom(t, want, i + 1))
    ensures Linear(want[i..], c) == c[0] * Elements(want[i + 1..]) + Linear(want[i + 1..], c[1..])
  {
    assert want[i..][1..] == want[i + 1..] && want[i..][0] == want[i];
    assert EffectiveFrom(t, want, i)[1..] == EffectiveFrom(t, want, i + 1);
  }

  lemma ElementsAt(want: Shape, i: nat)
    requires i < |want|
    ensures Elements(want[i..]) == want[i] * Elements(want[i + 1..])
  {
    assert want[i..][1..] == want[i + 1..] && want[i..][0] == want[i];
  }

  /** A size-one axis changes nothing. */
  lemma UnitAxis(t: View, want: Shape, i: nat, block: nat)
    requires t.Ok() && |t.shape| <= |want| && i < |want| && want[i] == 1 && ModularFrom(t, want, i + 1, block)
    ensures ModularFrom(t, want, i, block)
  {
    forall c | Within(c, want[i..])
      ensures ModularAt(t, want, i, block, c)
    {
      AxisSplit(t, want, i, c);
      assert ModularAt(t, want, i + 1, block, c[1..]);
    }
  }

  /** A repeating axis reads the run again. */
  lemma RepeatAxis(t: View, want: Shape, i: nat, block: nat, times: nat)
    requires t.Ok() && |t.shape| <= |want| && i < |want| && EffectiveAt(t, want, i) == 0
    requires ModularFrom(t, want, i + 1, block) && Elements(want[i + 1..]) == block * times
    ensures ModularFrom(t, want, i, block)
  {
    forall c | Within(c, want[i..])
      ensures ModularAt(t, want, i, block, c)
    {
      AxisSplit(t, want, i, c);
      var x := Linear(want[i + 1..], c[1..]);
      assert ModularAt(t, want, i + 1, block, c[1..]);
      ProductReassociate(c[0], times, block);
      assert block * times == times * block;
      MultipleMod(c[0] * times, block, x);
    }
  }

  lemma MultipleMod(a: nat, block: nat, x: nat)
    requires block > 0
    ensures (a * block + x) % block == x % block
  {
    assert (a + x / block) * block == a * block + x / block * block;
    DivModUnique(a * block + x, block, a + x / block, x % block);
  }

  /** An axis whose stride is the run so far extends the run. */
  lemma RunAxis(t: View, want: Shape, i: nat, block: nat)
    requires t.Ok() && |t.shape| <= |want| && i < |want| && EffectiveAt(t, want, i) == block
    requires ModularFrom(t, want, i + 1, block) && Elements(want[i + 1..]) == block && want[i] > 0
    ensures block * want[i] > 0 && ModularFrom(t, want, i, block * want[i])
  {
    ElementsAt(want, i);
    ProductPositive(block, want[i]);
    forall c | Within(c, want[i..])
      ensures ModularAt(t, want, i, block * want[i], c)
    {
      AxisSplit(t, want, i, c);
      assert ModularAt(t, want, i + 1, block, c[1..]);
      LinearBelow(want[i..], c);
      LinearBelow(want[i + 1..], c[1..]);
      SmallMod(Linear(want[i + 1..], c[1..]), block);
      assert want[i] * block == block * want[i];
      SmallMod(Linear(want[i..], c), block * want[i]);
    }
  }

  lemma SmallMod(x: nat, n: nat)
    requires x < n
    ensures x % n == x
  {
  }

  lemma RemainderBelow(x: nat, n: nat)
    requires n > 0
    ensures x % n < n
  {
  }

  // ---- refusal ----

  lemma {:induction false} ZerosAdd(want: Shape, i: nat, st: seq<nat>, z: seq<nat>, c: seq<nat>)
    requires |z| == i <= |want| && |st| == |want| && |c| == |want| - i
    requires forall k :: 0 <= k < i ==> z[k] == 0
    ensures Linear(want, z + c) == Linear(want[i..], c) && Dot(z + c, st) == Dot(c, st[i..])
  {
    if i == 0 {
      assert z + c == c && want[0..] == want && st[0..] == st;
    } else {
      assert (z + c)[1..] == z[1..] + c && want[1..][i - 1..] == want[i..] && st[1..][i - 1..] == st[i..];
      ZerosAdd(want[1..], i - 1, st[1..], z[1..], c);
    }
  }

  lemma {:induction false} EffectiveSuffix(t: View, want: Shape, j: nat, i: nat)
    requires t.Ok() && |t.shape| <= |want| && j <= i <= |want|
    ensures EffectiveFrom(t, want, j)[i - j..] == EffectiveFrom(t, want, i)
    decreases i - j
  {
    if j < i {
      EffectiveSuffix(t, want, j + 1, i);
      assert EffectiveFrom(t, want, j)[i - j..] == EffectiveFrom(t, want, j + 1)[i - j - 1..];
    }
  }

  /** A modular broadcast is modular on its inner axes alone. */
  lemma InnerModular(t: View, want: Shape, i: nat, block: nat)
    requires t.Ok() && |t.shape| <= |want| && i <= |want| && Positive(want) && Modular(t, want, block)
    ensures ModularFrom(t, want, i, block)
  {
    var z := seq(i, _ => 0);
    forall c | Within(c, want[i..])
      ensures ModularAt(t, want, i, block, c)
    {
      ZerosAdd(want, i, EffectiveFrom(t, want, 0), z, c);
      EffectiveSuffix(t, want, 0, i);
      assert want[0..] == want && Within(z + c, want);
      assert ModularAt(t, want, 0, block, z + c);
    }
  }

  /** Position k of the axes from i on, read two ways. */
  lemma SameRemainder(t: View, want: Shape, i: nat, b: nat, d: nat, k: nat)
    requires t.Ok() && |t.shape| <= |want| && i <= |want|
    requires ModularFrom(t, want, i, b) && ModularFrom(t, want, i, d) && k < Elements(want[i..])
    ensures k % b == k % d
  {
    var c := Coord(want[i..], k);
    assert ModularAt(t, want, i, b, c) && ModularAt(t, want, i, d, c);
  }

  lemma {:induction false} LinearZeros(s: Shape, z: seq<nat>, st: seq<nat>)
    requires |z| == |s| == |st| && forall k :: 0 <= k < |z| ==> z[k] == 0
    ensures Linear(s, z) == 0 && Dot(z, st) == 0
  {
    if s != [] {
      LinearZeros(s[1..], z[1..], st[1..]);
    }
  }

  /** One step along axis i, in a modular broadcast. */
  lemma StepAlong(t: View, want: Shape, i: nat, b: nat)
    requires t.Ok() && |t.shape| <= |want| && i < |want| && Positive(want) && want[i] > 1 && ModularFrom(t, want, i, b)
    ensures EffectiveAt(t, want, i) == Elements(want[i + 1..]) % b
  {
    var z := seq(|want| - i - 1, _ => 0);
    var c := [1] + z;
    assert Within(c, want[i..]) && c[1..] == z;
    AxisSplit(t, want, i, c);
    LinearZeros(want[i + 1..], z, EffectiveFrom(t, want, i + 1));
    assert ModularAt(t, want, i, b, c);
  }

  /** Axis i neither repeats nor extends the run, so no modulus explains the whole broadcast. */
  lemma NotModular(t: View, want: Shape, i: nat, block: nat, times: nat, b: nat)
    requires t.Ok() && |t.shape| <= |want| && i < |want| && Positive(want) && want[i] > 1
    requires ModularFrom(t, want, i + 1, block) && Elements(want[i + 1..]) == block * times && times > 0
    requires EffectiveAt(t, want, i) != 0 && (times > 1 || EffectiveAt(t, want, i) != block)
    ensures !Modular(t, want, b)
  {
    if Modular(t, want, b) {
      InnerModular(t, want, i, b);
      InnerModular(t, want, i + 1, b);
      StepAlong(t, want, i, b);
      var n := Elements(want[i + 1..]);
      TimesAtLeast(block, times);
      SameRemainder(t, want, i + 1, block, b, block - 1);
      SmallMod(block - 1, block);
      RemainderBelow(block - 1, b);
      MultipleMod(1, block, 0);
      if b > block {
        SmallMod(block, b);
      }
      if times > 1 {
        SameRemainder(t, want, i + 1, block, b, block);
        assert block * times == times * block;
        MultipleMod(times, block, 0);
      }
      assert false;
    }
  }

  lemma TimesAtLeast(block: nat, times: nat)
    requires block > 0 && times > 0
    ensures block * times >= block
    ensures times > 1 ==> block * times > block
  {
    MulLeast(times - 1, block);
    assert block * times == (times - 1) * block + block;
  }

  // ---- the test ----

  /** What the walk knows once it has passed the axes from i on: a run of `block`, read `times` times. */
  ghost predicate Walked(t: View, want: Shape, i: nat, block: nat, times: nat)
    requires t.Ok() && |t.shape| <= |want| && i <= |want|
  {
    && ModularFrom(t, want, i, block) && Elements(want[i..]) == block * times && times > 0
    && forall j :: i <= j < |want| ==> AxisExpands(t, want, j)
  }

  lemma WalkStart(t: View, want: Shape)
    requires t.Ok() && |t.shape| <= |want|
    ensures Walked(t, want, |want|, 1, 1)
  {
    forall c | Within(c, want[|want|..])
      ensures ModularAt(t, want, |want|, 1, c)
    {
      assert c == [];
    }
  }

  lemma WalkUnit(t: View, want: Shape, i: nat, block: nat, times: nat)
    requires t.Ok() && |t.shape| <= |want| && i < |want| && Walked(t, want, i + 1, block, times) && want[i] == 1
    ensures Walked(t, want, i, block, times)
  {
    ElementsAt(want, i);
    UnitAxis(t, want, i, block);
  }

  lemma WalkRepeat(t: View, want: Shape, i: nat, block: nat, times: nat)
    requires t.Ok() && |t.shape| <= |want| && i < |want| && Walked(t, want, i + 1, block, times) && want[i] > 1
    requires AxisExpands(t, want, i) && EffectiveAt(t, want, i) == 0
    ensures times * want[i] > 1 && Walked(t, want, i, block, times * want[i])
  {
    ElementsAt(want, i);
    RepeatAxis(t, want, i, block, times);
    RepeatTimes(want[i], block, times);
  }

  lemma WalkRun(t: View, want: Shape, i: nat, block: nat)
    requires t.Ok() && |t.shape| <= |want| && i < |want| && Walked(t, want, i + 1, block, 1) && want[i] > 1
    requires AxisExpands(t, want, i) && EffectiveAt(t, want, i) == block
    ensures Walked(t, want, i, block * want[i], 1)
  {
    ElementsAt(want, i);
    RunAxis(t, want, i, block);
    assert want[i] * block == block * want[i];
  }

  lemma WalkRefuses(t: View, want: Shape, i: nat, block: nat, times: nat)
    requires t.Ok() && Positive(want) && |t.shape| <= |want| && i < |want| && want[i] > 1
    requires Walked(t, want, i + 1, block, times)
    requires EffectiveAt(t, want, i) != 0 && (times > 1 || EffectiveAt(t, want, i) != block)
    ensures forall b :: !Modular(t, want, b)
  {
    forall b
      ensures !Modular(t, want, b)
    {
      NotModular(t, want, i, block, times, b);
    }
  }

  /** How to build `want` from t with copies of one run. */
  method BroadcastRepeats(t: View, want: Shape) returns (block: nat, times: nat, ok: bool)
    requires t.Ok() && Positive(want)
    ensures ok ==> Expands(t, want) && Modular(t, want, block) && block * times == Elements(want)
    ensures ok <==> Expands(t, want) && exists b :: Modular(t, want, b)
  {
    block, times := 1, 1;
    if |want| < |t.shape| {
      return 0, 0, false;
    }
    var off := |want| - |t.shape|;
    var repeating := false;
    WalkStart(t, want);
    for i := |want| downto 0
      invariant Walked(t, want, i, block, times) && (repeating <==> times > 1)
    {
      var extent := want[i];
      if extent == 1 {
        WalkUnit(t, want, i, block, times);
        continue;
      }
      var stride := 0;
      if i >= off {
        if t.shape[i - off] == extent {
          stride := t.strides[i - off];
        } else if t.shape[i - off] != 1 {
          assert !AxisExpands(t, want, i);
          return 0, 0, false;
        }
      }
      if stride == 0 {
        WalkRepeat(t, want, i, block, times);
        repeating := true;
        times := times * extent;
      } else if repeating || stride != block {
        WalkRefuses(t, want, i, block, times);
        return 0, 0, false;
      } else {
        WalkRun(t, want, i, block);
        block := block * extent;
      }
    }
    assert want[0..] == want;
    assert Modular(t, want, block);
    ok := true;
  }

  lemma RepeatTimes(extent: nat, block: nat, times: nat)
    requires extent > 1 && times > 0
    ensures extent * (block * times) == block * (times * extent) && times * extent > 1
  {
    ProductReassociate(block, times, extent);
    assert extent * (block * times) == (block * times) * extent;
    TimesAtLeast(extent, times);
    assert extent * times == times * extent;
  }

  /** Copying the run `times` times puts the broadcast value at every coordinate. */
  lemma CopiesBroadcast(t: View, want: Shape, block: nat, times: nat, c: seq<nat>)
    requires t.Ok() && |t.shape| <= |want| && Modular(t, want, block) && block * times == Elements(want)
    requires Within(c, want)
    ensures var x := Linear(want, c);
            && x / block < times && x == x / block * block + x % block
            && t.offset + x % block == t.offset + Pattern(t, want, c)
  {
    LinearBelow(want, c);
    RunPosition(Linear(want, c), block, times);
    ModularMeans(t, want, block, c);
  }

  lemma RunPosition(x: nat, block: nat, times: nat)
    requires block > 0 && x < block * times
    ensures x / block < times && x == x / block * block + x % block
  {
    assert block * times == times * block;
    QuotientBelow(x, times, block);
  }
}
