/** Where the subresources of a texture lie in its buffer: level by level, layer by layer, with no gap
    and no overlap. */
module Mips {
  import opened Arith

  /** What a device says about one format: its row pitch for a width (zero when there is no
      linear layout), its stencil plane's pitch, and the alignment buffer copies need. */
  datatype Device = Device(rowPitch: nat -> nat, stencilPitch: nat -> nat, copyAlignment: nat)

  datatype Descriptor = Descriptor(width: int, height: int, mipLevels: int, arrayLayers: int)

  datatype Subresource =
    Subresource(offset: nat, size: nat, width: nat, height: nat, pitch: nat, stencilPitch: nat)

  function Max(a: int, b: int): int { if a < b then b else a }

  /** Arithmetic shift to the right: halved, rounding down. */
  function Shr(n: int, k: nat): int
    decreases k
  {
    if k == 0 then n else Shr(n / 2, k - 1)
  }

  function MipExtent(base: int, level: nat): nat { Max(1, Shr(base, level)) }

  function LevelPitch(d: Device, width: nat): nat {
    if d.rowPitch(width) != 0 then d.rowPitch(width) else AlignUp(width * 4, d.copyAlignment)
  }

  function Levels(t: Descriptor): nat { Max(t.mipLevels, 1) }

  function Layers(t: Descriptor): nat { Max(t.arrayLayers, 1) }

  /** The bytes of one layer of level m, both planes. */
  function LevelSize(d: Device, t: Descriptor, m: nat): nat {
    var w := MipExtent(t.width, m);
    (LevelPitch(d, w) + d.stencilPitch(w)) * MipExtent(t.height, m)
  }

  /** Where level m begins: after every layer of every level before it. */
  function LevelStart(d: Device, t: Descriptor, m: nat): nat {
    if m == 0 then 0 else LevelStart(d, t, m - 1) + LevelSize(d, t, m - 1) * Layers(t)
  }

  function Offset(d: Device, t: Descriptor, m: nat, l: nat): nat {
    LevelStart(d, t, m) + l * LevelSize(d, t, m)
  }

  function End(d: Device, t: Descriptor, m: nat, l: nat): nat {
    Offset(d, t, m, l) + LevelSize(d, t, m)
  }

  predicate Within(d: Device, t: Descriptor, m: nat, l: nat, byte: nat) {
    Offset(d, t, m, l) <= byte < End(d, t, m, l)
  }

  /** A texture has its base level whatever its count says, and otherwise the levels it counts. */
  ghost predicate InChain(t: Descriptor, m: nat) {
    m == 0 || m < t.mipLevels
  }

  ghost predicate HasLayer(t: Descriptor, l: nat) {
    l == 0 || l < t.arrayLayers
  }

  // ---- the loops ----

  /** The layout walked level by level; a level past the chain is the empty subresource. */
  method SubresourceOf(d: Device, t: Descriptor, mip: nat, layer: nat) returns (r: Subresource)
    ensures InChain(t, mip) ==> r.offset == Offset(d, t, mip, layer)
    ensures InChain(t, mip) ==> r.offset + r.size == End(d, t, mip, layer)
    ensures InChain(t, mip) ==> r.width == MipExtent(t.width, mip) && r.height == MipExtent(t.height, mip)
    ensures InChain(t, mip) ==> r.size == (r.pitch + r.stencilPitch) * r.height
    ensures InChain(t, mip) ==> r.stencilPitch == d.stencilPitch(r.width)
    ensures InChain(t, mip) && d.rowPitch(r.width) != 0 ==> r.pitch == d.rowPitch(r.width)
    ensures InChain(t, mip) && d.rowPitch(r.width) == 0 ==>
              && Aligned(r.pitch, d.copyAlignment)
              && 4 * r.width <= r.pitch < 4 * r.width + (if d.copyAlignment > 1 then d.copyAlignment else 1)
    ensures !InChain(t, mip) ==> r == Subresource(0, 0, 0, 0, 0, 0)
  {
    var levels, layers := Levels(t), Layers(t);
    var off: nat := 0;
    for m := 0 to levels
      invariant off == LevelStart(d, t, m)
      invariant mip < Levels(t) ==> m <= mip
    {
      var w, h := MipExtent(t.width, m), MipExtent(t.height, m);
      var pitch := LevelPitch(d, w);
      var stencil := d.stencilPitch(w);
      var size := (pitch + stencil) * h;
      if m == mip {
        AlignUpLeast(w * 4, d.copyAlignment, 0);
        return Subresource(off + layer * size, size, w, h, pitch, stencil);
      }
      off := off + size * layers;
    }
    r := Subresource(0, 0, 0, 0, 0, 0);
  }

  /** A texture's whole footprint is where the level after its last would begin. */
  method TextureBytes(d: Device, t: Descriptor) returns (total: nat)
    ensures total == LevelStart(d, t, Levels(t))
  {
    var levels, layers := Levels(t), Layers(t);
    total := 0;
    for m := 0 to levels
      invariant total == LevelStart(d, t, m)
    {
      var w, h := MipExtent(t.width, m), MipExtent(t.height, m);
      total := total + (LevelPitch(d, w) + d.stencilPitch(w)) * h * layers;
    }
  }

  /** The least level count whose last level is one texel by one. */
  method MipChainLength(width: int, height: int) returns (n: nat)
    ensures n >= 1 && MipExtent(width, n - 1) == 1 && MipExtent(height, n - 1) == 1
    ensures forall m: nat :: m < n - 1 ==> MipExtent(width, m) > 1 || MipExtent(height, m) > 1
  {
    n := 1;
    var w, h := width, height;
    while w > 1 || h > 1
      invariant n >= 1
      invariant Max(1, w) == MipExtent(width, n - 1) && Max(1, h) == MipExtent(height, n - 1)
      invariant forall m: nat :: m < n - 1 ==> MipExtent(width, m) > 1 || MipExtent(height, m) > 1
      decreases Max(1, w) + Max(1, h)
    {
      ShrStep(width, n - 1);
      ShrStep(height, n - 1);
      w, h := Max(1, w / 2), Max(1, h / 2);
      n := n + 1;
    }
  }

  // ---- what they amount to ----

  lemma {:induction false} ShrStep(n: int, k: nat)
    ensures Shr(n, k + 1) == Shr(n, k) / 2
    decreases k
  {
    if k > 0 {
      ShrStep(n / 2, k - 1);
    }
  }

  /** The base level has the texture's extent, every level half of the one before, and none less than one. */
  lemma ExtentHalves(base: int, level: nat)
    ensures MipExtent(base, 0) == if base < 1 then 1 else base
    ensures MipExtent(base, level + 1) == if MipExtent(base, level) < 2 then 1 else MipExtent(base, level) / 2
  {
    ShrStep(base, level);
  }

  /** The layers of a level are consecutive, and the last one ends where the next level begins. */
  lemma Consecutive(d: Device, t: Descriptor, m: nat, l: nat)
    requires l < Layers(t)
    ensures End(d, t, m, l) == if l + 1 < Layers(t) then Offset(d, t, m, l + 1) else Offset(d, t, m + 1, 0)
  {
    MulSucc(l, LevelSize(d, t, m));
  }

  lemma MulSucc(l: nat, size: nat)
    ensures (l + 1) * size == l * size + size == size * (l + 1)
  {
  }

  lemma {:induction false} LevelsInOrder(d: Device, t: Descriptor, m: nat, n: nat)
    requires m <= n
    ensures LevelStart(d, t, m) <= LevelStart(d, t, n)
  {
    if m < n {
      LevelsInOrder(d, t, m, n - 1);
    }
  }

  lemma {:induction false} LayersInOrder(size: nat, l: nat, k: nat)
    requires l < k
    ensures l * size + size <= k * size
  {
    if l < k - 1 {
      LayersInOrder(size, l, k - 1);
    }
    assert k * size == (k - 1) * size + size;
  }

  /** A subresource that comes earlier in (level, layer) order ends before the later one begins,
      and every one lies inside the texture. */
  lemma InOrder(d: Device, t: Descriptor, m: nat, l: nat, n: nat, k: nat)
    requires m < Levels(t) && n < Levels(t) && l < Layers(t) && k < Layers(t)
    requires m < n || (m == n && l < k)
    ensures End(d, t, m, l) <= Offset(d, t, n, k)
    ensures End(d, t, n, k) <= LevelStart(d, t, Levels(t))
  {
    if m < n {
      InsideLevel(d, t, m, l);
      LevelsInOrder(d, t, m + 1, n);
    } else {
      LayersInOrder(LevelSize(d, t, m), l, k);
    }
    InsideLevel(d, t, n, k);
    LevelsInOrder(d, t, n + 1, Levels(t));
  }

  lemma InsideLevel(d: Device, t: Descriptor, m: nat, l: nat)
    requires l < Layers(t)
    ensures End(d, t, m, l) <= LevelStart(d, t, m + 1)
  {
    LayersInOrder(LevelSize(d, t, m), l, Layers(t));
  }

  /** No two different subresources share a byte. */
  lemma Disjoint(d: Device, t: Descriptor, m: nat, l: nat, n: nat, k: nat, byte: nat)
    requires m < Levels(t) && n < Levels(t) && l < Layers(t) && k < Layers(t)
    requires Within(d, t, m, l, byte) && Within(d, t, n, k, byte)
    ensures m == n && l == k
  {
    if m < n || (m == n && l < k) {
      InOrder(d, t, m, l, n, k);
    } else if n < m || k < l {
      InOrder(d, t, n, k, m, l);
    }
  }

  /** Every byte of the texture belongs to a subresource, and no subresource reaches past it. */
  lemma {:induction false} Tiled(d: Device, t: Descriptor, byte: nat)
    ensures byte < LevelStart(d, t, Levels(t)) <==>
      exists m: nat, l: nat :: InChain(t, m) && HasLayer(t, l) && Within(d, t, m, l, byte)
  {
    if byte < LevelStart(d, t, Levels(t)) {
      var m := LevelHolding(d, t, Levels(t), byte);
      var l := LayerHolding(LevelSize(d, t, m), Layers(t), byte - LevelStart(d, t, m));
      assert Within(d, t, m, l, byte);
    }
    forall m: nat, l: nat | InChain(t, m) && HasLayer(t, l) && Within(d, t, m, l, byte)
      ensures byte < LevelStart(d, t, Levels(t))
    {
      InsideLevel(d, t, m, l);
      LevelsInOrder(d, t, m + 1, Levels(t));
    }
  }

  lemma {:induction false} LevelHolding(d: Device, t: Descriptor, n: nat, byte: nat) returns (m: nat)
    requires byte < LevelStart(d, t, n)
    ensures m < n && LevelStart(d, t, m) <= byte < LevelStart(d, t, m) + LevelSize(d, t, m) * Layers(t)
  {
    if byte < LevelStart(d, t, n - 1) {
      m := LevelHolding(d, t, n - 1, byte);
    } else {
      m := n - 1;
    }
  }

  lemma {:induction false} LayerHolding(size: nat, layers: nat, at: nat) returns (l: nat)
    requires at < size * layers
    ensures l < layers && l * size <= at < l * size + size
  {
    if layers > 0 && at < size * (layers - 1) {
      l := LayerHolding(size, layers - 1, at);
    } else {
      assert layers > 0 ==> size * layers == size * (layers - 1) + size;
      l := layers - 1;
    }
  }
}
