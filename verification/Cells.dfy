/** Blocks of a pool and the cells they occupy: tiling, totals, neighbours, and which size class each
    free block is due in. Every fact is about sequences of cells; concatenation splits all of them. */
module Cells {
  import opened Arith
  import opened SizeClasses

  /** A node of two lists: of the blocks by offset, always, and of its size class, while it is free. */
  class Block {
    var offset: nat
    var size: nat
    var free: bool
    var prevPhys: Block?
    var nextPhys: Block?
    var prevFree: Block?
    var nextFree: Block?

    constructor (offset: nat, size: nat, prevPhys: Block?, nextPhys: Block?)
      ensures this.offset == offset && this.size == size && free
      ensures this.prevPhys == prevPhys && this.nextPhys == nextPhys && prevFree == null && nextFree == null
    {
      this.offset, this.size, free := offset, size, true;
      this.prevPhys, this.nextPhys, prevFree, nextFree := prevPhys, nextPhys, null, null;
    }
  }

  /** What a block holds: the value of its fields, in physical order. */
  datatype Cell = Cell(block: Block, offset: nat, size: nat, free: bool) {
    ghost function End(): nat {
      offset + size
    }
  }

  // ---- totals ----

  /** The bytes the cells cover. */
  ghost function Bytes(s: seq<Cell>): nat {
    if s == [] then 0 else Bytes(s[..|s| - 1]) + s[|s| - 1].size
  }

  lemma {:induction false} BytesConcat(a: seq<Cell>, b: seq<Cell>)
    ensures Bytes(a + b) == Bytes(a) + Bytes(b)
  {
    if b == [] {
      assert a + b == a;
    } else {
      var n := |b| - 1;
      assert (a + b)[..|a + b| - 1] == a + b[..n] && (a + b)[|a + b| - 1] == b[n];
      BytesConcat(a, b[..n]);
    }
  }

  /** The bytes in live cells. */
  ghost function Used(s: seq<Cell>): nat {
    if s == [] then 0 else Used(s[..|s| - 1]) + (if s[|s| - 1].free then 0 else s[|s| - 1].size)
  }

  lemma {:induction false} UsedConcat(a: seq<Cell>, b: seq<Cell>)
    ensures Used(a + b) == Used(a) + Used(b)
  {
    if b == [] {
      assert a + b == a;
    } else {
      var n := |b| - 1;
      assert (a + b)[..|a + b| - 1] == a + b[..n] && (a + b)[|a + b| - 1] == b[n];
      UsedConcat(a, b[..n]);
    }
  }

  /** How many cells are live. */
  ghost function Live(s: seq<Cell>): nat {
    if s == [] then 0 else Live(s[..|s| - 1]) + (if s[|s| - 1].free then 0 else 1)
  }

  lemma {:induction false} LiveConcat(a: seq<Cell>, b: seq<Cell>)
    ensures Live(a + b) == Live(a) + Live(b)
  {
    if b == [] {
      assert a + b == a;
    } else {
      var n := |b| - 1;
      assert (a + b)[..|a + b| - 1] == a + b[..n] && (a + b)[|a + b| - 1] == b[n];
      LiveConcat(a, b[..n]);
    }
  }

  /** The bytes in free cells. */
  ghost function FreeBytes(s: seq<Cell>): nat {
    if s == [] then 0 else FreeBytes(s[..|s| - 1]) + (if s[|s| - 1].free then s[|s| - 1].size else 0)
  }

  lemma {:induction false} UsedAndFree(s: seq<Cell>)
    ensures Used(s) + FreeBytes(s) == Bytes(s) && Live(s) <= |s|
  {
    if s != [] {
      UsedAndFree(s[..|s| - 1]);
    }
  }

  lemma {:induction false} NoneLive(s: seq<Cell>)
    requires Live(s) == 0
    ensures forall c :: c in s ==> c.free
    ensures Used(s) == 0
  {
    if s != [] {
      NoneLive(s[..|s| - 1]);
      assert forall c :: c in s ==> c in s[..|s| - 1] || c == s[|s| - 1];
    }
  }

  // ---- tiling ----

  ghost predicate OnGrid(c: Cell, g: nat) {
    c.size > 0 && Aligned(c.offset, g) && Aligned(c.size, g)
  }

  /** Where the cells end, if they start at lo. */
  ghost function EndOf(s: seq<Cell>, lo: nat): nat {
    if s == [] then lo else s[|s| - 1].End()
  }

  /** Cell i starts where the one before it ends; it is on the grid and not empty. */
  ghost predicate TileAt(s: seq<Cell>, lo: nat, g: nat, i: nat)
    requires i < |s|
  {
    s[i].offset == (if i == 0 then lo else s[i - 1].End()) && OnGrid(s[i], g)
  }

  /** The cells follow one another from lo without gap or overlap. */
  ghost predicate Tiles(s: seq<Cell>, lo: nat, g: nat) {
    forall i: nat :: i < |s| ==> TileAt(s, lo, g, i)
  }

  lemma TilesJoin(a: seq<Cell>, b: seq<Cell>, lo: nat, g: nat)
    requires Tiles(a, lo, g) && Tiles(b, EndOf(a, lo), g)
    ensures Tiles(a + b, lo, g) && EndOf(a + b, lo) == EndOf(b, EndOf(a, lo))
  {
    forall i: nat | i < |a + b|
      ensures TileAt(a + b, lo, g, i)
    {
      if i < |a| {
        assert TileAt(a, lo, g, i);
      } else {
        assert TileAt(b, EndOf(a, lo), g, i - |a|);
      }
    }
  }

  lemma TilesSplit(a: seq<Cell>, b: seq<Cell>, lo: nat, g: nat)
    requires Tiles(a + b, lo, g)
    ensures Tiles(a, lo, g) && Tiles(b, EndOf(a, lo), g) && EndOf(a + b, lo) == EndOf(b, EndOf(a, lo))
  {
    forall i: nat | i < |a|
      ensures TileAt(a, lo, g, i)
    {
      assert TileAt(a + b, lo, g, i);
    }
    forall i: nat {:trigger TileAt(b, EndOf(a, lo), g, i)} | i < |b|
      ensures TileAt(b, EndOf(a, lo), g, i)
    {
      assert TileAt(a + b, lo, g, |a| + i);
    }
  }

  lemma TilesOne(c: Cell, lo: nat, g: nat)
    requires c.offset == lo && OnGrid(c, g)
    ensures Tiles([c], lo, g) && EndOf([c], lo) == c.End()
  {
  }

  /** Tiles cover what they measure. */
  lemma {:induction false} TilesBytes(s: seq<Cell>, lo: nat, g: nat)
    requires Tiles(s, lo, g)
    ensures EndOf(s, lo) == lo + Bytes(s)
  {
    if s != [] {
      var n := |s| - 1;
      assert s == s[..n] + [s[n]];
      TilesSplit(s[..n], [s[n]], lo, g);
      TilesBytes(s[..n], lo, g);
      assert TileAt(s, lo, g, n);
    }
  }

  /** Earlier cells end at or before the start of later ones. */
  lemma {:induction false} TilesApart(s: seq<Cell>, lo: nat, g: nat, i: nat, j: nat)
    requires Tiles(s, lo, g) && i < j < |s|
    ensures s[i].End() <= s[j].offset
  {
    assert TileAt(s, lo, g, j);
    if i < j - 1 {
      TilesApart(s, lo, g, i, j - 1);
    }
  }

  lemma TilesInside(s: seq<Cell>, lo: nat, g: nat, i: nat)
    requires Tiles(s, lo, g) && i < |s|
    ensures OnGrid(s[i], g) && s[i].End() <= EndOf(s, lo)
  {
    assert TileAt(s, lo, g, i);
    if i < |s| - 1 {
      TilesApart(s, lo, g, i, |s| - 1);
    }
  }

  // ---- neighbours ----

  ghost predicate NotBothFree(s: seq<Cell>, i: nat)
    requires i + 1 < |s|
  {
    !(s[i].free && s[i + 1].free)
  }

  /** No two physically adjacent cells are both free. */
  ghost predicate NoAdjacentFree(s: seq<Cell>) {
    forall i: nat :: i + 1 < |s| ==> NotBothFree(s, i)
  }

  /** When nothing is live, one free cell covers everything. */
  lemma AllFreeIsOne(s: seq<Cell>, g: nat)
    requires s != [] && Tiles(s, 0, g) && NoAdjacentFree(s) && Live(s) == 0
    ensures |s| == 1 && s[0].free && s[0].offset == 0 && s[0].size == EndOf(s, 0)
  {
    NoneLive(s);
    assert |s| > 1 ==> NotBothFree(s, 0);
    assert TileAt(s, 0, g, 0);
  }

  // ---- blocks ----

  ghost predicate Apart(s: seq<Cell>, i: nat, j: nat)
    requires i < |s| && j < |s|
  {
    s[i].block != s[j].block
  }

  ghost predicate DistinctBlocks(s: seq<Cell>) {
    forall i: nat, j: nat :: i < j < |s| ==> Apart(s, i, j)
  }

  ghost function BlocksOf(s: seq<Cell>): set<Block> {
    set c | c in s :: c.block
  }

  lemma BlocksConcat(a: seq<Cell>, b: seq<Cell>)
    ensures BlocksOf(a + b) == BlocksOf(a) + BlocksOf(b)
  {
  }

  /** A block identifies its cell. */
  lemma SameCell(s: seq<Cell>, i: nat, j: nat)
    requires DistinctBlocks(s) && i < |s| && j < |s| && s[i].block == s[j].block
    ensures i == j
  {
    assert i < j ==> Apart(s, i, j);
    assert j < i ==> Apart(s, j, i);
  }

  lemma DistinctConcat(a: seq<Cell>, b: seq<Cell>)
    ensures DistinctBlocks(a + b) <==> DistinctBlocks(a) && DistinctBlocks(b) && BlocksOf(a) !! BlocksOf(b)
  {
    var s := a + b;
    if DistinctBlocks(s) {
      forall i: nat, j: nat | i < j < |a|
        ensures Apart(a, i, j)
      {
        assert Apart(s, i, j);
      }
      forall i: nat, j: nat | i < j < |b|
        ensures Apart(b, i, j)
      {
        assert Apart(s, |a| + i, |a| + j);
      }
      forall i: nat, j: nat | i < |a| && j < |b|
        ensures a[i].block != b[j].block
      {
        assert Apart(s, i, |a| + j);
      }
    }
    if DistinctBlocks(a) && DistinctBlocks(b) && BlocksOf(a) !! BlocksOf(b) {
      forall i: nat, j: nat | i < j < |s|
        ensures Apart(s, i, j)
      {
        assert j < |a| ==> Apart(a, i, j);
        assert i >= |a| ==> Apart(b, i - |a|, j - |a|);
        assert i < |a| <= j ==> a[i].block in BlocksOf(a) && b[j - |a|].block in BlocksOf(b);
      }
    }
  }

  // ---- classes ----

  type Listing = iset<(Block, SizeClass)>

  /** Which block belongs in which class. */
  ghost function Due(s: seq<Cell>, g: nat): Listing
    requires g > 0
  {
    iset c | c in s && c.free :: (c.block, Mapping(c.size, g))
  }

  ghost function DueOne(c: Cell, g: nat): Listing
    requires g > 0
  {
    if c.free then iset{(c.block, Mapping(c.size, g))} else iset{}
  }

  lemma DueConcat(a: seq<Cell>, b: seq<Cell>, g: nat)
    requires g > 0
    ensures Due(a + b, g) == Due(a, g) + Due(b, g)
  {
  }

  lemma DueSingle(c: Cell, g: nat)
    requires g > 0
    ensures Due([c], g) == DueOne(c, g)
  {
  }
}
