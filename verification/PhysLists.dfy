/** The physical block list: splitting a block in two, at either end, and absorbing a neighbour. */
module PhysLists {
  import opened Cells

  ghost function BlockAt(s: seq<Cell>, i: int): Block? {
    if 0 <= i < |s| then s[i].block else null
  }

  /** Block i's fields are what cell i says, and it is linked to its neighbours. */
  ghost predicate LinkAt(s: seq<Cell>, i: nat)
    requires i < |s|
    reads BlocksOf(s)`offset, BlocksOf(s)`size, BlocksOf(s)`free, BlocksOf(s)`prevPhys, BlocksOf(s)`nextPhys
  {
    var c := s[i];
    assert c in s;
    && c.block.offset == c.offset && c.block.size == c.size && c.block.free == c.free
    && c.block.prevPhys == BlockAt(s, i - 1) && c.block.nextPhys == BlockAt(s, i + 1)
  }

  ghost predicate Linked(s: seq<Cell>)
    reads BlocksOf(s)`offset, BlocksOf(s)`size, BlocksOf(s)`free, BlocksOf(s)`prevPhys, BlocksOf(s)`nextPhys
  {
    forall i: nat :: i < |s| ==> LinkAt(s, i)
  }

  /** Cell i split in two: its first `front` bytes, and the rest. */
  ghost function SplitCells(s: seq<Cell>, i: nat, a: Cell, b: Cell): seq<Cell>
    requires i < |s|
  {
    s[..i] + [a, b] + s[i + 1..]
  }

  /** Takes the first `pad` bytes of block i away as a new free block before it. */
  method SplitFront(b: Block, pad: nat, ghost s: seq<Cell>, ghost i: nat) returns (h: Block)
    requires Linked(s) && DistinctBlocks(s) && i < |s| && s[i].block == b && pad <= s[i].size
    modifies BlocksOf(s)`nextPhys, b`prevPhys, b`offset, b`size
    ensures fresh(h) && h.free && h.size == pad
    ensures Linked(SplitCells(s, i, Cell(h, s[i].offset, pad, true),
                              Cell(b, s[i].offset + pad, s[i].size - pad, s[i].free)))
  {
    assert LinkAt(s, i) && (i > 0 ==> LinkAt(s, i - 1) && Apart(s, i - 1, i));
    h := new Block(b.offset, pad, b.prevPhys, b);
    if b.prevPhys != null {
      b.prevPhys.nextPhys := h;
    }
    b.prevPhys := h;
    b.offset := b.offset + pad;
    b.size := b.size - pad;
    ghost var t := SplitCells(s, i, Cell(h, s[i].offset, pad, true),
                              Cell(b, s[i].offset + pad, s[i].size - pad, s[i].free));
    forall j: nat | j < |t|
      ensures LinkAt(t, j)
    {
      if j < i {
        assert old(LinkAt(s, j)) && Apart(s, j, i);
        assert j + 1 < i ==> Apart(s, j, i - 1);
      } else if j > i + 1 {
        assert old(LinkAt(s, j - 1)) && Apart(s, i, j - 1);
        assert i > 0 ==> Apart(s, i - 1, j - 1);
      }
    }
  }

  /** Takes all but the first `front` bytes of block i away as a new free block after it. */
  method SplitBack(b: Block, front: nat, ghost s: seq<Cell>, ghost i: nat) returns (t: Block)
    requires Linked(s) && DistinctBlocks(s) && i < |s| && s[i].block == b && front <= s[i].size
    modifies BlocksOf(s)`prevPhys, b`nextPhys, b`size
    ensures fresh(t) && t.free && t.size == old(b.size) - front
    ensures Linked(SplitCells(s, i, Cell(b, s[i].offset, front, s[i].free),
                              Cell(t, s[i].offset + front, s[i].size - front, true)))
  {
    assert LinkAt(s, i) && (i + 1 < |s| ==> LinkAt(s, i + 1) && Apart(s, i, i + 1));
    t := new Block(b.offset + front, b.size - front, b, b.nextPhys);
    if b.nextPhys != null {
      b.nextPhys.prevPhys := t;
    }
    b.nextPhys := t;
    b.size := front;
    ghost var u := SplitCells(s, i, Cell(b, s[i].offset, front, s[i].free),
                              Cell(t, s[i].offset + front, s[i].size - front, true));
    forall j: nat | j < |u|
      ensures LinkAt(u, j)
    {
      if j < i {
        assert old(LinkAt(s, j)) && Apart(s, j, i);
        assert i + 1 < |s| ==> Apart(s, j, i + 1);
      } else if j > i + 1 {
        assert old(LinkAt(s, j - 1)) && Apart(s, i, j - 1);
        assert i + 1 < j - 1 ==> Apart(s, i + 1, j - 1);
      }
    }
  }

  /** Block i takes over the bytes of block i + 1, which leaves the list. */
  method Absorb(b: Block, n: Block, ghost s: seq<Cell>, ghost i: nat)
    requires Linked(s) && DistinctBlocks(s) && i + 1 < |s| && s[i].block == b && s[i + 1].block == n
    modifies BlocksOf(s)`prevPhys, b`nextPhys, b`size
    ensures Linked(Absorbed(s, i))
  {
    assert LinkAt(s, i) && LinkAt(s, i + 1) && (i + 2 < |s| ==> LinkAt(s, i + 2));
    assert Apart(s, i, i + 1);
    b.size := b.size + n.size;
    b.nextPhys := n.nextPhys;
    if n.nextPhys != null {
      n.nextPhys.prevPhys := b;
    }
    ghost var u := Absorbed(s, i);
    forall j: nat | j < |u|
      ensures LinkAt(u, j)
    {
      if j < i {
        assert old(LinkAt(s, j)) && Apart(s, j, i);
        assert i + 2 < |s| ==> Apart(s, j, i + 2);
      } else if j > i {
        assert old(LinkAt(s, j + 1)) && Apart(s, i, j + 1);
        assert i + 2 < j + 1 ==> Apart(s, i + 2, j + 1);
      } else {
        assert i + 2 < |s| ==> Apart(s, i, i + 2);
      }
    }
  }

  ghost function Absorbed(s: seq<Cell>, i: nat): seq<Cell>
    requires i + 1 < |s|
  {
    s[..i] + [Cell(s[i].block, s[i].offset, s[i].size + s[i + 1].size, s[i].free)] + s[i + 2..]
  }

  /** Marks block i live or free. */
  method Mark(b: Block, free: bool, ghost s: seq<Cell>, ghost i: nat)
    requires Linked(s) && DistinctBlocks(s) && i < |s| && s[i].block == b
    modifies b`free
    ensures Linked(s[i := s[i].(free := free)])
  {
    b.free := free;
    ghost var t := s[i := s[i].(free := free)];
    forall j: nat | j < |t|
      ensures LinkAt(t, j)
    {
      assert old(LinkAt(s, j)) && (j < i ==> Apart(s, j, i)) && (i < j ==> Apart(s, i, j));
    }
  }
}
