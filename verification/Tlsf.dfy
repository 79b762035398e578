/** The general allocator: two-level segregated fit over one fixed extent. */
module Tlsf {
  import opened Arith
  import opened Cells
  import opened ClassIndex
  import opened FreeLists
  import opened Layouts
  import opened Looks
  import opened Openings
  import opened PhysLists
  import opened SizeClasses

  /** One placed range. */
  class Allocation {
    const offset: nat
    const size: nat
    var blk: Block?
    var owner: Pool?

    constructor (offset: nat, size: nat, blk: Block, owner: Pool)
      ensures this.offset == offset && this.size == size && this.blk == blk && this.owner == owner
    {
      this.offset, this.size, this.blk, this.owner := offset, size, blk, owner;
    }
  }

  /** A well-linked list of distinct blocks of the pool. */
  ghost predicate ListOk(l: seq<Block>, pool: set<Block>)
    reads pool`prevFree, pool`nextFree
  {
    (forall b :: b in l ==> b in pool) && NoRepeats(l) && Chain(l)
  }

  datatype NewResult = BadGranularity | TooSmall | Created(pool: Pool)

  datatype AllocResult = BadSize | BadAlign | NoSpace | Placed(allocation: Allocation)

  datatype FreeResult = NilAllocation | NotOwned | AlreadyFree | Released

  datatype Stats = Stats(size: int, used: int, free: int, largestFree: int, allocations: int, blocks: int)

  type Ledger = map<Block, Allocation>

  /** The cells the ledger says are live. */
  ghost function CellsOf(ledger: Ledger): set<Cell> {
    set b | b in ledger :: Cell(b, ledger[b].offset, ledger[b].size, false)
  }

  class Pool {
    const size: nat
    const granularity: nat
    const flCount: nat

    var used: int
    var allocations: int
    var flBitmap: Mask
    var slBitmap: seq<Mask>
    var free: seq<seq<Block?>>
    var head: Block?
    var blocks: int

    // The physical list and the free lists, as values.
    ghost var cells: seq<Cell>
    ghost var lists: Lists
    ghost var pool: set<Block>
    // Which allocation each live block was handed out as.
    ghost var ledger: Ledger

    ghost function GridOf(): Grid
      reads `flBitmap, `slBitmap, `free
    {
      Grid(flBitmap, slBitmap, free)
    }

    /** Heads, bitmaps and links all describe the same lists. */
    ghost predicate Indexed()
      reads `flBitmap, `slBitmap, `free, `lists, `pool, pool`prevFree, pool`nextFree
    {
      Mirrors(GridOf(), flCount, lists) && Exclusive(lists) && forall k :: ListOk(At(lists, k), pool)
    }

    /** Moves the head of one list and updates the bitmaps after a push. */
    method File(k: SizeClass, b: Block, ghost l: seq<Block>)
      requires Mirrors(GridOf(), flCount, lists) && InGrid(k, flCount) && l != [] && First(l) == b
      modifies `flBitmap, `slBitmap, `free, `lists, `blocks
      ensures lists == With(old(lists), k, l)
      ensures Mirrors(GridOf(), flCount, lists) && blocks == old(blocks) + 1
    {
      assert RowOk(GridOf(), flCount, k.fl);
      FiledMirrors(GridOf(), flCount, lists, k, l);
      free := free[k.fl := free[k.fl][k.sl := b]];
      flBitmap := flBitmap + {k.fl};
      slBitmap := slBitmap[k.fl := slBitmap[k.fl] + {k.sl}];
      blocks := blocks + 1;
      lists := With(lists, k, l);
    }

    /** Moves the head of one list and updates the bitmaps after an unlink. */
    method Unfile(k: SizeClass, first: Block?, ghost l: seq<Block>)
      requires Mirrors(GridOf(), flCount, lists) && InGrid(k, flCount) && At(lists, k) != [] && First(l) == first
      modifies `flBitmap, `slBitmap, `free, `lists, `blocks
      ensures lists == With(old(lists), k, l)
      ensures Mirrors(GridOf(), flCount, lists) && blocks == old(blocks) - 1
    {
      assert RowOk(GridOf(), flCount, k.fl);
      UnfiledMirrors(GridOf(), flCount, lists, k, l);
      free := free[k.fl := free[k.fl][k.sl := first]];
      if free[k.fl][k.sl] == null {
        slBitmap := slBitmap[k.fl := slBitmap[k.fl] - {k.sl}];
        if slBitmap[k.fl] == {} {
          flBitmap := flBitmap - {k.fl};
        }
      }
      blocks := blocks - 1;
      lists := With(lists, k, l);
    }

    method LinkFront(b: Block, k: SizeClass)
      requires Indexed() && b in pool && InGrid(k, flCount) && forall d :: b !in At(lists, d)
      modifies pool`prevFree, pool`nextFree
      ensures Chain([b] + At(lists, k)) && forall d :: d != k ==> ListOk(At(lists, d), pool)
    {
      ghost var l := At(lists, k);
      assert ListOk(At(lists, k), pool) && RowOk(GridOf(), flCount, k.fl) && SlotOk(GridOf(), flCount, lists, k);
      PushFront(b, free[k.fl][k.sl], l);
      forall d | d != k
        ensures ListOk(At(lists, d), pool)
      {
        assert old(ListOk(At(lists, d), pool));
        forall i: nat | i < |At(lists, d)|
          ensures ChainAt(At(lists, d), i)
        {
          assert At(lists, d)[i] in At(lists, d) && At(lists, d)[i] !in l && old(ChainAt(At(lists, d), i));
        }
      }
    }

    /** Pushes a free block onto the list of its class. */
    method Insert(b: Block)
      requires Indexed() && granularity > 0 && b in pool && InGrid(Mapping(b.size, granularity), flCount)
      requires forall k :: b !in At(lists, k)
      modifies `flBitmap, `slBitmap, `free, `lists, `blocks, pool`prevFree, pool`nextFree
      ensures Indexed() && blocks == old(blocks) + 1
      ensures Members(lists) == old(Members(lists)) + iset{(b, Mapping(b.size, granularity))}
    {
      var k := Mapping(b.size, granularity);
      ghost var was := lists;
      assert ListOk(At(lists, k), pool);
      PushedMembers(At(was, k), b);
      PushedListing(was, k, b);
      PushExclusive(was, k, b);
      LinkFront(b, k);
      assert ListOk([b] + At(was, k), pool);
      File(k, b, [b] + At(was, k));
      assert forall d :: At(lists, d) == if d == k then [b] + At(was, k) else At(was, d);
    }

    method UnlinkFrom(b: Block, k: SizeClass, ghost i: nat) returns (first: Block?)
      requires Indexed() && InGrid(k, flCount) && i < |At(lists, k)| && At(lists, k)[i] == b
      modifies pool`prevFree, pool`nextFree
      ensures first == First(Without(At(lists, k), i)) && Chain(Without(At(lists, k), i))
      ensures forall d :: d != k ==> ListOk(At(lists, d), pool)
    {
      ghost var l := At(lists, k);
      assert ListOk(At(lists, k), pool) && RowOk(GridOf(), flCount, k.fl) && SlotOk(GridOf(), flCount, lists, k);
      first := Unlink(b, free[k.fl][k.sl], l, i);
      forall d | d != k
        ensures ListOk(At(lists, d), pool)
      {
        assert old(ListOk(At(lists, d), pool));
        forall i: nat | i < |At(lists, d)|
          ensures ChainAt(At(lists, d), i)
        {
          assert At(lists, d)[i] in At(lists, d) && At(lists, d)[i] !in l && old(ChainAt(At(lists, d), i));
        }
      }
    }

    /** Unlinks a free block from the list of its class. */
    method Remove(b: Block)
      requires Indexed() && granularity > 0 && InGrid(Mapping(b.size, granularity), flCount)
      requires b in At(lists, Mapping(b.size, granularity))
      modifies `flBitmap, `slBitmap, `free, `lists, `blocks, pool`prevFree, pool`nextFree
      ensures Indexed() && blocks == old(blocks) - 1
      ensures Members(lists) == old(Members(lists)) - iset{(b, Mapping(b.size, granularity))}
    {
      var k := Mapping(b.size, granularity);
      ghost var was := lists;
      assert ListOk(At(lists, k), pool);
      ghost var i: nat :| i < |At(was, k)| && At(was, k)[i] == b;
      WithoutMembers(At(was, k), i);
      UnlinkedListing(was, k, i);
      UnlinkExclusive(was, k, i);
      var first := UnlinkFrom(b, k, i);
      assert ListOk(Without(At(was, k), i), pool);
      Unfile(k, first, Without(At(was, k), i));
      assert forall d :: At(lists, d) == if d == k then Without(At(was, k), i) else At(was, d);
    }

    // ---- the pool ----

    /** The bytes the granularity can address. */
    function Usable(): nat
      requires granularity > 0
    {
      AlignDown(size, granularity)
    }

    ghost predicate Params() {
      && PowerOfTwo(granularity) && granularity <= size
      && flCount == Log2(Units(Usable(), granularity)) + 2
    }

    /** The physical list tiles the pool, with cell i (if any) open and `listing` due; the free lists
        are well linked. */
    ghost predicate Shape(i: int, listing: Listing)
      reads `flBitmap, `slBitmap, `free, `head, `cells, `lists, `pool, pool
    {
      && Params() && Indexed()
      && pool == BlocksOf(cells) && Linked(cells) && head == BlockAt(cells, 0)
      && Sane(cells, i, Usable(), granularity, listing)
    }

    /** The whole structure, with cell i (if any) open. */
    ghost predicate Structured(i: int)
      reads `flBitmap, `slBitmap, `free, `head, `blocks, `cells, `lists, `pool, pool
    {
      Shape(i, Members(lists)) && blocks == Listed(i)
    }

    /** How many free cells are on lists when cell i is open. */
    ghost function Listed(i: int): int
      reads `cells
    {
      |cells| - Live(cells) - (if 0 <= i < |cells| then 1 else 0)
    }

    /** Every cell's class is in the grid. */
    lemma CellInGrid(i: nat)
      requires Params() && Layout(cells, Usable(), granularity) && i < |cells|
      ensures InGrid(Mapping(cells[i].size, granularity), flCount) && Units(cells[i].size, granularity) > 0
    {
      TilesInside(cells, 0, granularity, i);
      var u := Units(cells[i].size, granularity);
      UnitsMonotone(cells[i].size, Usable(), granularity);
      Log2Monotone(u, Units(Usable(), granularity));
      LeadRange(u);
    }

    /** A free cell's block is in the list of its class, and in no other. */
    lemma FreeIsListed(i: nat)
      requires Structured(NONE) && i < |cells| && cells[i].free
      ensures cells[i].block in At(lists, Mapping(cells[i].size, granularity))
    {
      var k := Mapping(cells[i].size, granularity);
      assert cells[i] in cells;
      assert (cells[i].block, k) in Due(cells, granularity);
      assert (cells[i].block, k) in Members(lists);
    }

    /** Takes a free block off its list. */
    method Take(b: Block, ghost i: nat)
      requires Structured(NONE) && i < |cells| && cells[i].block == b && cells[i].free
      modifies `flBitmap, `slBitmap, `free, `lists, `blocks, pool`prevFree, pool`nextFree
      ensures Structured(i) && Quiet(cells, i - 1) && Quiet(cells, i + 1)
    {
      CellInGrid(i);
      FreeIsListed(i);
      assert LinkAt(cells, i);
      TakeStep(cells, i, Usable(), granularity, Members(lists));
      Remove(b);
    }

    /** Puts the open block on the list of its class. */
    method Return(b: Block, ghost i: nat)
      requires i < |cells| && Structured(i) && cells[i].block == b && Quiet(cells, i - 1) && Quiet(cells, i + 1)
      modifies `flBitmap, `slBitmap, `free, `lists, `blocks, pool`prevFree, pool`nextFree
      ensures Structured(NONE)
    {
      CellInGrid(i);
      assert LinkAt(cells, i);
      OpenIsUnlisted(i);
      ReturnStep(cells, i, Usable(), granularity, Members(lists));
      Insert(b);
    }

    lemma OpenIsUnlisted(i: nat)
      requires i < |cells| && Structured(i)
      ensures forall k :: cells[i].block !in At(lists, k)
    {
      forall k | cells[i].block in At(lists, k)
        ensures false
      {
        assert (cells[i].block, k) in Members(lists);
        ViewDistinct(cells, i);
        DueOfBlock(View(cells, i), i, k, granularity);
      }
    }

    /** Marks the open block live. */
    method Seal(b: Block, ghost i: nat)
      requires i < |cells| && Structured(i) && cells[i].block == b
      modifies `cells, b`free
      ensures Structured(NONE) && cells == Marked(old(cells), i, false)
    {
      SealStep(cells, i, Usable(), granularity, Members(lists));
      MarkLayout(cells, i, false, Usable(), granularity);
      MarkTotals(cells, i, false);
      Mark(b, false, cells, i);
      cells := Marked(cells, i, false);
    }

    /** Marks a live block free, leaving it open. */
    method Open(b: Block, ghost i: nat)
      requires i < |cells| && Structured(NONE) && cells[i].block == b && !cells[i].free
      modifies `cells, b`free
      ensures Structured(i) && cells == Marked(old(cells), i, true)
    {
      OpenStep(cells, i, Usable(), granularity, Members(lists));
      MarkLayout(cells, i, true, Usable(), granularity);
      MarkTotals(cells, i, true);
      Mark(b, true, cells, i);
      cells := Marked(cells, i, true);
    }

    /** Lists stay well linked when the pool's block set changes around them. */
    lemma ListsSurvive(pool': set<Block>)
      requires Indexed() && forall k, b :: b in At(lists, k) ==> b in pool'
      ensures forall k :: ListOk(At(lists, k), pool')
    {
      forall k
        ensures ListOk(At(lists, k), pool')
      {
        assert ListOk(At(lists, k), pool);
      }
    }

    /** The cells after the front of cell i went to block h. */
    ghost function FrontCells(s: seq<Cell>, i: nat, h: Block, pad: nat): seq<Cell>
      requires i < |s| && pad <= s[i].size
    {
      SplitCells(s, i, Cell(h, s[i].offset, pad, true), Cell(s[i].block, s[i].offset + pad, s[i].size - pad, s[i].free))
    }

    lemma FrontFacts(s: seq<Cell>, i: nat, h: Block, pad: nat, listing: Listing)
      requires Params() && i < |s| && Sane(s, i, Usable(), granularity, listing) && Quiet(s, i - 1)
      requires 0 < pad < s[i].size && Aligned(pad, granularity) && h !in BlocksOf(s)
      ensures var t := FrontCells(s, i, h, pad);
              && Sane(t, i + 1, Usable(), granularity, listing + iset{(h, Mapping(pad, granularity))})
              && SameLive(s, t) && BlocksOf(t) == BlocksOf(s) + {h}
              && |t| == |s| + 1 && t[i] == Cell(h, s[i].offset, pad, true)
              && t[i + 1] == Cell(s[i].block, s[i].offset + pad, s[i].size - pad, true)
              && (i + 1 < |s| ==> t[i + 2] == s[i + 1]) && BlockAt(t, 0) == (if i == 0 then h else s[0].block)
    {
      var a, b := Cell(h, s[i].offset, pad, true), Cell(s[i].block, s[i].offset + pad, s[i].size - pad, true);
      SplitGrid(s, i, a, b);
      FrontStep(s, i, a, b, Usable(), granularity, listing);
    }

    method SplitOffFront(b: Block, pad: nat, ghost i: nat) returns (h: Block)
      requires i < |cells| && Structured(i) && cells[i].block == b && Quiet(cells, i - 1)
      requires 0 < pad < cells[i].size && Aligned(pad, granularity)
      modifies `head, `cells, `pool, pool
      ensures fresh(h) && pool == old(pool) + {h} && cells == FrontCells(old(cells), i, h, pad)
      ensures Indexed() && Linked(cells) && head == (if i == 0 then h else old(head))
    {
      ghost var s := cells;
      var first := b.prevPhys == null;
      assert LinkAt(s, i);
      h := SplitFront(b, pad, s, i);
      assert Linked(FrontCells(s, i, h, pad));
      Grow(h, FrontCells(s, i, h, pad), if first then h else head);
    }

    /** Lists the block of cell j, the one free cell besides the open one not on a list yet. */
    method InsertDue(h: Block, ghost j: nat, ghost o: int)
      requires granularity > 0 && j < |cells| && cells[j].block == h && h in pool && blocks == Listed(o) - 1
      requires Shape(o, Members(lists) + iset{(h, Mapping(cells[j].size, granularity))})
      requires forall k :: h !in At(lists, k)
      modifies `flBitmap, `slBitmap, `free, `lists, `blocks, pool`prevFree, pool`nextFree
      ensures Structured(o)
    {
      CellInGrid(j);
      assert LinkAt(cells, j);
      Insert(h);
    }

    /** Trims the first `pad` bytes of the open block into a free block of its own. */
    method CarveFront(b: Block, pad: nat, ghost i: nat)
      requires i < |cells| && Structured(i) && cells[i].block == b && Quiet(cells, i - 1)
      requires 0 < pad < cells[i].size && Aligned(pad, granularity)
      modifies `flBitmap, `slBitmap, `free, `lists, `blocks, `head, `cells, `pool, pool
      ensures Structured(i + 1) && SameLive(old(cells), cells) && fresh(pool - old(pool)) && i + 1 < |cells|
      ensures cells[i + 1] == old(Cell(b, cells[i].offset + pad, cells[i].size - pad, true))
      ensures old(Quiet(cells, i + 1)) ==> Quiet(cells, i + 2)
    {
      ghost var s := cells;
      var h := SplitOffFront(b, pad, i);
      FrontFacts(s, i, h, pad, Members(lists));
      Unlisted(h, s, i);
      InsertDue(h, i, i + 1);
    }

    /** The cells after all but the first `front` bytes of cell i went to block h. */
    ghost function BackCells(s: seq<Cell>, i: nat, h: Block, front: nat): seq<Cell>
      requires i < |s| && front <= s[i].size
    {
      SplitCells(s, i, Cell(s[i].block, s[i].offset, front, s[i].free),
                 Cell(h, s[i].offset + front, s[i].size - front, true))
    }

    lemma BackFacts(s: seq<Cell>, i: nat, h: Block, front: nat, listing: Listing)
      requires Params() && i < |s| && Sane(s, i, Usable(), granularity, listing) && Quiet(s, i + 1)
      requires 0 < front < s[i].size && Aligned(front, granularity) && h !in BlocksOf(s)
      ensures var t := BackCells(s, i, h, front);
              && Sane(t, i, Usable(), granularity, listing + iset{(h, Mapping(s[i].size - front, granularity))})
              && SameLive(s, t) && BlocksOf(t) == BlocksOf(s) + {h}
              && |t| == |s| + 1 && t[i] == Cell(s[i].block, s[i].offset, front, true)
              && t[i + 1] == Cell(h, s[i].offset + front, s[i].size - front, true) && BlockAt(t, 0) == s[0].block
    {
      var a, b := Cell(s[i].block, s[i].offset, front, true), Cell(h, s[i].offset + front, s[i].size - front, true);
      SplitGrid(s, i, a, b);
      BackStep(s, i, a, b, Usable(), granularity, listing);
    }

    method SplitOffBack(b: Block, front: nat, ghost i: nat) returns (h: Block)
      requires i < |cells| && Structured(i) && cells[i].block == b
      requires 0 < front < cells[i].size
      modifies `head, `cells, `pool, pool
      ensures fresh(h) && pool == old(pool) + {h} && cells == BackCells(old(cells), i, h, front)
      ensures Indexed() && Linked(cells) && head == old(head)
    {
      ghost var s := cells;
      assert LinkAt(s, i);
      h := SplitBack(b, front, s, i);
      assert Linked(BackCells(s, i, h, front));
      Grow(h, BackCells(s, i, h, front), head);
    }

    /** Trims the open block to its first `front` bytes; the rest becomes a free block of its own. */
    method CarveBack(b: Block, front: nat, ghost i: nat)
      requires i < |cells| && Structured(i) && cells[i].block == b && Quiet(cells, i + 1)
      requires 0 < front < cells[i].size && Aligned(front, granularity)
      modifies `flBitmap, `slBitmap, `free, `lists, `blocks, `head, `cells, `pool, pool
      ensures Structured(i) && SameLive(old(cells), cells) && fresh(pool - old(pool)) && i < |cells|
      ensures cells[i] == old(Cell(b, cells[i].offset, front, true))
    {
      var h := CutBack(b, front, i);
      InsertDue(h, i + 1, i);
    }

    /** Cuts the open block to its first `front` bytes; the rest is a free block due on a list. */
    method CutBack(b: Block, front: nat, ghost i: nat) returns (h: Block)
      requires i < |cells| && Structured(i) && cells[i].block == b && Quiet(cells, i + 1)
      requires 0 < front < cells[i].size && Aligned(front, granularity)
      modifies `head, `cells, `pool, pool
      ensures i + 1 < |cells| && cells[i + 1].block == h && h in pool && blocks == Listed(i) - 1
      ensures Shape(i, Members(lists) + iset{(h, Mapping(cells[i + 1].size, granularity))}) &&
              forall k :: h !in At(lists, k)
      ensures SameLive(old(cells), cells) && fresh(pool - old(pool))
      ensures cells[i] == old(Cell(b, cells[i].offset, front, true))
    {
      ghost var s := cells;
      h := SplitOffBack(b, front, i);
      BackFacts(s, i, h, front, Members(lists));
      Unlisted(h, s, i);
    }

    /** One block takes over the bytes of the next, which leaves the pool. */
    method Merge(left: Block, right: Block, ghost i: nat)
      requires Indexed() && Linked(cells) && DistinctBlocks(cells) && forall k :: right !in At(lists, k)
      requires pool == BlocksOf(cells)
      requires i + 1 < |cells| && cells[i].block == left && cells[i + 1].block == right
      modifies `cells, `pool, pool`prevPhys, left`nextPhys, left`size
      ensures cells == Absorbed(old(cells), i) && pool == old(pool) - {right} && Indexed() && Linked(cells)
    {
      ghost var s := cells;
      assert s[i] in s;
      Absorb(left, right, s, i);
      Shrink(right, Absorbed(s, i));
    }

    /** A block leaves the pool. */
    ghost method Shrink(n: Block, s: seq<Cell>)
      requires Indexed() && Linked(s) && forall k :: n !in At(lists, k)
      modifies `cells, `pool
      ensures cells == s && pool == old(pool) - {n} && Indexed() && Linked(cells)
    {
      forall k, b | b in At(lists, k)
        ensures b in pool - {n}
      {
        assert ListOk(At(lists, k), pool);
      }
      ListsSurvive(pool - {n});
      cells := s;
      pool := pool - {n};
    }

    /** Takes the listed free block of cell j, next to the open one, off its list. */
    method TakeNeighbour(n: Block, ghost j: nat, ghost o: nat)
      requires o < |cells| && j < |cells| && j != o && Structured(o) && cells[j].block == n && cells[j].free
      modifies `flBitmap, `slBitmap, `free, `lists, `blocks, pool`prevFree, pool`nextFree
      ensures Shape(o, Members(lists) + iset{(n, Mapping(cells[j].size, granularity))}) && blocks == old(blocks) - 1
      ensures forall k :: n !in At(lists, k) && cells[o].block !in At(lists, k)
    {
      CellInGrid(j);
      assert LinkAt(cells, j);
      var k := Mapping(cells[j].size, granularity);
      assert View(cells, o)[j] == cells[j] && cells[j] in View(cells, o);
      assert (n, k) in Due(View(cells, o), granularity);
      assert (n, k) in Members(lists);
      Remove(n);
      ViewDistinct(cells, o);
      forall d
        ensures n !in At(lists, d) && cells[o].block !in At(lists, d)
      {
        DueOfBlock(View(cells, o), j, d, granularity);
        DueOfBlock(View(cells, o), o, d, granularity);
        assert n in At(lists, d) <==> (n, d) in Members(lists);
        assert cells[o].block in At(lists, d) <==> (cells[o].block, d) in Members(lists);
      }
      assert old(Members(lists)) == Members(lists) + iset{(n, k)};
    }

    /** Merges cell i, or its neighbour, with the other of the two that is open. */
    method MergeOpen(left: Block, right: Block, ghost i: nat, ghost o: nat, ghost j: nat)
      requires i + 1 < |cells| && cells[i].block == left && cells[i + 1].block == right
      requires (o == i && j == i + 1) || (o == i + 1 && j == i && Quiet(cells, i + 2))
      requires cells[i].free && cells[i + 1].free && granularity > 0
      requires Shape(o, Members(lists) + iset{(cells[j].block, Mapping(cells[j].size, granularity))})
      requires forall k :: left !in At(lists, k) && right !in At(lists, k)
      modifies `cells, `pool, pool
      ensures Shape(i, Members(lists)) && SameLive(old(cells), cells) && pool == old(pool) - {right}
      ensures |cells| == |old(cells)| - 1 && cells[i].block == left && Quiet(cells, i + 1)
      ensures i > 0 ==> cells[i - 1] == old(cells[i - 1])
      ensures o == i + 1 ==> Quiet(cells, i - 1)
    {
      ghost var n := cells[j];
      ghost var was := Members(lists) + iset{(n.block, Mapping(n.size, granularity))};
      assert was - iset{(n.block, Mapping(n.size, granularity))} == Members(lists);
      AbsorbIndex(cells, i);
      if o == i {
        JoinNextStep(cells, i, Usable(), granularity, was);
      } else {
        JoinPrevStep(cells, i, Usable(), granularity, was);
      }
      Merge(left, right, i);
    }

    /** The open block takes over its free successor. */
    method JoinNext(b: Block, n: Block, ghost i: nat)
      requires i + 1 < |cells| && Structured(i) && cells[i].block == b && cells[i + 1].block == n && cells[i + 1].free
      modifies `flBitmap, `slBitmap, `free, `lists, `blocks, `head, `cells, `pool, pool
      ensures Structured(i) && SameLive(old(cells), cells) && pool <= old(pool) && i < |cells| && cells[i].block == b
      ensures Quiet(cells, i + 1) && (i > 0 ==> cells[i - 1] == old(cells[i - 1]))
    {
      TakeNeighbour(n, i + 1, i);
      MergeOpen(b, n, i, i, i + 1);
    }

    /** The open block's free predecessor takes it over, and is open in its place. */
    method JoinPrev(p: Block, b: Block, ghost i: nat)
      requires i + 1 < |cells| && Structured(i + 1) && cells[i + 1].block == b && cells[i].block == p && cells[i].free
      requires Quiet(cells, i + 2)
      modifies `flBitmap, `slBitmap, `free, `lists, `blocks, `head, `cells, `pool, pool
      ensures i < |cells| && Structured(i) && SameLive(old(cells), cells) && pool <= old(pool)
      ensures cells[i].block == p && Quiet(cells, i - 1) && Quiet(cells, i + 1)
    {
      TakeNeighbour(p, i, i + 1);
      MergeOpen(p, b, i, i + 1, i);
    }

    lemma Unlisted(h: Block, s: seq<Cell>, i: int)
      requires Params() && h !in BlocksOf(s) && Sane(s, i, Usable(), granularity, Members(lists))
      ensures forall k :: h !in At(lists, k)
    {
      ViewDistinct(s, i);
      forall k | h in At(lists, k)
        ensures false
      {
        assert (h, k) in Members(lists);
        NotDue(View(s, i), h, k, granularity);
      }
    }

    /** Both parts of a cell split at a multiple of the granularity are on the grid. */
    lemma SplitGrid(s: seq<Cell>, i: nat, a: Cell, b: Cell)
      requires Params() && Layout(s, Usable(), granularity) && i < |s|
      requires 0 < a.size < s[i].size && Aligned(a.size, granularity)
      requires a.offset == s[i].offset && b.offset == a.offset + a.size && b.size == s[i].size - a.size
      ensures OnGrid(a, granularity) && OnGrid(b, granularity)
    {
      TilesInside(s, 0, granularity, i);
      AlignedSum(s[i].offset, a.size, granularity);
      AlignedDifference(s[i].size, a.size, granularity);
    }

    /** A new block joins the physical list. */
    method Grow(b: Block, ghost s: seq<Cell>, head': Block?)
      requires Indexed() && Linked(s)
      modifies `head, `cells, `pool
      ensures cells == s && pool == old(pool) + {b} && head == head' && Indexed() && Linked(cells)
    {
      ListsSurvive(pool + {b});
      head := head';
      cells := s;
      pool := pool + {b};
    }

    // ---- searching ----

    /** The first block of the first non-empty class at or above k. */
    method SearchFrom(k: SizeClass) returns (b: Block?, ghost d: SizeClass)
      requires Indexed() && k.sl < SL_COUNT
      ensures b == null ==> NothingFrom(lists, flCount, k)
      ensures b != null ==> FirstFrom(lists, flCount, k, d) && At(lists, d)[0] == b
    {
      SearchFinds(GridOf(), flCount, lists, k);
      d := k;
      if k.fl >= flCount {
        return null, d;
      }
      assert RowOk(GridOf(), flCount, k.fl);
      var at := Lowest(slBitmap[k.fl], k.sl, SL_COUNT);
      if at < SL_COUNT {
        d := SizeClass(k.fl, at);
        assert SlotOk(GridOf(), flCount, lists, d);
        return free[k.fl][at], d;
      }
      var up := Lowest(flBitmap, k.fl + 1, flCount);
      if up == flCount {
        return null, d;
      }
      assert RowOk(GridOf(), flCount, up);
      var low := Lowest(slBitmap[up], 0, SL_COUNT);
      d := SizeClass(up, low);
      assert SlotOk(GridOf(), flCount, lists, d);
      return free[up][low], d;
    }

    /** A listed block is a free cell of its class. */
    lemma ListedCell(b: Block, d: SizeClass) returns (i: nat)
      requires Structured(NONE) && b in At(lists, d)
      ensures i < |cells| && cells[i].block == b && cells[i].free && Mapping(cells[i].size, granularity) == d
    {
      assert (b, d) in Members(lists);
      var c :| c in cells && c.free && c.block == b && Mapping(c.size, granularity) == d;
      i :| i < |cells| && cells[i] == c;
    }

    lemma MappingUpClass(ask: nat)
      requires Params() && ask > 0 && Aligned(ask, granularity)
      ensures Units(ask, granularity) > 0 && RoundedUnits(Units(ask, granularity)) > 0
      ensures MappingUp(ask, granularity) == ClassOf(RoundedUnits(Units(ask, granularity)))
      ensures MappingUp(ask, granularity).sl < SL_COUNT
    {
      var w := RoundedUnits(Units(ask, granularity));
      RoundedExponent(Units(ask, granularity));
      UnitsOfProduct(w, granularity);
      LeadRange(w);
    }

    /** A hit is large enough. */
    lemma HitFits(i: nat, ask: nat)
      requires Structured(NONE) && i < |cells| && ask > 0 && Aligned(ask, granularity)
      requires Mapping(cells[i].size, granularity).Rank() >= MappingUp(ask, granularity).Rank()
      ensures cells[i].size >= ask
    {
      MappingUpClass(ask);
      CellInGrid(i);
      TilesInside(cells, 0, granularity, i);
      HitIsEnough(Units(ask, granularity), Units(cells[i].size, granularity));
      UnitsOrder(ask, cells[i].size, granularity);
    }

    /** A miss means every free block is under 17/16 of what was asked for. */
    lemma MissBounds(i: nat, ask: nat)
      requires Structured(NONE) && i < |cells| && cells[i].free && ask > 0 && Aligned(ask, granularity)
      requires NothingFrom(lists, flCount, MappingUp(ask, granularity))
      ensures 16 * cells[i].size < 17 * ask
    {
      var d := Mapping(cells[i].size, granularity);
      MappingUpClass(ask);
      CellInGrid(i);
      FreeIsListed(i);
      TilesInside(cells, 0, granularity, i);
      MissIsClose(Units(ask, granularity), Units(cells[i].size, granularity));
      CloseInBytes(cells[i].size, ask, granularity);
    }

    /** Cell i can hold `size` bytes at a multiple of `align`. */
    ghost predicate Fits(i: nat, size: nat, align: nat)
      requires i < |cells|
      reads `cells
    {
      Holds(cells[i], size, align)
    }

    /** Reaching an alignment costs at most the alignment less the granularity. */
    lemma PadBound(offset: nat, align: nat)
      requires Params() && PowerOfTwo(align) && align >= granularity && Aligned(offset, granularity)
      ensures AlignUp(offset, align) <= offset + align - granularity
      ensures Aligned(AlignUp(offset, align), granularity)
    {
      AlignUpLeast(offset, align, 0);
      PowersAligned(align, granularity);
      AlignedTransitive(AlignUp(offset, align), align, granularity);
      var pad := AlignUp(offset, align) - offset;
      AlignedDifference(AlignUp(offset, align), offset, granularity);
      if align > 1 {
        AlignedDifference(align, pad, granularity);
      }
    }

    lemma OverAskFits(i: nat, size: nat, align: nat)
      requires Structured(NONE) && i < |cells| && cells[i].free && size > 0 && Aligned(size, granularity)
      requires PowerOfTwo(align) && align >= granularity && cells[i].size >= size + align - granularity
      ensures Fits(i, size, align)
    {
      TilesInside(cells, 0, granularity, i);
      PadBound(cells[i].offset, align);
    }

    lemma OverAskAligned(size: nat, align: nat)
      requires Params() && size > 0 && Aligned(size, granularity) && PowerOfTwo(align) && align >= granularity
      ensures Aligned(size + align - granularity, granularity)
    {
      PowersAligned(align, granularity);
      AlignedSum(size, align, granularity);
      AlignedStep(size + align - granularity, granularity);
    }

    /** No list from a request's class on holds anything exactly when no free block is where it looks. */
    lemma NothingIsMiss(ask: nat)
      requires Structured(NONE) && ask > 0 && Aligned(ask, granularity)
      ensures NothingFrom(lists, flCount, MappingUp(ask, granularity)) <==> !Hit(cells, granularity, ask)
    {
      if c :| c in cells && Seen(c, granularity, ask) {
        var i: nat :| i < |cells| && cells[i] == c;
        FreeIsListed(i);
        CellInGrid(i);
      } else if !NothingFrom(lists, flCount, MappingUp(ask, granularity)) {
        var d: SizeClass :| InGrid(d, flCount) && d.Rank() >= MappingUp(ask, granularity).Rank() && At(lists, d) != [];
        var i := ListedCell(At(lists, d)[0], d);
        assert Seen(cells[i], granularity, ask);
      }
    }

    /** The first class with anything in it holds exactly the cells a request sees first. */
    lemma FirstIsSeenFirst(ask: nat, d: SizeClass, i: nat)
      requires Structured(NONE) && ask > 0 && Aligned(ask, granularity) && i < |cells| && cells[i].free
      requires FirstFrom(lists, flCount, MappingUp(ask, granularity), d)
      ensures FirstSeen(cells, granularity, cells[i], ask) <==> Mapping(cells[i].size, granularity) == d
    {
      var j := ListedCell(At(lists, d)[0], d);
      assert Seen(cells[j], granularity, ask);
      CellInGrid(i);
      FreeIsListed(i);
      if Mapping(cells[i].size, granularity) == d {
        forall e | e in cells && Seen(e, granularity, ask)
          ensures NoHigher(cells[i], e, granularity)
        {
          var x: nat :| x < |cells| && cells[x] == e;
          CellInGrid(x);
          FreeIsListed(x);
        }
      } else {
        assert FirstSeen(cells, granularity, cells[i], ask) ==> NoHigher(cells[i], cells[j], granularity);
      }
    }

    /** A free block that can hold size at align, or null; null exactly when neither look finds one. */
    method FindFit(size: nat, align: nat) returns (b: Block?, ghost i: nat)
      requires Structured(NONE) && size > 0 && Aligned(size, granularity) && PowerOfTwo(align) && align >= granularity
      ensures b != null ==> i < |cells| && cells[i].block == b && Fits(i, size, align)
      ensures b == null ==> NoneNear(cells, size + align - granularity)
      ensures b != null <==> Servable(cells, granularity, size, align)
    {
      b, i := SearchPadded(size, align);
      if b != null || align <= granularity {
        return;
      }
      b, i := ScanClass(size, align);
    }

    /** The first look: a class whose blocks all hold the request and the padding. */
    method SearchPadded(size: nat, align: nat) returns (b: Block?, ghost i: nat)
      requires Structured(NONE) && size > 0 && Aligned(size, granularity) && PowerOfTwo(align) && align >= granularity
      ensures b != null ==> i < |cells| && cells[i].block == b && Fits(i, size, align)
      ensures b == null ==> NoneNear(cells, size + align - granularity)
      ensures b != null <==> Hit(cells, granularity, size + align - granularity)
    {
      i := 0;
      OverAskAligned(size, align);
      ghost var d;
      b, d := SearchHit(size + align - granularity);
      if b != null {
        i := HitHolds(b, d, size, align);
      }
    }

    /** A block found by the padded size holds the request at the alignment. */
    lemma HitHolds(b: Block, d: SizeClass, size: nat, align: nat) returns (i: nat)
      requires Structured(NONE) && size > 0 && Aligned(size, granularity) && PowerOfTwo(align) && align >= granularity
      requires b in At(lists, d) && d.Rank() >= MappingUp(size + align - granularity, granularity).Rank()
      ensures i < |cells| && cells[i].block == b && Fits(i, size, align)
    {
      i := ListedCell(b, d);
      OverAskAligned(size, align);
      HitFits(i, size + align - granularity);
      OverAskFits(i, size, align);
    }

    /** The search for a block of at least `ask` bytes. */
    method SearchHit(ask: nat) returns (b: Block?, ghost d: SizeClass)
      requires Structured(NONE) && ask > 0 && Aligned(ask, granularity)
      ensures b != null ==> |At(lists, d)| > 0 && At(lists, d)[0] == b && d.Rank() >= MappingUp(ask, granularity).Rank()
      ensures b == null ==> NoneNear(cells, ask)
      ensures b != null <==> Hit(cells, granularity, ask)
      ensures b != null ==> FirstFrom(lists, flCount, MappingUp(ask, granularity), d)
    {
      MappingUpClass(ask);
      NothingIsMiss(ask);
      b, d := SearchFrom(MappingUp(ask, granularity));
      if b == null {
        forall c | c in cells && c.free
          ensures 16 * c.size < 17 * ask
        {
          var i: nat :| i < |cells| && cells[i] == c;
          MissBounds(i, ask);
        }
      }
    }

    /** The second look: the class that may hold a block already aligned. */
    method ScanClass(size: nat, align: nat) returns (b: Block?, ghost i: nat)
      requires Structured(NONE) && size > 0 && Aligned(size, granularity)
      ensures b != null ==> i < |cells| && cells[i].block == b && Fits(i, size, align)
      ensures b != null <==> SecondLook(cells, granularity, size, align)
    {
      ghost var d;
      b, d := SearchHit(size);
      i := 0;
      if b != null {
        b, i := ScanList(b, size, align, d);
        ScannedAll(b, size, align, d, i);
      }
    }

    /** A list walked to its end without a fit leaves the second look nothing. */
    lemma ScannedAll(b: Block?, size: nat, align: nat, d: SizeClass, i: nat)
      requires Structured(NONE) && size > 0 && Aligned(size, granularity)
      requires FirstFrom(lists, flCount, MappingUp(size, granularity), d)
      requires b != null ==> InClass(i, d) && Fits(i, size, align)
      requires b == null ==> forall j: nat :: InClass(j, d) ==> !Fits(j, size, align)
      ensures b != null <==> SecondLook(cells, granularity, size, align)
    {
      if b != null {
        FirstIsSeenFirst(size, d, i);
      } else if c :| c in cells && FirstSeen(cells, granularity, c, size) && Holds(c, size, align) {
        var j: nat :| j < |cells| && cells[j] == c;
        FirstIsSeenFirst(size, d, j);
        assert InClass(j, d);
      }
    }

    ghost predicate InClass(i: nat, d: SizeClass)
      reads `cells
    {
      granularity > 0 && i < |cells| && cells[i].free && Mapping(cells[i].size, granularity) == d
    }

    /** Walks one class list from its head for a block that can hold size at align. */
    method ScanList(first: Block, size: nat, align: nat, ghost d: SizeClass) returns (b: Block?, ghost i: nat)
      requires Structured(NONE) && |At(lists, d)| > 0 && At(lists, d)[0] == first
      ensures b != null ==> InClass(i, d) && cells[i].block == b && Fits(i, size, align)
      ensures b == null ==> forall k: nat :: InClass(k, d) ==> !Fits(k, size, align)
    {
      i := 0;
      b := first;
      ghost var l := At(lists, d);
      ghost var j := 0;
      assert ListOk(l, pool);
      while b != null
        invariant j <= |l| && b == (if j < |l| then l[j] else null)
        invariant forall x: nat :: x < j ==> PassedOver(l[x], size, align)
        decreases |l| - j
      {
        i := ListedCell(b, d);
        assert LinkAt(cells, i) && ChainAt(l, j);
        if AlignUp(b.offset, align) + size <= b.offset + b.size {
          return;
        }
        assert PassedOver(b, size, align);
        b := b.nextFree;
        j := j + 1;
      }
      forall k: nat | InClass(k, d)
        ensures !Fits(k, size, align)
      {
        FreeIsListed(k);
        var x: nat :| x < |l| && l[x] == cells[k].block;
        assert PassedOver(l[x], size, align) && LinkAt(cells, k);
      }
    }

    /** A block too small, or too badly placed, for size at align. */
    ghost predicate PassedOver(b: Block, size: nat, align: nat)
      reads b
    {
      AlignUp(b.offset, align) + size > b.offset + b.size
    }

    // ---- allocating ----

    /** Trims the open block's head up to the alignment; returns where the block now is. */
    method TrimFront(b: Block, align: nat, ghost i: nat) returns (ghost j: nat)
      requires i < |cells| && Structured(i) && cells[i].block == b && Quiet(cells, i - 1) && Quiet(cells, i + 1)
      requires PowerOfTwo(align) && align >= granularity && AlignUp(cells[i].offset, align) < cells[i].End()
      modifies `flBitmap, `slBitmap, `free, `lists, `blocks, `head, `cells, `pool, pool
      ensures Structured(j) && SameLive(old(cells), cells) && fresh(pool - old(pool)) && j < |cells|
      ensures var at := AlignUp(old(cells[i].offset), align); cells[j] == Cell(b, at, old(cells[i].End()) - at, true)
      ensures Quiet(cells, j + 1)
    {
      assert LinkAt(cells, i);
      PadFacts(i, align);
      j := i;
      ghost var c := cells[i];
      var pad := AlignUp(b.offset, align) - b.offset;
      if pad > 0 {
        CarveFront(b, pad, i);
        j := i + 1;
        assert cells[j] == Cell(b, c.offset + pad, c.size - pad, true);
      }
    }

    lemma PadFacts(i: nat, align: nat)
      requires Params() && Layout(cells, Usable(), granularity) && i < |cells|
      requires PowerOfTwo(align) && align >= granularity
      ensures cells[i].offset <= AlignUp(cells[i].offset, align)
      ensures Aligned(AlignUp(cells[i].offset, align) - cells[i].offset, granularity)
    {
      TilesInside(cells, 0, granularity, i);
      PadBound(cells[i].offset, align);
      AlignUpLeast(cells[i].offset, align, 0);
      AlignedDifference(AlignUp(cells[i].offset, align), cells[i].offset, granularity);
    }

    /** Trims the open block's tail, if what is left over is itself addressable. */
    method TrimBack(b: Block, size: nat, ghost i: nat)
      requires i < |cells| && Structured(i) && cells[i].block == b && Quiet(cells, i + 1)
      requires 0 < size <= cells[i].size && Aligned(size, granularity)
      modifies `flBitmap, `slBitmap, `free, `lists, `blocks, `head, `cells, `pool, pool
      ensures Structured(i) && SameLive(old(cells), cells) && fresh(pool - old(pool)) && i < |cells|
      ensures cells[i] == old(Cell(b, cells[i].offset, size, true))
    {
      assert LinkAt(cells, i);
      TilesInside(cells, 0, granularity, i);
      AlignedDifference(cells[i].size, size, granularity);
      var rest := b.size - size;
      if rest >= granularity {
        CarveBack(b, size, i);
      }
    }

    /** Trims the open block to the request. */
    method Trim(b: Block, size: nat, align: nat, ghost i: nat) returns (ghost j: nat)
      requires i < |cells| && Structured(i) && cells[i].block == b && Quiet(cells, i - 1) && Quiet(cells, i + 1)
      requires PowerOfTwo(align) && align >= granularity && AlignUp(cells[i].offset, align) + size <= cells[i].End()
      requires size > 0 && Aligned(size, granularity)
      modifies `flBitmap, `slBitmap, `free, `lists, `blocks, `head, `cells, `pool, pool
      ensures Structured(j) && SameLive(old(cells), cells) && fresh(pool - old(pool)) && j < |cells|
      ensures cells[j] == Cell(b, AlignUp(old(cells[i].offset), align), size, true)
    {
      j := TrimFront(b, align, i);
      TrimBack(b, size, j);
    }

    /** Takes a fitting free block off its list and trims it to the request. */
    method Fit(b: Block, size: nat, align: nat, ghost i: nat) returns (ghost j: nat)
      requires Structured(NONE) && i < |cells| && cells[i].block == b && Fits(i, size, align)
      requires size > 0 && Aligned(size, granularity) && PowerOfTwo(align) && align >= granularity
      modifies `flBitmap, `slBitmap, `free, `lists, `blocks, `head, `cells, `pool, pool
      ensures Structured(j) && fresh(pool - old(pool)) && j < |cells| && SameLive(old(cells), cells)
      ensures cells[j] == Cell(b, AlignUp(old(cells[i].offset), align), size, true)
    {
      Take(b, i);
      j := Trim(b, size, align, i);
    }

    /** Makes the open block live, and counts it. */
    method Claim(b: Block, ghost j: nat) returns (ghost c: Cell)
      requires j < |cells| && Structured(j) && cells[j].block == b
      modifies `cells, b`free
      ensures Structured(NONE) && c == old(cells[j].(free := false)) && c !in LiveSet(old(cells))
      ensures LiveSet(cells) == LiveSet(old(cells)) + {c}
      ensures Used(cells) == Used(old(cells)) + c.size && Live(cells) == Live(old(cells)) + 1
      ensures b.offset == c.offset && b.size == c.size
    {
      assert LinkAt(cells, j);
      c := cells[j].(free := false);
      MarkTotals(cells, j, false);
      Seal(b, j);
    }

    /** Takes a fitting free block, trims it to the request and makes it live. */
    method Reserve(b: Block, size: nat, align: nat, ghost i: nat) returns (ghost c: Cell)
      requires Structured(NONE) && i < |cells| && cells[i].block == b && Fits(i, size, align)
      requires size > 0 && Aligned(size, granularity) && PowerOfTwo(align) && align >= granularity
      modifies `flBitmap, `slBitmap, `free, `lists, `blocks, `head, `cells, `pool, pool
      ensures Structured(NONE) && fresh(pool - old(pool))
      ensures c == Cell(b, AlignUp(old(cells[i].offset), align), size, false) && c !in LiveSet(old(cells))
      ensures LiveSet(cells) == LiveSet(old(cells)) + {c}
      ensures Used(cells) == Used(old(cells)) + size && Live(cells) == Live(old(cells)) + 1
      ensures b.offset == c.offset && b.size == size
    {
      ghost var j := Fit(b, size, align, i);
      assert cells[j] in cells;
      c := Claim(b, j);
    }

    // ---- accounts ----

    /** The entry of block b names b and this pool. */
    ghost predicate Names(ledger: Ledger, b: Block)
      requires b in ledger
      reads ledger.Values
    {
      ledger[b].blk == b && ledger[b].owner == this
    }

    ghost predicate Named(ledger: Ledger)
      reads ledger.Values
    {
      forall b :: b in ledger ==> Names(ledger, b)
    }

    /** The counters and the allocations handed out describe the live cells of s: each live cell was
        handed out once, under its own offset and size. */
    ghost predicate AccountsFor(s: seq<Cell>)
      reads `used, `allocations, `ledger, ledger.Values
    {
      used == Used(s) && allocations == Live(s) && LiveSet(s) == CellsOf(ledger) && Named(ledger)
    }

    ghost predicate Valid()
      reads this, pool, ledger.Values
    {
      Structured(NONE) && AccountsFor(cells)
    }

    /** An allocation this pool has out. */
    ghost predicate Out(a: Allocation)
      reads `ledger, a
    {
      a.blk != null && a.blk in ledger && ledger[a.blk] == a
    }

    method Count(bytes: int, number: int, ghost ledger': Ledger)
      modifies `used, `allocations, `ledger
      ensures used == old(used) + bytes && allocations == old(allocations) + number && ledger == ledger'
    {
      used := used + bytes;
      allocations := allocations + number;
      ledger := ledger';
    }

    lemma LedgerMore(ledger: Ledger, b: Block, a: Allocation)
      requires b !in ledger
      ensures CellsOf(ledger[b := a]) == CellsOf(ledger) + {Cell(b, a.offset, a.size, false)}
    {
      var more := ledger[b := a];
      forall c
        ensures c in CellsOf(more) <==> c in CellsOf(ledger) || c == Cell(b, a.offset, a.size, false)
      {
        assert c.block in more <==> c.block in ledger || c.block == b;
        assert c in CellsOf(ledger) <==>
               c.block in ledger && c == Cell(c.block, ledger[c.block].offset, ledger[c.block].size, false);
        assert c in CellsOf(more) <==>
               c.block in more && c == Cell(c.block, more[c.block].offset, more[c.block].size, false);
      }
    }

    /** Hands out the block of a newly live cell. */
    method HandOut(b: Block, ghost was: seq<Cell>, ghost c: Cell) returns (a: Allocation)
      requires DistinctBlocks(cells) && AccountsFor(was)
      requires b.offset == c.offset && b.size == c.size && c.block == b && !c.free
      requires c !in LiveSet(was) && LiveSet(cells) == LiveSet(was) + {c}
      requires Used(cells) == Used(was) + c.size && Live(cells) == Live(was) + 1
      modifies `used, `allocations, `ledger
      ensures AccountsFor(cells) && fresh(a) && ledger == old(ledger)[b := a] && b !in old(ledger)
      ensures used == old(used) + c.size
      ensures a.offset == c.offset && a.size == c.size && a.blk == b && a.owner == this
    {
      a := new Allocation(b.offset, b.size, b, this);
      if b in ledger {
        SameLiveCell(Cell(b, ledger[b].offset, ledger[b].size, false), c);
      }
      LedgerMore(ledger, b, a);
      ghost var more := ledger[b := a];
      forall x | x in more
        ensures Names(more, x)
      {
        assert x != b ==> Names(ledger, x);
      }
      Count(b.size, 1, more);
    }

    lemma SameLiveCell(x: Cell, y: Cell)
      requires DistinctBlocks(cells) && x in LiveSet(cells) && y in LiveSet(cells) && x.block == y.block
      ensures x == y
    {
      var i: nat :| i < |cells| && cells[i] == x;
      var j: nat :| j < |cells| && cells[j] == y;
      SameCell(cells, i, j);
    }

    /** Places `request` bytes at a multiple of `align`. */
    method Alloc(request: int, align: int) returns (r: AllocResult)
      requires Valid()
      modifies this, pool
      ensures Valid() && fresh(pool - old(pool))
      ensures r.BadSize? <==> request <= 0
      ensures r.BadAlign? <==> request > 0 && !(align > 0 && PowerOfTwo(align))
      ensures !r.Placed? ==> cells == old(cells) && ledger == old(ledger) && used == old(used)
      ensures r.NoSpace? && align < granularity ==> NoneNear(cells, AlignUp(request, granularity))
      ensures r.NoSpace? && align >= granularity ==>
                NoneNear(cells, AlignUp(request, granularity) + align - granularity)
      ensures request > 0 && 0 < align < granularity && PowerOfTwo(align) ==>
                (r.NoSpace? <==> !old(Servable(cells, granularity, AlignUp(request, granularity), granularity)))
      ensures request > 0 && align >= granularity && PowerOfTwo(align) ==>
                (r.NoSpace? <==> !old(Servable(cells, granularity, AlignUp(request, granularity), align)))
      ensures r.Placed? ==>
                var a := r.allocation;
                && fresh(a) && a.blk != null && a.blk !in old(ledger) && ledger == old(ledger)[a.blk := a]
                && used == old(used) + a.size
                && Aligned(a.offset, align) && Aligned(a.offset, granularity) && a.size == AlignUp(request, granularity)
                && LiveSet(cells) == LiveSet(old(cells)) + {Cell(a.blk, a.offset, a.size, false)}
    {
      if request <= 0 {
        return BadSize;
      }
      if align <= 0 || !PowerOfTwo(align) {
        return BadAlign;
      }
      var step := if align < granularity then granularity else align;
      var bytes := AlignUp(request, granularity);
      AlignUpLeast(request, granularity, 0);
      var b, i := FindFit(bytes, step);
      if b == null {
        return NoSpace;
      }
      AlignedPlace(i, align, step);
      var a := Place(b, bytes, step, i);
      return Placed(a);
    }

    /** Reserves a fitting block and hands it out. */
    method Place(b: Block, bytes: nat, step: nat, ghost i: nat) returns (a: Allocation)
      requires Valid() && i < |cells| && cells[i].block == b && Fits(i, bytes, step)
      requires bytes > 0 && Aligned(bytes, granularity) && PowerOfTwo(step) && step >= granularity
      modifies this, pool
      ensures Valid() && fresh(pool - old(pool)) && fresh(a) && a.blk == b && b !in old(ledger)
      ensures ledger == old(ledger)[b := a] && used == old(used) + bytes
      ensures a.offset == AlignUp(old(cells[i].offset), step) && a.size == bytes
      ensures LiveSet(cells) == LiveSet(old(cells)) + {Cell(b, a.offset, a.size, false)}
    {
      ghost var was := cells;
      ghost var c := Reserve(b, bytes, step, i);
      a := HandOut(b, was, c);
    }

    /** Where a cell's first multiple of the raised alignment lies. */
    lemma AlignedPlace(i: nat, align: nat, step: nat)
      requires Structured(NONE) && i < |cells| && PowerOfTwo(align)
      requires step == if align < granularity then granularity else align
      ensures Aligned(AlignUp(cells[i].offset, step), align) && Aligned(AlignUp(cells[i].offset, step), granularity)
    {
      TilesInside(cells, 0, granularity, i);
      PadBound(cells[i].offset, step);
      AlignUpLeast(cells[i].offset, step, 0);
      PowersAligned(step, align);
      AlignedTransitive(AlignUp(cells[i].offset, step), step, align);
    }

    // ---- freeing ----

    /** The open block takes over its successor if that is free. */
    method MergeForward(b: Block, ghost i: nat)
      requires i < |cells| && Structured(i) && cells[i].block == b
      modifies `flBitmap, `slBitmap, `free, `lists, `blocks, `head, `cells, `pool, pool
      ensures i < |cells| && Structured(i) && SameLive(old(cells), cells) && pool <= old(pool) && cells[i].block == b
      ensures Quiet(cells, i + 1)
    {
      assert LinkAt(cells, i);
      var n := b.nextPhys;
      if n != null {
        assert LinkAt(cells, i + 1);
        if n.free {
          JoinNext(b, n, i);
        }
      }
    }

    /** The open block's predecessor takes it over if that is free; returns the open block. */
    method MergeBackward(b: Block, ghost i: nat) returns (m: Block, ghost j: nat)
      requires i < |cells| && Structured(i) && cells[i].block == b && Quiet(cells, i + 1)
      modifies `flBitmap, `slBitmap, `free, `lists, `blocks, `head, `cells, `pool, pool
      ensures j < |cells| && Structured(j) && SameLive(old(cells), cells) && pool <= old(pool) && cells[j].block == m
      ensures Quiet(cells, j - 1) && Quiet(cells, j + 1)
    {
      assert LinkAt(cells, i);
      m, j := b, i;
      var p := b.prevPhys;
      if p != null {
        assert LinkAt(cells, i - 1);
        if p.free {
          JoinPrev(p, b, i - 1);
          m, j := p, i - 1;
        }
      }
    }

    /** Makes a live block free, merged with its free neighbours. */
    method Release(b: Block, ghost i: nat)
      requires Structured(NONE) && i < |cells| && cells[i].block == b && !cells[i].free
      modifies `flBitmap, `slBitmap, `free, `lists, `blocks, `head, `cells, `pool, pool
      ensures Structured(NONE) && pool <= old(pool)
      ensures LiveSet(cells) == LiveSet(old(cells)) - {old(cells[i])}
      ensures Used(cells) == Used(old(cells)) - old(cells[i].size) && Live(cells) == Live(old(cells)) - 1
    {
      MarkTotals(cells, i, true);
      assert cells[i].(free := false) == cells[i];
      Open(b, i);
      MergeForward(b, i);
      var m, j := MergeBackward(b, i);
      Return(m, j);
    }

    /** A copy, kept by a caller, of an allocation whose block has been freed and not placed again. */
    ghost predicate Spent(a: Allocation)
      reads a, a.blk
    {
      a.blk != null && a.blk.free
    }

    /** Releases an allocation. One naming this pool is out, or a copy of one already released. */
    method Free(a: Allocation?) returns (r: FreeResult)
      requires Valid() && (a != null && a.owner == this ==> Out(a) || Spent(a))
      modifies this, pool, a
      ensures Valid() && pool <= old(pool)
      ensures r.NilAllocation? <==> a == null
      ensures r.NotOwned? <==> a != null && old(a.owner) != this
      ensures r.AlreadyFree? <==> a != null && old(a.owner) == this && old(Spent(a))
      ensures a != null && old(Out(a)) ==> r.Released?
      ensures !r.Released? ==> cells == old(cells) && ledger == old(ledger) && used == old(used)
      ensures r.Released? ==>
                && a != null && a.owner == null && a.blk == null
                && old(a.blk) != null && ledger == old(ledger) - {old(a.blk)} && used == old(used) - a.size
                && LiveSet(cells) == LiveSet(old(cells)) - {Cell(old(a.blk), a.offset, a.size, false)}
    {
      if a == null {
        return NilAllocation;
      }
      LiveIfOut(a);
      if a.owner != this {
        return NotOwned;
      }
      var b := a.blk;
      if b.free {
        return AlreadyFree;
      }
      ghost var i := OutCell(a);
      Withdraw(a, b, i);
      return Released;
    }

    lemma LiveIfOut(a: Allocation)
      requires Valid()
      ensures Out(a) ==> a.owner == this && !Spent(a)
    {
      if Out(a) {
        var i := OutCell(a);
        assert LinkAt(cells, i);
      }
    }

    /** The live cell of an allocation that is out. */
    lemma OutCell(a: Allocation) returns (i: nat)
      requires Valid() && Out(a)
      ensures i < |cells| && cells[i] == Cell(a.blk, a.offset, a.size, false) && a.owner == this
    {
      assert Names(ledger, a.blk);
      assert Cell(a.blk, a.offset, a.size, false) in LiveSet(cells);
      i :| i < |cells| && cells[i] == Cell(a.blk, a.offset, a.size, false);
    }

    lemma LedgerLess(ledger: Ledger, b: Block)
      requires b in ledger
      ensures CellsOf(ledger - {b}) == CellsOf(ledger) - {Cell(b, ledger[b].offset, ledger[b].size, false)}
    {
      var less := ledger - {b};
      forall c
        ensures c in CellsOf(less) <==> c in CellsOf(ledger) && c != Cell(b, ledger[b].offset, ledger[b].size, false)
      {
        assert c.block in less <==> c.block in ledger && c.block != b;
        assert c in CellsOf(ledger) <==>
               c.block in ledger && c == Cell(c.block, ledger[c.block].offset, ledger[c.block].size, false);
        assert c in CellsOf(less) <==>
               c.block in less && c == Cell(c.block, less[c.block].offset, less[c.block].size, false);
      }
    }

    /** Strikes an allocation off the accounts. */
    method Strike(a: Allocation, b: Block)
      requires Named(ledger) && b in ledger && ledger[b] == a && a.blk == b
      modifies `used, `allocations, `ledger, a
      ensures Named(ledger) && ledger == old(ledger) - {b} && a.owner == null && a.blk == null
      ensures used == old(used) - old(b.size) && allocations == old(allocations) - 1
    {
      Count(0 - b.size, -1, ledger - {b});
      forall x | x in ledger
        ensures ledger[x] != a && old(Names(ledger, x))
      {
      }
      a.owner := null;
      a.blk := null;
      forall x | x in ledger
        ensures Names(ledger, x)
      {
        assert old(Names(ledger, x));
      }
    }

    /** Releases the block and strikes the allocation off the accounts. */
    method Withdraw(a: Allocation, b: Block, ghost i: nat)
      requires Valid() && Out(a) && a.blk == b && i < |cells| && cells[i] == Cell(b, a.offset, a.size, false)
      modifies this, pool, a
      ensures Valid() && pool <= old(pool) && a.owner == null && a.blk == null
      ensures ledger == old(ledger) - {b} && used == old(used) - a.size
      ensures LiveSet(cells) == LiveSet(old(cells)) - {Cell(b, a.offset, a.size, false)}
    {
      assert LinkAt(cells, i);
      LedgerLess(ledger, b);
      Strike(a, b);
      Release(b, i);
    }

    // ---- statistics ----

    /** The largest free cell's size; zero when nothing is free. */
    ghost predicate IsLargest(n: nat)
      reads `cells
    {
      && (forall c :: c in cells && c.free ==> c.size <= n)
      && (n == 0 || exists c :: c in cells && c.free && c.size == n)
    }

    /** Every free cell's class is at most d, the highest non-empty one. */
    ghost predicate Top(d: SizeClass)
      reads `lists, `flBitmap, `slBitmap, `free
    {
      At(lists, d) != [] && forall c: SizeClass :: InGrid(c, flCount) && c.Rank() > d.Rank() ==> At(lists, c) == []
    }

    /** The highest non-empty class, if any. */
    method TopClass() returns (some: bool, d: SizeClass)
      requires Indexed()
      ensures some ==> InGrid(d, flCount) && Top(d)
      ensures !some ==> forall k :: At(lists, k) == []
    {
      d := SizeClass(0, 0);
      var fl := Highest(flBitmap, flCount);
      if fl == flCount {
        forall k
          ensures At(lists, k) == []
        {
          assert SlotOk(GridOf(), flCount, lists, k);
          assert k.fl < flCount ==> RowOk(GridOf(), flCount, k.fl);
        }
        return false, d;
      }
      assert RowOk(GridOf(), flCount, fl);
      var sl := Highest(slBitmap[fl], SL_COUNT);
      d := SizeClass(fl, sl);
      assert SlotOk(GridOf(), flCount, lists, d);
      forall c: SizeClass | InGrid(c, flCount) && c.Rank() > d.Rank()
        ensures At(lists, c) == []
      {
        assert SlotOk(GridOf(), flCount, lists, c) && RowOk(GridOf(), flCount, c.fl);
      }
      return true, d;
    }

    /** A free cell outside the top class is smaller than any cell in it. */
    lemma TopHoldsLargest(d: SizeClass, i: nat, j: nat)
      requires Structured(NONE) && Top(d) && i < |cells| && j < |cells|
      requires cells[i].free && Mapping(cells[i].size, granularity) != d
      requires cells[j].free && Mapping(cells[j].size, granularity) == d
      ensures cells[i].size < cells[j].size
    {
      CellInGrid(i);
      CellInGrid(j);
      FreeIsListed(i);
      TilesInside(cells, 0, granularity, i);
      TilesInside(cells, 0, granularity, j);
      LeadRange(Units(cells[i].size, granularity));
      LeadRange(Units(cells[j].size, granularity));
      if cells[j].size <= cells[i].size {
        UnitsMonotone(cells[j].size, cells[i].size, granularity);
        ClassMonotone(Units(cells[j].size, granularity), Units(cells[i].size, granularity));
      }
    }

    /** The largest size on one class list. */
    method LargestIn(first: Block, ghost d: SizeClass) returns (largest: nat)
      requires Structured(NONE) && |At(lists, d)| > 0 && At(lists, d)[0] == first
      ensures exists c :: c in cells && c.free && c.size == largest && Mapping(c.size, granularity) == d
      ensures forall c :: c in cells && c.free && Mapping(c.size, granularity) == d ==> c.size <= largest
    {
      var b: Block? := first;
      ghost var l := At(lists, d);
      ghost var j := 0;
      largest := 0;
      assert ListOk(l, pool);
      while b != null
        invariant j <= |l| && b == (if j < |l| then l[j] else null)
        invariant j == 0 ==> largest == 0
        invariant j > 0 ==> exists c :: c in cells && c.free && c.size == largest && Mapping(c.size, granularity) == d
        invariant forall k :: 0 <= k < j ==> l[k].size <= largest
        decreases |l| - j
      {
        ghost var i := ListedCell(b, d);
        assert LinkAt(cells, i) && ChainAt(l, j) && cells[i] in cells;
        if b.size > largest {
          largest := b.size;
        }
        b := b.nextFree;
        j := j + 1;
      }
      forall c | c in cells && c.free && Mapping(c.size, granularity) == d
        ensures c.size <= largest
      {
        var i: nat :| i < |cells| && cells[i] == c;
        FreeIsListed(i);
        assert LinkAt(cells, i);
      }
    }

    method LargestFree() returns (largest: nat)
      requires Structured(NONE)
      ensures IsLargest(largest)
    {
      var some, d := TopClass();
      if !some {
        forall c | c in cells && c.free
          ensures false
        {
          var i: nat :| i < |cells| && cells[i] == c;
          FreeIsListed(i);
        }
        return 0;
      }
      assert SlotOk(GridOf(), flCount, lists, d) && RowOk(GridOf(), flCount, d.fl);
      largest := LargestIn(free[d.fl][d.sl], d);
      forall c | c in cells && c.free
        ensures c.size <= largest
      {
        var i: nat :| i < |cells| && cells[i] == c;
        if Mapping(c.size, granularity) != d {
          var top :| top in cells && top.free && top.size == largest && Mapping(top.size, granularity) == d;
          var j: nat :| j < |cells| && cells[j] == top;
          TopHoldsLargest(d, i, j);
        }
      }
    }

    /** A request that asks for no more than the granularity's alignment is served exactly when its
        rounded-up class is no higher than the class of the largest free block. */
    lemma ServedExactly(n: nat, ask: nat)
      requires Structured(NONE) && IsLargest(n) && ask > 0 && Aligned(ask, granularity)
      ensures Servable(cells, granularity, ask, granularity) <==>
                n > 0 && Mapping(n, granularity).Rank() >= ClassOf(RoundedUnits(Units(ask, granularity))).Rank()
    {
      MappingUpClass(ask);
      if c :| c in cells && Seen(c, granularity, ask) {
        var i: nat :| i < |cells| && cells[i] == c;
        CellInGrid(i);
        UnitsMonotone(c.size, n, granularity);
        ClassMonotone(Units(c.size, granularity), Units(n, granularity));
      } else if n > 0 {
        var c :| c in cells && c.free && c.size == n;
        assert !Seen(c, granularity, ask);
      }
    }

    /** A request for exactly the largest free block is served if and only if its size, in units of the
        granularity, has no bit below its leading five. */
    lemma LargestServed(n: nat)
      requires Structured(NONE) && IsLargest(n) && n > 0
      ensures Aligned(n, granularity) && Units(n, granularity) > 0
      ensures Servable(cells, granularity, n, granularity) <==> FiveBits(Units(n, granularity))
    {
      var c :| c in cells && c.free && c.size == n;
      var i: nat :| i < |cells| && cells[i] == c;
      TilesInside(cells, 0, granularity, i);
      CellInGrid(i);
      ServedExactly(n, n);
      RoundingKeepsClass(Units(n, granularity));
    }

    /** Occupancy: exact counts, the exact largest free block, and the conservation of usable bytes. */
    method Report() returns (s: Stats)
      requires Valid()
      ensures s.size == size && s.used == used && s.free == size - used
      ensures s.largestFree >= 0 && IsLargest(s.largestFree)
      ensures s.allocations == Live(cells) && s.blocks == |cells| - Live(cells)
      ensures s.used + FreeBytes(cells) == Usable() && s.free == FreeBytes(cells) + (size - Usable())
    {
      var largest := LargestFree();
      UsedAndFree(cells);
      TilesBytes(cells, 0, granularity);
      s := Stats(size, used, size - used, largest, allocations, blocks);
    }

    // ---- what holds of every pool ----

    /** Allocations that are out are on the grid, inside the pool, and pairwise disjoint. */
    lemma AllocationsApart(a: Allocation, d: Allocation)
      requires Valid() && Out(a) && Out(d)
      ensures Aligned(a.offset, granularity) && Aligned(a.size, granularity) && 0 < a.size
      ensures a.offset + a.size <= Usable()
      ensures a != d ==> a.offset + a.size <= d.offset || d.offset + d.size <= a.offset
    {
      var i := OutCell(a);
      var j := OutCell(d);
      TilesInside(cells, 0, granularity, i);
      if i < j {
        TilesApart(cells, 0, granularity, i, j);
      } else if j < i {
        TilesApart(cells, 0, granularity, j, i);
      }
    }

    /** When nothing is out, the pool is one free block covering every usable byte. */
    lemma NothingOut()
      requires Valid() && ledger == map[]
      ensures |cells| == 1 && cells[0].free && cells[0].offset == 0 && cells[0].size == Usable() && used == 0
    {
      LiveSetEmpty(cells);
      AllFreeIsOne(cells, granularity);
      NoneLive(cells);
    }

    lemma {:induction false} LiveSetEmpty(s: seq<Cell>)
      requires LiveSet(s) == {}
      ensures Live(s) == 0
    {
      if s != [] {
        assert forall c :: c in LiveSet(s[..|s| - 1]) ==> c in LiveSet(s);
        LiveSetEmpty(s[..|s| - 1]);
        var last := s[|s| - 1];
        assert last in s;
        assert !last.free ==> last in LiveSet(s);
      }
    }

    // ---- creation ----

    /** An allocator with no block yet. */
    constructor (size: nat, granularity: nat)
      requires PowerOfTwo(granularity) && granularity <= size
      ensures this.size == size && this.granularity == granularity && Params() && Indexed()
      ensures pool == {} && lists == map[] && ledger == map[] && used == 0 && allocations == 0 && blocks == 0
      ensures cells == []
    {
      this.size, this.granularity := size, granularity;
      flCount := Log2(Units(size, granularity)) + 2;
      used, allocations, blocks, head := 0, 0, 0, null;
      flBitmap := {};
      slBitmap := seq(Log2(Units(size, granularity)) + 2, _ => {});
      free := seq(Log2(Units(size, granularity)) + 2, _ => NoHeads());
      cells, lists, pool, ledger := [], map[], {}, map[];
      new;
      UnitsOfDown(size, granularity);
      assert forall k :: At(lists, k) == [];
      forall fl: nat | fl < flCount
        ensures RowOk(GridOf(), flCount, fl)
      {
      }
      forall k: SizeClass
        ensures SlotOk(GridOf(), flCount, lists, k)
      {
      }
    }

    /** Starts the pool as one free block covering everything the granularity can address. */
    method Fill()
      requires Params() && Indexed() && pool == {} && lists == map[] && blocks == 0 && cells == []
      requires ledger == map[] && used == 0 && allocations == 0
      modifies this
      ensures Valid() && ledger == map[] && used == 0 && fresh(pool)
      ensures |cells| == 1 && cells[0].free && cells[0].offset == 0 && cells[0].size == Usable()
    {
      var h := Seed();
      FirstCell(cells[0]);
      InsertDue(h, 0, NONE);
    }

    /** Makes one free block the whole physical list. */
    method Seed() returns (h: Block)
      requires Params() && Indexed() && pool == {} && lists == map[] && blocks == 0
      modifies `head, `cells, `pool
      ensures cells == [Cell(h, 0, Usable(), true)] && pool == {h} && fresh(h) && blocks == Listed(NONE) - 1
      ensures Shape(NONE, Members(lists) + iset{(h, Mapping(Usable(), granularity))})
    {
      AlignDownGreatest(size, granularity);
      h := new Block(0, Usable(), null, null);
      ghost var c := Cell(h, 0, Usable(), true);
      FirstCell(c);
      assert Members(lists) == iset{};
      Adopt(h, c);
    }

    lemma FirstCell(c: Cell)
      requires Params() && c.offset == 0 && c.free && c.size == Usable()
      ensures Sane([c], NONE, Usable(), granularity, iset{(c.block, Mapping(c.size, granularity))})
      ensures Live([c]) == 0 && Used([c]) == 0 && LiveSet([c]) == CellsOf(map[]) && BlocksOf([c]) == {c.block}
    {
      AlignDownGreatest(size, granularity);
      TilesOne(c, 0, granularity);
      DueSingle(c, granularity);
      BlocksOne(c);
      assert [c][..0] == [];
    }

    method Adopt(h: Block, ghost c: Cell)
      requires Indexed() && pool == {} && c.block == h && h.offset == c.offset && h.size == c.size && h.free == c.free
      requires h.prevPhys == null && h.nextPhys == null
      modifies `head, `cells, `pool
      ensures head == h && cells == [c] && pool == {h} && Indexed() && Linked(cells)
    {
      ListsSurvive({h});
      head := h;
      cells := [c];
      pool := {h};
      assert LinkAt([c], 0);
    }
  }

  function NoHeads(): seq<Block?> {
    seq(SL_COUNT, _ => null)
  }

  /** A pool over [0, size), refused unless the granularity is a positive power of two no larger than
      the size. */
  method NewPool(size: int, granularity: int) returns (r: NewResult)
    ensures r.BadGranularity? <==> granularity <= 0 || !PowerOfTwo(granularity)
    ensures r.TooSmall? <==> granularity > 0 && PowerOfTwo(granularity) && size < granularity
    ensures r.Created? ==>
              && fresh(r.pool) && fresh(r.pool.pool) && r.pool.Valid() && r.pool.size == size &&
              r.pool.granularity == granularity
              && r.pool.ledger == map[] && r.pool.used == 0
              && |r.pool.cells| == 1 && r.pool.cells[0].free && r.pool.cells[0].size == r.pool.Usable()
  {
    if granularity <= 0 || !PowerOfTwo(granularity) {
      return BadGranularity;
    }
    if size < granularity {
      return TooSmall;
    }
    var p := new Pool(size, granularity);
    p.Fill();
    return Created(p);
  }

  /** Asks a pool for exactly what it reports as its largest free block. */
  method AllocLargest(p: Pool) returns (n: nat, r: AllocResult)
    requires p.Valid()
    modifies p, p.pool
    ensures p.Valid() && old(p.IsLargest(n))
    ensures r.BadSize? <==> n == 0
    ensures r.Placed? <==> n > 0 && FiveBits(Units(n, p.granularity))
    ensures !r.BadAlign?
  {
    n := p.LargestFree();
    if n > 0 {
      p.LargestServed(n);
      AlignUpLeast(n, p.granularity, 0);
    }
    r := p.Alloc(n, 1);
  }

  /** An untouched pool of 33 units reports 33 as its largest free block, and refuses it. */
  method LargestRefused() returns (n: nat, r: AllocResult)
    ensures n == 33 && r.NoSpace?
  {
    var made := NewPool(33, 1);
    assert made.Created?;
    var p := made.pool;
    AlignDownGreatest(33, 1);
    assert p.cells[0] in p.cells && p.cells[0].size == 33;
    UnitsQuotient(33, 1);
    ThirtyThree();
    n, r := AllocLargest(p);
  }

  /** Freeing everything that is out, in any order, leaves one free block covering the pool. */
  method FreeEach(p: Pool, order: seq<Allocation>)
    requires p.Valid() && NoneTwice(order)
    requires forall a :: a in order ==> p.Out(a)
    requires forall b :: b in p.ledger ==> p.ledger[b] in order
    modifies p, p.pool, order
    ensures p.Valid() && p.ledger == map[] && p.used == 0
    ensures |p.cells| == 1 && p.cells[0].free && p.cells[0].offset == 0 && p.cells[0].size == p.Usable()
  {
    ghost var was := p.ledger;
    forall a | a in order
      ensures exists b :: b in was && was[b] == a
    {
      assert p.Out(a) && was[a.blk] == a;
    }
    for i := 0 to |order|
      invariant p.Valid() && p.pool <= old(p.pool) && LeftFrom(p.ledger, was, order, i)
    {
      FreeNext(p, was, order, i);
    }
    p.NothingOut();
  }

  /** What is still out is what the order names from position i on. */
  ghost predicate LeftFrom(ledger: Ledger, was: Ledger, order: seq<Allocation>, i: nat)
    requires i <= |order|
  {
    && ledger.Keys <= was.Keys && (forall b :: b in ledger ==> ledger[b] == was[b])
    && forall b :: b in was ==> (b in ledger <==> was[b] in order[i..])
  }

  method FreeNext(p: Pool, ghost was: Ledger, order: seq<Allocation>, i: nat)
    requires p.Valid() && NoneTwice(order) && i < |order| && LeftFrom(p.ledger, was, order, i)
    requires forall a :: a in order ==> exists b :: b in was && was[b] == a
    modifies p, p.pool, order[i]
    ensures p.Valid() && p.pool <= old(p.pool) && LeftFrom(p.ledger, was, order, i + 1)
  {
    var a := order[i];
    assert a in order;
    ghost var b := KeyOf(p, was, a, order, i);
    assert p.Names(p.ledger, b);
    var r := p.Free(a);
    LeftNext(old(p.ledger), was, order, i, b);
  }

  lemma LeftNext(ledger: Ledger, was: Ledger, order: seq<Allocation>, i: nat, b: Block)
    requires NoneTwice(order) && i < |order| && LeftFrom(ledger, was, order, i)
    requires b in ledger && ledger[b] == order[i]
    requires forall c :: c in was && was[c] == order[i] ==> c == b
    ensures LeftFrom(ledger - {b}, was, order, i + 1)
  {
    forall c | c in was
      ensures c in ledger - {b} <==> was[c] in order[i + 1..]
    {
      OnceAfter(order, i, was[c]);
    }
  }

  ghost predicate NoneTwice(order: seq<Allocation>) {
    forall i: nat, j: nat :: i < j < |order| ==> order[i] != order[j]
  }

  lemma OnceAfter(order: seq<Allocation>, i: nat, a: Allocation)
    requires NoneTwice(order) && i < |order|
    ensures a in order[i..] <==> a == order[i] || a in order[i + 1..]
    ensures order[i] !in order[i + 1..]
  {
    assert order[i..] == [order[i]] + order[i + 1..];
  }

  lemma KeyOf(p: Pool, was: Ledger, a: Allocation, order: seq<Allocation>, i: nat) returns (b: Block)
    requires i < |order| && order[i] == a
    requires exists b :: b in was && was[b] == a
    requires forall b :: b in was ==> (b in p.ledger <==> was[b] in order[i..])
    requires forall b :: b in p.ledger ==> b in was && p.ledger[b] == was[b]
    ensures b in p.ledger && p.ledger[b] == a && was[b] == a
  {
    b :| b in was && was[b] == a;
    assert order[i..][0] == a;
  }
}
