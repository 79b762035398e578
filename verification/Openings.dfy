/** One cell at a time may be open: free, but taken off its class list while the allocator splits or
    merges it. What each such step does to the cells, to the lists they are due in, and to the totals. */
module Openings {
  import opened Arith
  import opened SizeClasses
  import opened Cells
  import opened Layouts
  import opened PhysLists

  const NONE: int := -1

  /** The cells, with the open one seen as live. */
  ghost function View(s: seq<Cell>, i: int): seq<Cell> {
    if 0 <= i < |s| then s[i := s[i].(free := false)] else s
  }

  /** Cells tiling a pool, of which cell i (if any) is open: the others are listed where they are due,
      and no two adjacent ones are free. */
  ghost predicate Sane(s: seq<Cell>, i: int, usable: nat, g: nat, listing: Listing) {
    && g > 0 && Layout(s, usable, g) && (0 <= i < |s| ==> s[i].free)
    && NoAdjacentFree(View(s, i)) && listing == Due(View(s, i), g)
  }

  ghost function LiveSet(s: seq<Cell>): set<Cell> {
    set c | c in s && !c.free
  }

  /** Same live blocks, same totals. */
  ghost predicate SameLive(s: seq<Cell>, t: seq<Cell>) {
    LiveSet(s) == LiveSet(t) && Used(s) == Used(t) && Live(s) == Live(t)
  }

  ghost predicate Quiet(s: seq<Cell>, i: int) {
    0 <= i < |s| ==> !s[i].free
  }

  /** The blocks of a stretch of the list, and of the cells on either side of it. */
  lemma Stretch(a: seq<Cell>, m: seq<Cell>, b: seq<Cell>)
    ensures BlocksOf(a + m + b) == BlocksOf(a) + BlocksOf(m) + BlocksOf(b)
    ensures DistinctBlocks(a + m + b) ==> DistinctBlocks(m) && BlocksOf(m) !! BlocksOf(a) && BlocksOf(m) !! BlocksOf(b)
  {
    BlocksConcat(a, m);
    BlocksConcat(a + m, b);
    DistinctConcat(a + m, b);
    DistinctConcat(a, m);
  }

  lemma BlocksOne(c: Cell)
    ensures BlocksOf([c]) == {c.block}
  {
    assert c in [c];
  }

  lemma BlocksTwo(a: Cell, b: Cell)
    ensures BlocksOf([a, b]) == {a.block, b.block}
    ensures a.block != b.block ==> DistinctBlocks([a, b])
  {
    assert a in [a, b] && b in [a, b];
  }

  // ---- the due sets ----

  /** A block appears in the due set only through its own cell. */
  lemma DueOfBlock(s: seq<Cell>, i: nat, k: SizeClass, g: nat)
    requires DistinctBlocks(s) && i < |s| && g > 0
    ensures (s[i].block, k) in Due(s, g) <==> s[i].free && k == Mapping(s[i].size, g)
  {
    if (s[i].block, k) in Due(s, g) {
      var c :| c in s && c.free && (c.block, Mapping(c.size, g)) == (s[i].block, k);
      var j: nat :| j < |s| && s[j] == c;
      SameCell(s, i, j);
    }
  }

  lemma NotDue(s: seq<Cell>, b: Block, k: SizeClass, g: nat)
    requires b !in BlocksOf(s) && g > 0
    ensures (b, k) !in Due(s, g)
  {
  }

  lemma ViewDistinct(s: seq<Cell>, i: int)
    requires DistinctBlocks(s)
    ensures DistinctBlocks(View(s, i)) && BlocksOf(View(s, i)) == BlocksOf(s)
  {
    var v := View(s, i);
    forall j: nat, k: nat | j < k < |v|
      ensures Apart(v, j, k)
    {
      assert Apart(s, j, k);
    }
    forall b
      ensures b in BlocksOf(v) <==> b in BlocksOf(s)
    {
      if b in BlocksOf(v) {
        var j: nat :| j < |v| && v[j].block == b;
        assert s[j] in s;
      }
      if b in BlocksOf(s) {
        var j: nat :| j < |s| && s[j].block == b;
        assert v[j] in v;
      }
    }
  }

  /** Changing one cell of a list changes the due set at that cell only. */
  lemma DueChange(a: seq<Cell>, was: seq<Cell>, mid: seq<Cell>, b: seq<Cell>, g: nat)
    requires g > 0 && DistinctBlocks(a + was + b)
    ensures Due(a + mid + b, g) == Due(a + was + b, g) - Due(was, g) + Due(mid, g)
  {
    DueConcat(a + was, b, g);
    DueConcat(a, was, g);
    DueConcat(a + mid, b, g);
    DueConcat(a, mid, g);
    DistinctConcat(a + was, b);
    DistinctConcat(a, was);
    BlocksConcat(a, was);
    forall p | p in Due(was, g)
      ensures p !in Due(a, g) && p !in Due(b, g)
    {
      assert p.0 in BlocksOf(was);
    }
  }

  lemma LiveSetChange(a: seq<Cell>, was: seq<Cell>, mid: seq<Cell>, b: seq<Cell>)
    ensures LiveSet(was) == LiveSet(mid) ==> LiveSet(a + mid + b) == LiveSet(a + was + b)
  {
    assert forall c :: c in a + mid + b <==> c in a || c in mid || c in b;
    assert forall c :: c in a + was + b <==> c in a || c in was || c in b;
    if LiveSet(was) == LiveSet(mid) {
      assert forall c :: c in was && !c.free <==> c in LiveSet(was);
      assert forall c :: c in mid && !c.free <==> c in LiveSet(mid);
    }
  }

  // ---- taking a free cell off its list, and putting one back ----

  /** Seeing one free cell as live takes exactly its own entry away. */
  lemma ViewDue(s: seq<Cell>, i: nat, g: nat)
    requires DistinctBlocks(s) && i < |s| && s[i].free && g > 0
    ensures Due(View(s, i), g) == Due(s, g) - iset{(s[i].block, Mapping(s[i].size, g))}
    ensures Due(s, g) == Due(View(s, i), g) + iset{(s[i].block, Mapping(s[i].size, g))}
  {
    var c := s[i];
    var l := c.(free := false);
    Cut(s, i, 1);
    assert s[i..i + 1] == [c] && View(s, i) == s[..i] + [l] + s[i + 1..];
    DueChange(s[..i], [c], [l], s[i + 1..], g);
    DueSingle(c, g);
    DueSingle(l, g);
    assert c in s;
  }

  lemma TakeStep(s: seq<Cell>, i: nat, usable: nat, g: nat, listing: Listing)
    requires Sane(s, NONE, usable, g, listing) && i < |s| && s[i].free
    ensures Sane(s, i, usable, g, listing - iset{(s[i].block, Mapping(s[i].size, g))})
    ensures Quiet(s, i - 1) && Quiet(s, i + 1)
  {
    var v := View(s, i);
    assert i > 0 ==> NotBothFree(s, i - 1);
    assert i + 1 < |s| ==> NotBothFree(s, i);
    forall j: nat | j + 1 < |v|
      ensures NotBothFree(v, j)
    {
      assert NotBothFree(s, j);
    }
    ViewDue(s, i, g);
  }

  lemma ReturnStep(s: seq<Cell>, i: nat, usable: nat, g: nat, listing: Listing)
    requires i < |s| && Sane(s, i, usable, g, listing) && Quiet(s, i - 1) && Quiet(s, i + 1)
    ensures Sane(s, NONE, usable, g, listing + iset{(s[i].block, Mapping(s[i].size, g))})
  {
    var v := View(s, i);
    forall j: nat | j + 1 < |s|
      ensures NotBothFree(s, j)
    {
      assert NotBothFree(v, j);
    }
    ViewDue(s, i, g);
  }

  // ---- allocating and releasing the open cell ----

  ghost function Marked(s: seq<Cell>, i: nat, free: bool): seq<Cell>
    requires i < |s|
  {
    s[i := s[i].(free := free)]
  }

  lemma MarkLayout(s: seq<Cell>, i: nat, free: bool, usable: nat, g: nat)
    requires Layout(s, usable, g) && i < |s|
    ensures Layout(Marked(s, i, free), usable, g) && BlocksOf(Marked(s, i, free)) == BlocksOf(s)
  {
    var t := Marked(s, i, free);
    forall j: nat | j < |t|
      ensures TileAt(t, 0, g, j)
    {
      assert TileAt(s, 0, g, j);
    }
    forall j: nat, k: nat | j < k < |t|
      ensures Apart(t, j, k)
    {
      assert Apart(s, j, k);
    }
    forall b
      ensures b in BlocksOf(t) <==> b in BlocksOf(s)
    {
      if b in BlocksOf(t) {
        var j: nat :| j < |t| && t[j].block == b;
        assert s[j] in s;
      }
      if b in BlocksOf(s) {
        var j: nat :| j < |s| && s[j].block == b;
        assert t[j] in t;
      }
    }
  }

  lemma SealStep(s: seq<Cell>, i: nat, usable: nat, g: nat, listing: Listing)
    requires i < |s| && Sane(s, i, usable, g, listing)
    ensures Sane(Marked(s, i, false), NONE, usable, g, listing)
  {
    MarkLayout(s, i, false, usable, g);
  }

  lemma OpenStep(s: seq<Cell>, i: nat, usable: nat, g: nat, listing: Listing)
    requires i < |s| && Sane(s, NONE, usable, g, listing) && !s[i].free
    ensures Sane(Marked(s, i, true), i, usable, g, listing)
  {
    MarkLayout(s, i, true, usable, g);
    assert View(Marked(s, i, true), i) == s;
  }

  /** What a cell turning live, or free, does to the totals. */
  lemma MarkTotals(s: seq<Cell>, i: nat, free: bool)
    requires DistinctBlocks(s) && i < |s| && s[i].free != free
    ensures var t := Marked(s, i, free); var c := s[i].(free := false);
            && Used(t) == (if free then Used(s) - s[i].size else Used(s) + s[i].size)
            && Live(t) == (if free then Live(s) - 1 else Live(s) + 1)
            && LiveSet(t) == (if free then LiveSet(s) - {c} else LiveSet(s) + {c})
            && (c in LiveSet(s) <==> free)
  {
    var t := Marked(s, i, free);
    Cut(s, i, 1);
    assert s[i..i + 1] == [s[i]];
    assert t == s[..i] + [t[i]] + s[i + 1..];
    ReplaceTotals(s[..i], [s[i]], [t[i]], s[i + 1..]);
    assert [s[i]][..0] == [] && [t[i]][..0] == [];
    forall c
      ensures c in LiveSet(t) <==> if free then c in LiveSet(s) && c != s[i] else c in LiveSet(s) || c == t[i]
    {
      MarkMember(s, i, free, c);
    }
    if s[i].(free := false) in LiveSet(s) {
      var j: nat :| j < |s| && s[j] == s[i].(free := false);
      SameCell(s, i, j);
    }
  }

  lemma MarkMember(s: seq<Cell>, i: nat, free: bool, c: Cell)
    requires DistinctBlocks(s) && i < |s| && s[i].free != free
    ensures c in LiveSet(Marked(s, i, free))
      <==> if free then c in LiveSet(s) && c != s[i] else c in LiveSet(s) || c == s[i].(free := free)
  {
    var t := Marked(s, i, free);
    if c in LiveSet(t) {
      var j: nat :| j < |t| && t[j] == c;
      if j != i {
        assert c in s;
        assert if i < j then Apart(s, i, j) else Apart(s, j, i);
      }
    }
    if c in LiveSet(s) {
      var j: nat :| j < |s| && s[j] == c;
      assert t[j] in t;
    }
    assert t[i] in t;
  }

  // ---- trimming the open cell ----

  lemma SplitTiles(a: Cell, b: Cell, g: nat)
    requires a.End() == b.offset && OnGrid(a, g) && OnGrid(b, g)
    ensures Tiles([a, b], a.offset, g) && EndOf([a, b], 0) == b.End()
  {
    TilesOne(a, a.offset, g);
    TilesOne(b, b.offset, g);
    TilesJoin([a], [b], a.offset, g);
    assert [a] + [b] == [a, b];
  }

  lemma SplitLayout(s: seq<Cell>, i: nat, a: Cell, b: Cell, usable: nat, g: nat)
    requires Layout(s, usable, g) && i < |s|
    requires a.offset == s[i].offset && a.End() == b.offset && b.End() == s[i].End() && OnGrid(a, g) && OnGrid(b, g)
    requires (a.block == s[i].block && b.block !in BlocksOf(s)) || (b.block == s[i].block && a.block !in BlocksOf(s))
    ensures Layout(SplitCells(s, i, a, b), usable, g)
    ensures BlocksOf(SplitCells(s, i, a, b)) == BlocksOf(s) + {a.block, b.block}
  {
    SplitTiles(a, b, g);
    Cut(s, i, 1);
    assert s[i..i + 1] == [s[i]];
    Stretch(s[..i], [s[i]], s[i + 1..]);
    Stretch(s[..i], [a, b], s[i + 1..]);
    BlocksOne(s[i]);
    BlocksTwo(a, b);
    Replace(s, i, 1, [a, b], usable, g);
  }

  lemma SplitLive(s: seq<Cell>, i: nat, a: Cell, b: Cell)
    requires i < |s| && s[i].free && a.free && b.free
    ensures SameLive(s, SplitCells(s, i, a, b))
  {
    Cut(s, i, 1);
    assert s[i..i + 1] == [s[i]];
    ReplaceTotals(s[..i], [s[i]], [a, b], s[i + 1..]);
    LiveSetChange(s[..i], [s[i]], [a, b], s[i + 1..]);
    assert [s[i]][..0] == [] && [a, b][..1] == [a] && [a][..0] == [];
    assert LiveSet([s[i]]) == LiveSet([a, b]);
  }

  lemma SplitQuiet(s: seq<Cell>, i: nat, a: Cell, b: Cell, front: bool)
    requires i < |s| && s[i].free && NoAdjacentFree(View(s, i)) && Quiet(s, if front then i - 1 else i + 1)
    requires a.free && b.free
    ensures NoAdjacentFree(View(SplitCells(s, i, a, b), if front then i + 1 else i))
  {
    var v, w := View(s, i), View(SplitCells(s, i, a, b), if front then i + 1 else i);
    forall j: nat | j + 1 < |w|
      ensures NotBothFree(w, j)
    {
      assert j < i && j + 1 < |v| ==> NotBothFree(v, j);
      assert j > i ==> NotBothFree(v, j - 1);
    }
  }

  lemma SplitDue(s: seq<Cell>, i: nat, a: Cell, b: Cell, front: bool, g: nat)
    requires i < |s| && s[i].free && DistinctBlocks(s) && a.free && b.free && g > 0
    ensures var piece := if front then a else b;
            Due(View(SplitCells(s, i, a, b), if front then i + 1 else i), g)
            == Due(View(s, i), g) + iset{(piece.block, Mapping(piece.size, g))}
  {
    var piece, x := if front then a else b, s[i].(free := false);
    var y := (if front then b else a).(free := false);
    var mid := if front then [a, y] else [y, b];
    var v, w := View(s, i), View(SplitCells(s, i, a, b), if front then i + 1 else i);
    ViewDistinct(s, i);
    assert v == s[..i] + [x] + s[i + 1..];
    assert w == s[..i] + mid + s[i + 1..];
    DueChange(s[..i], [x], mid, s[i + 1..], g);
    DueSingle(x, g);
    DueTwo(mid[0], mid[1], g);
    assert mid == [mid[0], mid[1]];
  }

  lemma DueTwo(a: Cell, b: Cell, g: nat)
    requires g > 0
    ensures Due([a, b], g) == DueOne(a, g) + DueOne(b, g)
  {
    DueSingle(a, g);
    DueSingle(b, g);
    DueConcat([a], [b], g);
    assert [a] + [b] == [a, b];
  }

  /** The front of the open cell becomes a listed free cell of its own. */
  lemma FrontStep(s: seq<Cell>, i: nat, a: Cell, b: Cell, usable: nat, g: nat, listing: Listing)
    requires i < |s| && Sane(s, i, usable, g, listing) && Quiet(s, i - 1)
    requires a.offset == s[i].offset && a.End() == b.offset && b.End() == s[i].End() && OnGrid(a, g) && OnGrid(b, g)
    requires b.block == s[i].block && a.block !in BlocksOf(s) && a.free && b.free
    ensures var t := SplitCells(s, i, a, b);
            && Sane(t, i + 1, usable, g, listing + iset{(a.block, Mapping(a.size, g))})
            && SameLive(s, t) && BlocksOf(t) == BlocksOf(s) + {a.block}
            && |t| == |s| + 1 && t[i] == a && t[i + 1] == b && (i + 2 < |t| ==> t[i + 2] == s[i + 1])
            && BlockAt(t, 0) == (if i == 0 then a.block else BlockAt(s, 0))
  {
    assert s[i] in s;
    SplitLayout(s, i, a, b, usable, g);
    SplitLive(s, i, a, b);
    SplitQuiet(s, i, a, b, true);
    SplitDue(s, i, a, b, true, g);
  }

  /** The back of the open cell becomes a listed free cell of its own. */
  lemma BackStep(s: seq<Cell>, i: nat, a: Cell, b: Cell, usable: nat, g: nat, listing: Listing)
    requires i < |s| && Sane(s, i, usable, g, listing) && Quiet(s, i + 1)
    requires a.offset == s[i].offset && a.End() == b.offset && b.End() == s[i].End() && OnGrid(a, g) && OnGrid(b, g)
    requires a.block == s[i].block && b.block !in BlocksOf(s) && a.free && b.free
    ensures var t := SplitCells(s, i, a, b);
            && Sane(t, i, usable, g, listing + iset{(b.block, Mapping(b.size, g))})
            && SameLive(s, t) && BlocksOf(t) == BlocksOf(s) + {b.block}
            && |t| == |s| + 1 && t[i] == a && t[i + 1] == b && BlockAt(t, 0) == BlockAt(s, 0)
  {
    assert s[i] in s;
    SplitLayout(s, i, a, b, usable, g);
    SplitLive(s, i, a, b);
    SplitQuiet(s, i, a, b, false);
    SplitDue(s, i, a, b, false, g);
  }

  // ---- merging the open cell with a free neighbour ----

  lemma AbsorbLayout(s: seq<Cell>, i: nat, usable: nat, g: nat)
    requires Layout(s, usable, g) && i + 1 < |s|
    ensures Layout(Absorbed(s, i), usable, g)
    ensures BlocksOf(Absorbed(s, i)) == BlocksOf(s) - {s[i + 1].block}
  {
    var c := Cell(s[i].block, s[i].offset, s[i].size + s[i + 1].size, s[i].free);
    AbsorbTile(s, i, g);
    Cut(s, i, 2);
    assert s[i..i + 2] == [s[i], s[i + 1]];
    AbsorbBlocks(s[..i], s[i], s[i + 1], c, s[i + 2..]);
    Replace(s, i, 2, [c], usable, g);
  }

  lemma AbsorbBlocks(a: seq<Cell>, x: Cell, y: Cell, c: Cell, b: seq<Cell>)
    requires DistinctBlocks(a + [x, y] + b) && c.block == x.block
    ensures BlocksOf(a + [c] + b) == BlocksOf(a + [x, y] + b) - {y.block}
    ensures DistinctBlocks([c]) && BlocksOf([c]) !! BlocksOf(a) && BlocksOf([c]) !! BlocksOf(b)
  {
    Stretch(a, [x, y], b);
    Stretch(a, [c], b);
    assert Apart([x, y], 0, 1);
    BlocksTwo(x, y);
    BlocksOne(c);
  }

  lemma AbsorbTile(s: seq<Cell>, i: nat, g: nat)
    requires Tiles(s, 0, g) && i + 1 < |s|
    ensures var c := Cell(s[i].block, s[i].offset, s[i].size + s[i + 1].size, s[i].free);
            Tiles([c], s[i].offset, g) && EndOf([c], 0) == s[i + 1].End()
  {
    var c := Cell(s[i].block, s[i].offset, s[i].size + s[i + 1].size, s[i].free);
    assert TileAt(s, 0, g, i) && TileAt(s, 0, g, i + 1);
    AlignedSum(s[i].size, s[i + 1].size, g);
    TilesOne(c, c.offset, g);
  }

  lemma AbsorbLive(s: seq<Cell>, i: nat)
    requires i + 1 < |s| && s[i].free && s[i + 1].free
    ensures SameLive(s, Absorbed(s, i))
  {
    var c := Cell(s[i].block, s[i].offset, s[i].size + s[i + 1].size, s[i].free);
    Cut(s, i, 2);
    assert s[i..i + 2] == [s[i], s[i + 1]];
    ReplaceTotals(s[..i], [s[i], s[i + 1]], [c], s[i + 2..]);
    LiveSetChange(s[..i], [s[i], s[i + 1]], [c], s[i + 2..]);
    assert [c][..0] == [] && [s[i], s[i + 1]][..1] == [s[i]] && [s[i]][..0] == [];
    assert LiveSet([s[i], s[i + 1]]) == LiveSet([c]);
  }

  lemma AbsorbQuiet(s: seq<Cell>, i: nat, o: nat)
    requires i + 1 < |s| && (o == i || o == i + 1) && NoAdjacentFree(View(s, o))
    requires s[i].free
    ensures NoAdjacentFree(View(Absorbed(s, i), i))
  {
    var v, w := View(s, o), View(Absorbed(s, i), i);
    forall j: nat | j + 1 < |w|
      ensures NotBothFree(w, j)
    {
      assert j < i ==> NotBothFree(v, j);
      assert j > i ==> NotBothFree(v, j + 1);
    }
  }

  lemma AbsorbIndex(s: seq<Cell>, i: nat)
    requires i + 1 < |s|
    ensures var t := Absorbed(s, i);
            && |t| == |s| - 1 && t[i].block == s[i].block && BlockAt(t, 0) == BlockAt(s, 0)
            && (i > 0 ==> t[i - 1] == s[i - 1]) && (i + 2 < |s| ==> t[i + 1] == s[i + 2])
  {
  }

  /** The open cell absorbs its free successor. */
  lemma JoinNextStep(s: seq<Cell>, i: nat, usable: nat, g: nat, listing: Listing)
    requires i + 1 < |s| && Sane(s, i, usable, g, listing) && s[i + 1].free
    ensures var t := Absorbed(s, i);
            && Sane(t, i, usable, g, listing - iset{(s[i + 1].block, Mapping(s[i + 1].size, g))})
            && SameLive(s, t) && BlocksOf(t) == BlocksOf(s) - {s[i + 1].block}
            && Quiet(t, i + 1) && (i > 0 ==> t[i - 1] == s[i - 1])
            && |t| == |s| - 1 && t[i].block == s[i].block && BlockAt(t, 0) == BlockAt(s, 0)
  {
    var v, w := View(s, i), View(Absorbed(s, i), i);
    AbsorbLayout(s, i, usable, g);
    AbsorbLive(s, i);
    AbsorbQuiet(s, i, i);
    AbsorbIndex(s, i);
    assert i + 2 < |s| ==> NotBothFree(v, i + 1);
    JoinNextDue(s, i, g);
  }

  lemma JoinNextDue(s: seq<Cell>, i: nat, g: nat)
    requires i + 1 < |s| && g > 0 && DistinctBlocks(s) && s[i + 1].free
    ensures Due(View(Absorbed(s, i), i), g) == Due(View(s, i), g) - iset{(s[i + 1].block, Mapping(s[i + 1].size, g))}
  {
    var v, w := View(s, i), View(Absorbed(s, i), i);
    JoinDue(s[..i], v[i], s[i + 1], w[i], s[i + 2..], g, v, w, s, i);
  }

  /** The open cell is absorbed by its free predecessor, cell i, which is then the open one. */
  lemma JoinPrevStep(s: seq<Cell>, i: nat, usable: nat, g: nat, listing: Listing)
    requires i + 1 < |s| && Sane(s, i + 1, usable, g, listing) && s[i].free && Quiet(s, i + 2)
    ensures var t := Absorbed(s, i);
            && Sane(t, i, usable, g, listing - iset{(s[i].block, Mapping(s[i].size, g))})
            && SameLive(s, t) && BlocksOf(t) == BlocksOf(s) - {s[i + 1].block}
            && Quiet(t, i - 1) && Quiet(t, i + 1)
            && |t| == |s| - 1 && t[i].block == s[i].block && BlockAt(t, 0) == BlockAt(s, 0)
  {
    var v, w := View(s, i + 1), View(Absorbed(s, i), i);
    AbsorbLayout(s, i, usable, g);
    AbsorbLive(s, i);
    AbsorbQuiet(s, i, i + 1);
    AbsorbIndex(s, i);
    assert i > 0 ==> NotBothFree(v, i - 1);
    JoinPrevDue(s, i, g);
  }

  lemma JoinPrevDue(s: seq<Cell>, i: nat, g: nat)
    requires i + 1 < |s| && g > 0 && DistinctBlocks(s) && s[i].free
    ensures Due(View(Absorbed(s, i), i), g) == Due(View(s, i + 1), g) - iset{(s[i].block, Mapping(s[i].size, g))}
  {
    var v, w := View(s, i + 1), View(Absorbed(s, i), i);
    JoinDue(s[..i], s[i], v[i + 1], w[i], s[i + 2..], g, v, w, s, i + 1);
  }

  /** Two cells, one of them open, become one open cell: the other's entry goes. */
  lemma JoinDue(a: seq<Cell>, x: Cell, y: Cell, z: Cell, b: seq<Cell>, g: nat, v: seq<Cell>, w: seq<Cell>,
      s: seq<Cell>, i: nat)
    requires g > 0 && DistinctBlocks(s) && i < |s| && v == View(s, i)
    requires v == a + [x, y] + b && w == a + [z] + b && !z.free && (x.free != y.free)
    ensures Due(w, g) == Due(v, g) - iset{if x.free then (x.block, Mapping(x.size, g))
                                          else (y.block, Mapping(y.size, g))}
  {
    ViewDistinct(s, i);
    DueChange(a, [x, y], [z], b, g);
    DueSingle(x, g);
    DueSingle(y, g);
    DueSingle(z, g);
    DueConcat([x], [y], g);
    assert [x] + [y] == [x, y];
  }
}
