/** The grid of free lists and the two bitmaps over it, as values: what they say about the lists, and
    what pushing to or unlinking from one list does to them. */
module ClassIndex {
  import opened Cells
  import opened FreeLists
  import opened SizeClasses

  type Mask = set<nat>

  /** The blocks of every class, front first. */
  type Lists = map<SizeClass, seq<Block>>

  ghost function At(lists: Lists, k: SizeClass): seq<Block> {
    if k in lists then lists[k] else []
  }

  /** The same lists but for one class. */
  ghost function With(lists: Lists, k: SizeClass, l: seq<Block>): Lists {
    lists[k := l]
  }

  ghost predicate InGrid(k: SizeClass, n: nat) {
    k.fl < n && k.sl < SL_COUNT
  }

  /** The three bookkeeping structures: list heads, and a bit per non-empty list and exponent. */
  datatype Grid = Grid(flBitmap: Mask, slBitmap: seq<Mask>, free: seq<seq<Block?>>)

  ghost predicate RowOk(grid: Grid, n: nat, fl: nat)
    requires fl < n == |grid.slBitmap| == |grid.free|
  {
    && |grid.free[fl]| == SL_COUNT
    && (forall sl :: sl in grid.slBitmap[fl] ==> sl < SL_COUNT)
    && (fl in grid.flBitmap <==> grid.slBitmap[fl] != {})
  }

  /** The head and the bit of class k tell the truth about its list. */
  ghost predicate SlotOk(grid: Grid, n: nat, lists: Lists, k: SizeClass)
    requires n == |grid.slBitmap| == |grid.free| && forall fl: nat :: fl < n ==> RowOk(grid, n, fl)
  {
    if InGrid(k, n) then
      RowOk(grid, n, k.fl) && grid.free[k.fl][k.sl] == First(At(lists, k)) &&
      (k.sl in grid.slBitmap[k.fl] <==> At(lists, k) != [])
    else
      At(lists, k) == []
  }

  ghost predicate Mirrors(grid: Grid, n: nat, lists: Lists) {
    && |grid.slBitmap| == |grid.free| == n
    && (forall fl: nat :: fl < n ==> RowOk(grid, n, fl))
    && (forall fl :: fl in grid.flBitmap ==> fl < n)
    && (forall k: SizeClass :: SlotOk(grid, n, lists, k))
  }

  ghost function Members(lists: Lists): Listing {
    iset k: SizeClass, b: Block | b in At(lists, k) :: (b, k)
  }

  /** A block is in at most one list. */
  ghost predicate Exclusive(lists: Lists) {
    forall b: Block, k, d :: b in At(lists, k) && b in At(lists, d) ==> k == d
  }

  lemma PushExclusive(lists: Lists, k: SizeClass, b: Block)
    requires Exclusive(lists) && forall d :: b !in At(lists, d)
    ensures Exclusive(With(lists, k, [b] + At(lists, k)))
  {
    var m := With(lists, k, [b] + At(lists, k));
    forall x: Block, c, d | x in At(m, c) && x in At(m, d)
      ensures c == d
    {
      assert c != k ==> x in At(lists, c);
      assert d != k ==> x in At(lists, d);
      assert x != b ==> x in At(lists, c) && x in At(lists, d);
    }
  }

  lemma UnlinkExclusive(lists: Lists, k: SizeClass, i: nat)
    requires Exclusive(lists) && i < |At(lists, k)| && NoRepeats(At(lists, k))
    ensures Exclusive(With(lists, k, Without(At(lists, k), i)))
  {
    var m := With(lists, k, Without(At(lists, k), i));
    WithoutMembers(At(lists, k), i);
    forall x: Block, c, d | x in At(m, c) && x in At(m, d)
      ensures c == d
    {
      assert x in At(lists, c) && x in At(lists, d);
    }
  }

  // ---- changes ----

  /** After a push: the head moves, and both bits are set. */
  function Filed(grid: Grid, k: SizeClass, first: Block?): Grid
    requires k.fl < |grid.slBitmap| == |grid.free| && k.sl < |grid.free[k.fl]|
  {
    Grid(grid.flBitmap + {k.fl}, grid.slBitmap[k.fl := grid.slBitmap[k.fl] + {k.sl}],
         grid.free[k.fl := grid.free[k.fl][k.sl := first]])
  }

  /** After an unlink: the head may move, and the bits go once the list, and then the row, is empty. */
  function Unfiled(grid: Grid, k: SizeClass, first: Block?): Grid
    requires k.fl < |grid.slBitmap| == |grid.free| && k.sl < |grid.free[k.fl]|
  {
    var free := grid.free[k.fl := grid.free[k.fl][k.sl := first]];
    if first != null then grid.(free := free)
    else
      var row := grid.slBitmap[k.fl] - {k.sl};
      Grid(if row == {} then grid.flBitmap - {k.fl} else grid.flBitmap, grid.slBitmap[k.fl := row], free)
  }

  lemma FiledMirrors(grid: Grid, n: nat, lists: Lists, k: SizeClass, l: seq<Block>)
    requires Mirrors(grid, n, lists) && InGrid(k, n) && RowOk(grid, n, k.fl) && l != []
    ensures Mirrors(Filed(grid, k, First(l)), n, With(lists, k, l))
  {
    var g := Filed(grid, k, First(l));
    forall fl: nat | fl < n
      ensures RowOk(g, n, fl)
    {
      assert RowOk(grid, n, fl);
    }
    forall d: SizeClass
      ensures SlotOk(g, n, With(lists, k, l), d)
    {
      assert SlotOk(grid, n, lists, d);
    }
  }

  lemma UnfiledMirrors(grid: Grid, n: nat, lists: Lists, k: SizeClass, l: seq<Block>)
    requires Mirrors(grid, n, lists) && InGrid(k, n) && RowOk(grid, n, k.fl) && At(lists, k) != []
    ensures Mirrors(Unfiled(grid, k, First(l)), n, With(lists, k, l))
  {
    var g := Unfiled(grid, k, First(l));
    assert SlotOk(grid, n, lists, k);
    forall fl: nat | fl < n
      ensures RowOk(g, n, fl)
    {
      assert RowOk(grid, n, fl);
    }
    forall d: SizeClass
      ensures SlotOk(g, n, With(lists, k, l), d)
    {
      assert SlotOk(grid, n, lists, d);
    }
  }

  lemma PushedListing(lists: Lists, k: SizeClass, b: Block)
    ensures Members(With(lists, k, [b] + At(lists, k))) == Members(lists) + iset{(b, k)}
  {
    var m := With(lists, k, [b] + At(lists, k));
    forall p: (Block, SizeClass)
      ensures p in Members(m) <==> p in Members(lists) || p == (b, k)
    {
      assert p in Members(m) <==> p.0 in At(m, p.1);
      assert p in Members(lists) <==> p.0 in At(lists, p.1);
    }
  }

  lemma UnlinkedListing(lists: Lists, k: SizeClass, i: nat)
    requires i < |At(lists, k)| && NoRepeats(At(lists, k))
    ensures Members(With(lists, k, Without(At(lists, k), i))) == Members(lists) - iset{(At(lists, k)[i], k)}
  {
    var m := With(lists, k, Without(At(lists, k), i));
    WithoutMembers(At(lists, k), i);
    forall p: (Block, SizeClass)
      ensures p in Members(m) <==> p in Members(lists) && p != (At(lists, k)[i], k)
    {
      assert p in Members(m) <==> p.0 in At(m, p.1);
      assert p in Members(lists) <==> p.0 in At(lists, p.1);
    }
  }

  // ---- searching ----

  /** The lowest set bit from i on, below n; n if there is none. */
  function Lowest(w: Mask, i: nat, n: nat): (r: nat)
    requires i <= n
    ensures i <= r <= n && (r < n ==> r in w) && forall j :: i <= j < r ==> j !in w
    decreases n - i
  {
    if i == n || i in w then i else Lowest(w, i + 1, n)
  }

  /** The highest set bit below n; n if there is none. */
  function Highest(w: Mask, n: nat): (r: nat)
    ensures r <= n && (r < n ==> r in w && forall j :: r < j < n ==> j !in w)
    ensures r == n ==> forall j :: 0 <= j < n ==> j !in w
  {
    if n == 0 then 0
    else if n - 1 in w then n - 1
    else
      var r := Highest(w, n - 1);
      if r == n - 1 then n else r
  }

  /** Every list from k's class up is empty. */
  ghost predicate NothingFrom(lists: Lists, n: nat, k: SizeClass) {
    forall d: SizeClass :: InGrid(d, n) && d.Rank() >= k.Rank() ==> At(lists, d) == []
  }

  /** d is the first class from k's up with anything in it. */
  ghost predicate FirstFrom(lists: Lists, n: nat, k: SizeClass, d: SizeClass) {
    && InGrid(d, n) && d.Rank() >= k.Rank() && At(lists, d) != []
    && forall c: SizeClass :: InGrid(c, n) && k.Rank() <= c.Rank() < d.Rank() ==> At(lists, c) == []
  }

  ghost predicate EmptyAt(lists: Lists, fl: nat, sl: nat) {
    At(lists, SizeClass(fl, sl)) == []
  }

  lemma RowEmpty(grid: Grid, n: nat, lists: Lists, fl: nat, lo: nat, hi: nat)
    requires Mirrors(grid, n, lists) && fl < n && hi <= SL_COUNT
    requires RowOk(grid, n, fl)
    requires forall j :: lo <= j < hi ==> j !in grid.slBitmap[fl]
    ensures forall sl: nat :: lo <= sl < hi ==> EmptyAt(lists, fl, sl)
  {
    forall sl: nat | lo <= sl < hi
      ensures EmptyAt(lists, fl, sl)
    {
      assert SlotOk(grid, n, lists, SizeClass(fl, sl));
    }
  }

  lemma RowsEmpty(grid: Grid, n: nat, lists: Lists, lo: nat, hi: nat)
    requires Mirrors(grid, n, lists) && hi <= n
    requires forall j :: lo <= j < hi ==> j !in grid.flBitmap
    ensures forall fl: nat, sl: nat :: lo <= fl < hi && sl < SL_COUNT ==> EmptyAt(lists, fl, sl)
  {
    forall fl: nat, sl: nat | lo <= fl < hi && sl < SL_COUNT
      ensures EmptyAt(lists, fl, sl)
    {
      assert RowOk(grid, n, fl);
      assert SlotOk(grid, n, lists, SizeClass(fl, sl));
    }
  }

  /** Where the search starting at class k ends: the first non-empty class, or none. */
  function Search(grid: Grid, n: nat, k: SizeClass): (r: (bool, SizeClass))
    requires |grid.slBitmap| == n && k.sl <= SL_COUNT
  {
    if k.fl >= n then (false, k)
    else
      var at := Lowest(grid.slBitmap[k.fl], k.sl, SL_COUNT);
      if at < SL_COUNT then (true, SizeClass(k.fl, at))
      else
        var up := Lowest(grid.flBitmap, k.fl + 1, n);
        if up == n then (false, k)
        else (true, SizeClass(up, Lowest(grid.slBitmap[up], 0, SL_COUNT)))
  }

  lemma SearchFinds(grid: Grid, n: nat, lists: Lists, k: SizeClass)
    requires Mirrors(grid, n, lists) && k.sl < SL_COUNT
    ensures var r := Search(grid, n, k);
            && (r.0 ==> FirstFrom(lists, n, k, r.1))
            && (!r.0 ==> NothingFrom(lists, n, k))
  {
    if k.fl < n {
      assert RowOk(grid, n, k.fl);
      var at := Lowest(grid.slBitmap[k.fl], k.sl, SL_COUNT);
      RowEmpty(grid, n, lists, k.fl, k.sl, at);
      if at < SL_COUNT {
        assert SlotOk(grid, n, lists, SizeClass(k.fl, at));
        forall c: SizeClass | InGrid(c, n) && k.Rank() <= c.Rank() < SizeClass(k.fl, at).Rank()
          ensures At(lists, c) == []
        {
          assert EmptyAt(lists, c.fl, c.sl);
        }
      } else {
        var up := Lowest(grid.flBitmap, k.fl + 1, n);
        RowsEmpty(grid, n, lists, k.fl + 1, up);
        SearchAbove(grid, n, lists, k, up);
      }
    }
  }

  /** The second half of the search: nothing left in k's own row. */
  lemma SearchAbove(grid: Grid, n: nat, lists: Lists, k: SizeClass, up: nat)
    requires Mirrors(grid, n, lists) && k.sl < SL_COUNT && k.fl < n && k.fl < up <= n
    requires forall sl: nat :: k.sl <= sl < SL_COUNT ==> EmptyAt(lists, k.fl, sl)
    requires forall fl: nat, sl: nat :: k.fl < fl < up && sl < SL_COUNT ==> EmptyAt(lists, fl, sl)
    requires up < n ==> up in grid.flBitmap
    ensures up == n ==> NothingFrom(lists, n, k)
    ensures up < n ==> FirstFrom(lists, n, k, SizeClass(up, Lowest(grid.slBitmap[up], 0, SL_COUNT)))
  {
    var top := if up < n then Lowest(grid.slBitmap[up], 0, SL_COUNT) else 0;
    if up < n {
      assert RowOk(grid, n, up);
      var x :| x in grid.slBitmap[up];
      assert SlotOk(grid, n, lists, SizeClass(up, top));
      RowEmpty(grid, n, lists, up, 0, top);
    }
    forall c: SizeClass | InGrid(c, n) && k.Rank() <= c.Rank() && (up < n ==> c.Rank() < SizeClass(up, top).Rank())
      ensures At(lists, c) == []
    {
      assert EmptyAt(lists, c.fl, c.sl);
    }
  }
}
