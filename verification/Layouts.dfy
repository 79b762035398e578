/** The physical block list of a pool, and what replacing a stretch of it keeps. */
module Layouts {
  import opened Cells

  /** The physical block list of a pool of `usable` bytes. */
  ghost predicate Layout(s: seq<Cell>, usable: nat, g: nat) {
    s != [] && Tiles(s, 0, g) && EndOf(s, 0) == usable && DistinctBlocks(s)
  }

  lemma Cut(s: seq<Cell>, i: nat, n: nat)
    requires i + n <= |s|
    ensures s == s[..i] + s[i..i + n] + s[i + n..]
  {
  }

  lemma ReplaceTotals(a: seq<Cell>, was: seq<Cell>, mid: seq<Cell>, b: seq<Cell>)
    ensures Used(a + mid + b) + Used(was) == Used(a + was + b) + Used(mid)
    ensures Live(a + mid + b) + Live(was) == Live(a + was + b) + Live(mid)
  {
    UsedConcat(a + was, b);
    UsedConcat(a, was);
    UsedConcat(a + mid, b);
    UsedConcat(a, mid);
    LiveConcat(a + was, b);
    LiveConcat(a, was);
    LiveConcat(a + mid, b);
    LiveConcat(a, mid);
  }

  lemma ReplaceTiles(a: seq<Cell>, was: seq<Cell>, mid: seq<Cell>, b: seq<Cell>, g: nat)
    requires Tiles(a + was + b, 0, g) && Tiles(mid, EndOf(a, 0), g)
    requires EndOf(mid, EndOf(a, 0)) == EndOf(was, EndOf(a, 0))
    ensures Tiles(a + mid + b, 0, g) && EndOf(a + mid + b, 0) == EndOf(a + was + b, 0)
  {
    TilesSplit(a + was, b, 0, g);
    TilesSplit(a, was, 0, g);
    TilesJoin(a, mid, 0, g);
    TilesJoin(a + mid, b, 0, g);
  }

  lemma ReplaceDistinct(a: seq<Cell>, was: seq<Cell>, mid: seq<Cell>, b: seq<Cell>)
    requires DistinctBlocks(a + was + b) && DistinctBlocks(mid)
    requires BlocksOf(mid) !! BlocksOf(a) && BlocksOf(mid) !! BlocksOf(b)
    ensures DistinctBlocks(a + mid + b)
  {
    DistinctConcat(a + was, b);
    DistinctConcat(a, was);
    DistinctConcat(a + mid, b);
    DistinctConcat(a, mid);
    BlocksConcat(a, mid);
    BlocksConcat(a, was);
  }

  /** Replacing n cells from i on by others over the same bytes, on blocks the rest does not use. */
  lemma Replace(s: seq<Cell>, i: nat, n: nat, mid: seq<Cell>, usable: nat, g: nat)
    requires Layout(s, usable, g) && i + n <= |s| && n > 0 && mid != []
    requires Tiles(mid, s[i].offset, g) && EndOf(mid, 0) == s[i + n - 1].End()
    requires DistinctBlocks(mid) && BlocksOf(mid) !! BlocksOf(s[..i]) && BlocksOf(mid) !! BlocksOf(s[i + n..])
    ensures var t := s[..i] + mid + s[i + n..];
            && Layout(t, usable, g)
            && Used(t) + Used(s[i..i + n]) == Used(s) + Used(mid)
            && Live(t) + Live(s[i..i + n]) == Live(s) + Live(mid)
  {
    Cut(s, i, n);
    assert TileAt(s, 0, g, i);
    ReplaceTotals(s[..i], s[i..i + n], mid, s[i + n..]);
    ReplaceTiles(s[..i], s[i..i + n], mid, s[i + n..], g);
    ReplaceDistinct(s[..i], s[i..i + n], mid, s[i + n..]);
  }
}
