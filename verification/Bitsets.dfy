/** The transitive closure of the inferred edges as one packed bitset per node. */
module Bitsets {
  import opened Closure
  import opened Bits
  import opened Inference

  function WordsFor(n: nat): nat {
    (n + 63) / 64
  }

  /** A row is the fewest words of 64 bits that hold n bits. */
  lemma FewestWords(n: nat, w: nat)
    ensures n <= 64 * WordsFor(n)
    ensures n <= 64 * w ==> WordsFor(n) <= w
  {
  }

  /** Where row a starts: the product a * words, as a running sum. */
  function RowAt(words: nat, a: nat): nat {
    if a == 0 then 0 else RowAt(words, a - 1) + words
  }

  lemma {:induction false} RowAtProduct(words: nat, a: nat)
    ensures RowAt(words, a) == a * words
  {
    if a > 0 {
      RowAtProduct(words, a - 1);
    }
  }

  /** Rows do not overlap. */
  lemma {:induction false} RowsApart(words: nat, a: nat, b: nat)
    requires a < b
    ensures RowAt(words, a) + words <= RowAt(words, b)
  {
    if a < b - 1 {
      RowsApart(words, a, b - 1);
    }
  }

  ghost predicate Shaped(reach: seq<Word>, n: nat) {
    |reach| == RowAt(WordsFor(n), n)
  }

  /** Bit b of row a. */
  ghost predicate Marked(reach: seq<Word>, n: nat, a: nat, b: nat)
    requires a < n && b < n && Shaped(reach, n)
  {
    RowsApart(WordsFor(n), a, n);
    b % 64 in reach[RowAt(WordsFor(n), a) + b / 64]
  }

  /** Row i becomes itself, row `to`, and the bit of `to`. */
  method AbsorbRow(reach: array<Word>, n: nat, i: nat, to: nat)
    requires i < to < n && Shaped(reach[..], n)
    modifies reach
    ensures Absorbed(old(reach[..]), reach[..], n, i, to)
  {
    var words := WordsFor(n);
    RowsApart(words, i, to);
    RowsApart(words, to, n);
    RowAtProduct(words, i);
    RowAtProduct(words, to);
    ghost var was := reach[..];
    OrRow(reach, i * words, to * words, words, to / 64, Bit(to % 64));
    AbsorbedBits(was, reach[..], n, i, to);
  }

  /** Sets one bit of the row at `at`, then ors the row at `from` into it. */
  method OrRow(reach: array<Word>, at: nat, from: nat, words: nat, k: nat, bit: Word)
    requires k < words && at + words <= from && from + words <= reach.Length
    modifies reach
    ensures forall j :: 0 <= j < reach.Length ==> reach[j] == Mixed(old(reach[..]), at, from, words, k, bit, j)
  {
    ghost var was := reach[..];
    reach[at + k] := reach[at + k] + bit;
    for w := 0 to words
      invariant forall j :: 0 <= j < reach.Length ==> reach[j] == Mixed(was, at, from, w, k, bit, j)
    {
      reach[at + w] := reach[at + w] + reach[from + w];
    }
  }

  /** Word j once the bit is set and the first w words of the row are or-ed. */
  function Mixed(was: seq<Word>, at: nat, from: nat, w: nat, k: nat, bit: Word, j: nat): Word
    requires j < |was| && at + w <= from && from + w <= |was|
  {
    var x := if j == at + k then was[j] + bit else was[j];
    if at <= j < at + w then x + was[from + (j - at)] else x
  }

  ghost predicate Absorbed(was: seq<Word>, now: seq<Word>, n: nat, i: nat, to: nat)
    requires i < n && to < n && Shaped(was, n)
  {
    && Shaped(now, n)
    && (forall b: nat :: b < n ==>
          (Marked(now, n, i, b) <==> Marked(was, n, i, b) || b == to || Marked(was, n, to, b)))
    && (forall a: nat, b: nat :: a < n && b < n && a != i ==> (Marked(now, n, a, b) <==> Marked(was, n, a, b)))
  }

  /** Every word of the matrix is what the row operation made of it. */
  ghost predicate RowMixed(was: seq<Word>, now: seq<Word>, n: nat, i: nat, to: nat)
    requires i < to < n && Shaped(was, n)
  {
    && |now| == |was|
    && RowAt(WordsFor(n), i) + WordsFor(n) <= RowAt(WordsFor(n), to)
    && RowAt(WordsFor(n), to) + WordsFor(n) <= |was|
    && forall j :: 0 <= j < |now| ==>
         now[j] == Mixed(was, RowAt(WordsFor(n), i), RowAt(WordsFor(n), to), WordsFor(n), to / 64, Bit(to % 64), j)
  }

  lemma AbsorbedBits(was: seq<Word>, now: seq<Word>, n: nat, i: nat, to: nat)
    requires i < to < n && Shaped(was, n) && RowMixed(was, now, n, i, to)
    ensures Absorbed(was, now, n, i, to)
  {
    forall b: nat | b < n
      ensures Marked(now, n, i, b) <==> Marked(was, n, i, b) || b == to || Marked(was, n, to, b)
    {
      AbsorbedOwn(was, now, n, i, to, b);
    }
    forall a: nat, b: nat | a < n && b < n && a != i
      ensures Marked(now, n, a, b) <==> Marked(was, n, a, b)
    {
      AbsorbedOther(was, now, n, i, to, a, b);
    }
  }

  lemma AbsorbedOwn(was: seq<Word>, now: seq<Word>, n: nat, i: nat, to: nat, b: nat)
    requires i < to < n && b < n && Shaped(was, n) && RowMixed(was, now, n, i, to)
    ensures Marked(now, n, i, b) <==> Marked(was, n, i, b) || b == to || Marked(was, n, to, b)
  {
    var at, k := RowAt(WordsFor(n), i), b / 64;
    var x, y := was[at + k], was[RowAt(WordsFor(n), to) + k];
    assert now[at + k] == (if k == to / 64 then x + Bit(to % 64) else x) + y;
    assert b == to <==> k == to / 64 && b % 64 == to % 64;
  }

  lemma AbsorbedOther(was: seq<Word>, now: seq<Word>, n: nat, i: nat, to: nat, a: nat, b: nat)
    requires i < to < n && a < n && b < n && a != i && Shaped(was, n) && RowMixed(was, now, n, i, to)
    ensures Marked(now, n, a, b) <==> Marked(was, n, a, b)
  {
    RowsApart(WordsFor(n), a, n);
    if a < i {
      RowsApart(WordsFor(n), a, i);
    } else {
      RowsApart(WordsFor(n), i, a);
    }
    assert now[RowAt(WordsFor(n), a) + b / 64] == was[RowAt(WordsFor(n), a) + b / 64];
  }

  ghost predicate ReachVia(e: Rel, ms: seq<nat>, b: nat) {
    exists m :: m in ms && (m == b || Reach(e, m, b))
  }

  lemma ReachViaSuccessors(succ: seq<seq<nat>>, i: nat, b: nat)
    requires i < |succ| && forall m :: m in succ[i] ==> i < m
    ensures ReachVia(Edges(succ), succ[i], b) <==> Reach(Edges(succ), i, b)
  {
    var e := Edges(succ);
    if Reach(e, i, b) {
      var m := ReachFirst(e, i, b);
    }
    if ReachVia(e, succ[i], b) {
      var m :| m in succ[i] && (m == b || Reach(e, m, b));
      assert (i, m) in e;
    }
  }

  ghost predicate Forwards(succ: seq<seq<nat>>) {
    forall a, b :: 0 <= a < |succ| && b in succ[a] ==> a < b < |succ|
  }

  /** The rows from position i on hold the closure. */
  ghost predicate ClosedFrom(reach: seq<Word>, succ: seq<seq<nat>>, i: nat) {
    && Shaped(reach, |succ|)
    && (forall a: nat, b: nat :: i <= a < |succ| && b < |succ| ==>
          (Marked(reach, |succ|, a, b) <==> Reach(Edges(succ), a, b)))
    && (forall a: nat, b: nat :: a < i && a < |succ| && b < |succ| ==> !Marked(reach, |succ|, a, b))
  }

  /** One pass backwards over record order computes the strict closure. */
  method Reachability(succ: seq<seq<nat>>) returns (reach: array<Word>)
    requires Forwards(succ)
    ensures ClosedFrom(reach[..], succ, 0) && fresh(reach)
  {
    var n := |succ|;
    RowAtProduct(WordsFor(n), n);
    reach := new Word[n * WordsFor(n)](_ => {});
    Blank(reach[..], succ);
    for i := n downto 0
      invariant fresh(reach) && ClosedFrom(reach[..], succ, i)
    {
      FillRow(succ, reach, i);
    }
  }

  lemma Blank(reach: seq<Word>, succ: seq<seq<nat>>)
    requires Shaped(reach, |succ|) && forall j :: 0 <= j < |reach| ==> reach[j] == {}
    ensures ClosedFrom(reach, succ, |succ|)
  {
    forall a: nat, b: nat | a < |succ| && b < |succ|
      ensures !Marked(reach, |succ|, a, b)
    {
      RowsApart(WordsFor(|succ|), a, |succ|);
    }
  }

  /** Row i is marked by the first t successors; the rows below it are closed, those above blank. */
  ghost predicate Filling(reach: seq<Word>, succ: seq<seq<nat>>, i: nat, t: nat)
    requires i < |succ| && t <= |succ[i]|
  {
    && Shaped(reach, |succ|)
    && (forall a: nat, b: nat :: i < a < |succ| && b < |succ| ==>
          (Marked(reach, |succ|, a, b) <==> Reach(Edges(succ), a, b)))
    && (forall b: nat :: b < |succ| ==> (Marked(reach, |succ|, i, b) <==> ReachVia(Edges(succ), succ[i][..t], b)))
    && (forall a: nat, b: nat :: a < i && b < |succ| ==> !Marked(reach, |succ|, a, b))
  }

  lemma FillingStep(was: seq<Word>, now: seq<Word>, succ: seq<seq<nat>>, i: nat, t: nat)
    requires Forwards(succ) && i < |succ| && t < |succ[i]| && Filling(was, succ, i, t)
    requires i < succ[i][t] < |succ| && Absorbed(was, now, |succ|, i, succ[i][t])
    ensures Filling(now, succ, i, t + 1)
  {
    var to, e := succ[i][t], Edges(succ);
    forall b: nat | b < |succ|
      ensures ReachVia(e, succ[i][..t + 1], b) <==> ReachVia(e, succ[i][..t], b) || b == to || Reach(e, to, b)
    {
      assert succ[i][..t + 1] == succ[i][..t] + [to];
      if ReachVia(e, succ[i][..t], b) {
        var m :| m in succ[i][..t] && (m == b || Reach(e, m, b));
        assert m in succ[i][..t + 1];
      }
      assert to in succ[i][..t + 1];
    }
  }

  method FillRow(succ: seq<seq<nat>>, reach: array<Word>, i: nat)
    requires Forwards(succ) && i < |succ| && ClosedFrom(reach[..], succ, i + 1)
    modifies reach
    ensures ClosedFrom(reach[..], succ, i)
  {
    for t := 0 to |succ[i]|
      invariant Filling(reach[..], succ, i, t)
    {
      ghost var was := reach[..];
      assert succ[i][t] in succ[i];
      AbsorbRow(reach, |succ|, i, succ[i][t]);
      FillingStep(was, reach[..], succ, i, t);
    }
    assert succ[i][..|succ[i]|] == succ[i];
    forall b: nat | b < |succ| {
      ReachViaSuccessors(succ, i, b);
    }
  }

  /** Whether b must run after a, read from the packed rows. */
  predicate Reaches(reach: array<Word>, n: nat, a: nat, b: nat)
    requires a < n && b < n && Shaped(reach[..], n)
    reads reach
    ensures Reaches(reach, n, a, b) <==> Marked(reach[..], n, a, b)
  {
    RowsApart(WordsFor(n), a, n);
    RowAtProduct(WordsFor(n), a);
    b % 64 in reach[a * WordsFor(n) + b / 64]
  }
}
