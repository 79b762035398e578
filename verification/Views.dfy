/** Operators that only relabel coordinates. What each operator's result reads of its operand, and why
    no chain of them ever reads outside the base it started from. */
module Views {
  import opened Broadcasts
  import opened Options
  import opened Shapes

  /** The storage element a view reads at coordinate c. */
  ghost function Addr(v: View, c: seq<nat>): nat
    requires v.Ok() && |c| == |v.shape|
  {
    v.offset + Dot(c, v.strides)
  }

  /** Whatever r reads, x reads at some coordinate. */
  ghost predicate Selects(x: View, r: View)
    requires x.Ok() && r.Ok()
  {
    forall c :: Within(c, r.shape) ==> SelectsAt(x, r, c)
  }

  ghost predicate SelectsAt(x: View, r: View, c: seq<nat>)
    requires x.Ok() && r.Ok() && |c| == |r.shape|
  {
    exists d :: Within(d, x.shape) && Addr(x, d) == Addr(r, c)
  }

  /** A view reads only the first n elements of its storage. */
  ghost predicate InBounds(v: View, n: nat)
    requires v.Ok()
  {
    forall c :: Within(c, v.shape) ==> Addr(v, c) < n
  }

  /** A whole tensor: packed, from the start of its storage. */
  function Whole(s: Shape): View {
    View(s, Packed(s), 0)
  }

  lemma WholeInBounds(s: Shape)
    ensures InBounds(Whole(s), Elements(s))
  {
    forall c | Within(c, s)
      ensures Addr(Whole(s), c) < Elements(s)
    {
      PackedIsLinear(s, c);
      LinearBelow(s, c);
    }
  }

  ghost predicate Chain(vs: seq<View>) {
    && (forall i :: 0 <= i < |vs| ==> vs[i].Ok())
    && (forall i: nat :: i + 1 < |vs| ==> LinkSelects(vs, i))
  }

  ghost predicate LinkSelects(vs: seq<View>, i: nat)
    requires i + 1 < |vs| && vs[i].Ok() && vs[i + 1].Ok()
  {
    Selects(vs[i], vs[i + 1])
  }

  /** No chain of view operators, however long, addresses outside the tensor it starts from. */
  lemma {:induction false} ChainInBounds(base: Shape, vs: seq<View>, i: nat)
    requires Chain(vs) && i < |vs| && vs[0] == Whole(base)
    ensures InBounds(vs[i], Elements(base))
  {
    if i == 0 {
      WholeInBounds(base);
    } else {
      ChainInBounds(base, vs, i - 1);
      assert LinkSelects(vs, i - 1);
      forall c | Within(c, vs[i].shape)
        ensures Addr(vs[i], c) < Elements(base)
      {
        assert SelectsAt(vs[i - 1], vs[i], c);
      }
    }
  }

  // ---- reshape ----

  /** Densely packed from the start. */
  ghost predicate Contiguously(v: View) {
    v.offset == 0 && v.strides == Packed(v.shape)
  }

  method ContiguousLayout(v: View) returns (yes: bool)
    requires v.Ok()
    ensures yes <==> Contiguously(v)
  {
    var want := Contiguous(v.shape);
    if v.offset != 0 || |want| != |v.strides| {
      return false;
    }
    for i := 0 to |want|
      invariant forall j :: 0 <= j < i ==> want[j] == v.strides[j]
    {
      if want[i] != v.strides[i] {
        return false;
      }
    }
    return true;
  }

  lemma ContiguousAddr(v: View, c: seq<nat>)
    requires v.Ok() && Contiguously(v) && |c| == |v.shape|
    ensures Addr(v, c) == Linear(v.shape, c)
  {
    PackedIsLinear(v.shape, c);
  }

  ghost predicate PositiveInts(shape: seq<int>) {
    forall i :: 0 <= i < |shape| ==> shape[i] > 0
  }

  ghost function Nats(shape: seq<int>): Shape {
    seq(|shape|, i requires 0 <= i < |shape| => if shape[i] >= 0 then shape[i] else 0)
  }

  /** Reinterprets the extent of a contiguous view. */
  method Reshape(x: View, shape: seq<int>) returns (r: Option<View>)
    requires x.Ok()
    ensures r.Some? <==> PositiveInts(shape) && Elements(Nats(shape)) == Elements(x.shape) && Contiguously(x)
    ensures r.Some? ==> r.value.Ok() && r.value.shape == Nats(shape) && Contiguously(r.value) && Selects(x, r.value)
    ensures r.Some? ==>
              forall c, d :: Within(c, r.value.shape) && Within(d, x.shape) &&
                             Linear(r.value.shape, c) == Linear(x.shape, d)
                ==> Addr(r.value, c) == Addr(x, d)
  {
    var s: Shape := [];
    for i := 0 to |shape|
      invariant forall j :: 0 <= j < i ==> shape[j] > 0
      invariant |s| == i && forall j :: 0 <= j < i ==> s[j] == shape[j]
    {
      if shape[i] <= 0 {
        return None;
      }
      s := s + [shape[i]];
    }
    assert s == Nats(shape);
    var got := Count(s);
    var want := Count(x.shape);
    if got != want {
      return None;
    }
    var contiguous := ContiguousLayout(x);
    if !contiguous {
      return None;
    }
    var strides := Contiguous(s);
    r := Some(View(s, strides, x.offset));
    ReshapeReads(x, s);
  }

  lemma ReshapeReads(x: View, s: Shape)
    requires x.Ok() && Contiguously(x) && Elements(s) == Elements(x.shape)
    ensures Selects(x, Whole(s))
    ensures forall c, d :: Within(c, s) && Within(d, x.shape) && Linear(s, c) == Linear(x.shape, d)
              ==> Addr(Whole(s), c) == Addr(x, d)
  {
    forall c | Within(c, s)
      ensures SelectsAt(x, Whole(s), c) && Addr(Whole(s), c) == Linear(s, c)
    {
      ContiguousAddr(Whole(s), c);
      LinearBelow(s, c);
      var d := Coord(x.shape, Linear(s, c));
      ContiguousAddr(x, d);
    }
    forall d | Within(d, x.shape)
      ensures Addr(x, d) == Linear(x.shape, d)
    {
      ContiguousAddr(x, d);
    }
  }

  // ---- permute ----

  function NormalizeAxis(axis: int, rank: nat): (r: Option<nat>)
    ensures r.Some? <==> 0 - rank <= axis < rank
    ensures r.Some? ==> r.value < rank && (r.value == axis || r.value == axis + rank)
  {
    var a := if axis < 0 then axis + rank else axis;
    if a < 0 || a >= rank then None else Some(a)
  }

  /** Each axis named exactly once. */
  ghost predicate Permutes(norm: seq<nat>, rank: nat) {
    && |norm| == rank && (forall i :: 0 <= i < rank ==> norm[i] < rank)
    && (forall i, j :: 0 <= i < j < rank ==> norm[i] != norm[j])
  }

  ghost predicate ValidAxes(axes: seq<int>, rank: nat) {
    && |axes| == rank && (forall i :: 0 <= i < rank ==> NormalizeAxis(axes[i], rank).Some?)
    && Permutes(Normalized(axes, rank), rank)
  }

  ghost function Normalized(axes: seq<int>, rank: nat): seq<nat> {
    seq(|axes|, i requires 0 <= i < |axes| => var n := NormalizeAxis(axes[i], rank); if n.Some? then n.value else 0)
  }

  /** Coordinate d of the operand is coordinate c of the result with its axes put back. */
  ghost predicate Unpermuted(norm: seq<nat>, c: seq<nat>, d: seq<nat>) {
    |c| == |d| == |norm| && forall i :: 0 <= i < |norm| ==> norm[i] < |d| && d[norm[i]] == c[i]
  }

  ghost function PermutedView(x: View, norm: seq<nat>): View
    requires x.Ok() && Permutes(norm, |x.shape|)
  {
    View(seq(|norm|, i requires 0 <= i < |norm| => x.shape[norm[i]]),
         seq(|norm|, i requires 0 <= i < |norm| => x.strides[norm[i]]), x.offset)
  }

  /** The axes of a permutation, each in range and none twice; nothing otherwise. */
  method NormalizeAxes(axes: seq<int>, rank: nat) returns (r: Option<seq<nat>>)
    ensures r.Some? <==> ValidAxes(axes, rank)
    ensures r.Some? ==> r.value == Normalized(axes, rank)
  {
    if |axes| != rank {
      return None;
    }
    var seen := seq(rank, _ => false);
    var norm: seq<nat> := [];
    ghost var all := Normalized(axes, rank);
    for i := 0 to |axes|
      invariant |seen| == rank && |norm| == i && norm == all[..i]
      invariant forall j :: 0 <= j < i ==> NormalizeAxis(axes[j], rank).Some? && norm[j] < rank
      invariant forall j, k :: 0 <= j < k < i ==> norm[j] != norm[k]
      invariant forall a :: 0 <= a < rank ==> (seen[a] <==> a in norm)
    {
      var n := NormalizeAxis(axes[i], rank);
      if n.None? {
        return None;
      }
      if seen[n.value] {
        var j :| 0 <= j < i && norm[j] == n.value;
        assert all[j] == all[i];
        return None;
      }
      seen := seen[n.value := true];
      norm := norm + [n.value];
    }
    r := Some(norm);
  }

  /** Axis k of the result is axis axes[k] of x, over the same elements. */
  method Permute(x: View, axes: seq<int>) returns (r: Option<View>)
    requires x.Ok()
    ensures r.Some? <==> ValidAxes(axes, |x.shape|)
    ensures r.Some? ==> r.value == PermutedView(x, Normalized(axes, |x.shape|)) && Selects(x, r.value)
    ensures r.Some? ==>
              forall c, d :: Within(c, r.value.shape) && Unpermuted(Normalized(axes, |x.shape|), c, d)
                ==> Within(d, x.shape) && Addr(r.value, c) == Addr(x, d)
  {
    var n := NormalizeAxes(axes, |x.shape|);
    if n.None? {
      return None;
    }
    var norm := n.value;
    var shape, strides := [], [];
    for i := 0 to |x.shape|
      invariant |shape| == i == |strides|
      invariant forall j :: 0 <= j < i ==> shape[j] == x.shape[norm[j]] && strides[j] == x.strides[norm[j]]
    {
      shape, strides := shape + [x.shape[norm[i]]], strides + [x.strides[norm[i]]];
    }
    r := Some(View(shape, strides, x.offset));
    assert r.value == PermutedView(x, norm);
    PermuteReads(x, norm);
  }

  ghost function Zeros(n: nat): seq<nat> {
    seq(n, _ => 0)
  }

  /** The first n entries of c, each at the axis it came from. */
  ghost function PutBack(c: seq<nat>, norm: seq<nat>, rank: nat, n: nat): (d: seq<nat>)
    requires n <= |c| == |norm| && forall i :: 0 <= i < |norm| ==> norm[i] < rank
    ensures |d| == rank
  {
    if n == 0 then Zeros(rank) else PutBack(c, norm, rank, n - 1)[norm[n - 1] := c[n - 1]]
  }

  lemma {:induction false} PutBackAt(c: seq<nat>, norm: seq<nat>, rank: nat, n: nat)
    requires Permutes(norm, rank) && |c| == rank && n <= rank
    ensures forall i :: 0 <= i < n ==> PutBack(c, norm, rank, n)[norm[i]] == c[i]
    ensures forall a :: 0 <= a < rank && a !in norm[..n] ==> PutBack(c, norm, rank, n)[a] == 0
  {
    if n > 0 {
      PutBackAt(c, norm, rank, n - 1);
      assert norm[..n] == norm[..n - 1] + [norm[n - 1]];
    }
  }

  lemma {:induction false} DotZeros(n: nat, st: seq<nat>)
    requires |st| == n
    ensures Dot(Zeros(n), st) == 0
  {
    if n > 0 {
      assert Zeros(n)[1..] == Zeros(n - 1);
      DotZeros(n - 1, st[1..]);
    }
  }

  lemma {:induction false} DotUpdate(d: seq<nat>, st: seq<nat>, a: nat, v: nat)
    requires |d| == |st| && a < |d| && d[a] == 0
    ensures Dot(d[a := v], st) == Dot(d, st) + v * st[a]
  {
    if a == 0 {
      assert d[a := v][1..] == d[1..];
    } else {
      assert d[a := v][1..] == d[1..][a - 1 := v];
      DotUpdate(d[1..], st[1..], a - 1, v);
    }
  }

  lemma {:induction false} DotSnoc(c: seq<nat>, st: seq<nat>)
    requires |c| == |st| > 0
    ensures var n := |c| - 1; Dot(c, st) == Dot(c[..n], st[..n]) + c[n] * st[n]
  {
    var n := |c| - 1;
    if n > 0 {
      DotSnoc(c[1..], st[1..]);
      assert c[1..][..n - 1] == c[..n][1..] && st[1..][..n - 1] == st[..n][1..];
    }
  }

  lemma {:induction false} PutBackDot(c: seq<nat>, norm: seq<nat>, st: seq<nat>, st': seq<nat>, n: nat)
    requires Permutes(norm, |st|) && |c| == |st| == |st'| && n <= |c|
    requires forall i :: 0 <= i < |norm| ==> st'[i] == st[norm[i]]
    ensures Dot(c[..n], st'[..n]) == Dot(PutBack(c, norm, |st|, n), st)
  {
    if n == 0 {
      DotZeros(|st|, st);
    } else {
      PutBackDot(c, norm, st, st', n - 1);
      DotTake(c, st', n);
      PutBackNext(c, norm, st, n);
    }
  }

  lemma DotTake(c: seq<nat>, st: seq<nat>, n: nat)
    requires 0 < n <= |c| == |st|
    ensures Dot(c[..n], st[..n]) == Dot(c[..n - 1], st[..n - 1]) + c[n - 1] * st[n - 1]
  {
    DotSnoc(c[..n], st[..n]);
    assert c[..n][..n - 1] == c[..n - 1] && st[..n][..n - 1] == st[..n - 1];
  }

  lemma PutBackNext(c: seq<nat>, norm: seq<nat>, st: seq<nat>, n: nat)
    requires Permutes(norm, |st|) && |c| == |st| && 0 < n <= |c|
    ensures Dot(PutBack(c, norm, |st|, n), st) == Dot(PutBack(c, norm, |st|, n - 1), st) + c[n - 1] * st[norm[n - 1]]
  {
    PutBackAt(c, norm, |st|, n - 1);
    assert norm[n - 1] !in norm[..n - 1];
    DotUpdate(PutBack(c, norm, |st|, n - 1), st, norm[n - 1], c[n - 1]);
  }

  ghost function Below(n: nat): set<nat> {
    if n == 0 then {} else Below(n - 1) + {n - 1}
  }

  lemma {:induction false} BelowSize(n: nat)
    ensures |Below(n)| == n && forall i: nat :: i in Below(n) <==> i < n
  {
    if n > 0 {
      BelowSize(n - 1);
    }
  }

  lemma SameSize(s: set<nat>, t: set<nat>)
    requires s <= t && |s| == |t|
    ensures s == t
  {
    assert t == s + (t - s);
  }

  lemma {:induction false} DistinctSize(norm: seq<nat>, n: nat)
    requires n <= |norm| && forall i, j :: 0 <= i < j < |norm| ==> norm[i] != norm[j]
    ensures |set i | 0 <= i < n :: norm[i]| == n
  {
    var s := set i | 0 <= i < n :: norm[i];
    if n > 0 {
      DistinctSize(norm, n - 1);
      var was := set i | 0 <= i < n - 1 :: norm[i];
      assert s == was + {norm[n - 1]};
    } else {
      assert s == {};
    }
  }

  /** A permutation names every axis. */
  lemma PermutesOnto(norm: seq<nat>, rank: nat, a: nat) returns (i: nat)
    requires Permutes(norm, rank) && a < rank
    ensures i < rank && norm[i] == a
  {
    var s := set i | 0 <= i < rank :: norm[i];
    DistinctSize(norm, rank);
    BelowSize(rank);
    SameSize(s, Below(rank));
    assert a in Below(rank) && a in s;
    i :| 0 <= i < rank && norm[i] == a;
  }

  lemma PermuteReadsAt(x: View, norm: seq<nat>, c: seq<nat>) returns (d: seq<nat>)
    requires x.Ok() && Permutes(norm, |x.shape|) && Within(c, PermutedView(x, norm).shape)
    ensures Within(d, x.shape) && Addr(PermutedView(x, norm), c) == Addr(x, d) && Unpermuted(norm, c, d)
  {
    var r := PermutedView(x, norm);
    var rank := |x.shape|;
    d := PutBack(c, norm, rank, rank);
    PutBackAt(c, norm, rank, rank);
    PutBackDot(c, norm, x.strides, r.strides, rank);
    assert c[..rank] == c && r.strides[..rank] == r.strides;
    forall a | 0 <= a < rank
      ensures d[a] < x.shape[a]
    {
      var i := PermutesOnto(norm, rank, a);
    }
  }

  lemma UnpermutedOnce(norm: seq<nat>, rank: nat, c: seq<nat>, d: seq<nat>, d': seq<nat>)
    requires Permutes(norm, rank) && Unpermuted(norm, c, d) && Unpermuted(norm, c, d')
    ensures d == d'
  {
    forall a | 0 <= a < rank
      ensures d'[a] == d[a]
    {
      var i := PermutesOnto(norm, rank, a);
    }
  }

  lemma PermuteReads(x: View, norm: seq<nat>)
    requires x.Ok() && Permutes(norm, |x.shape|)
    ensures Selects(x, PermutedView(x, norm))
    ensures forall c, d :: Within(c, PermutedView(x, norm).shape) && Unpermuted(norm, c, d)
              ==> Within(d, x.shape) && Addr(PermutedView(x, norm), c) == Addr(x, d)
  {
    var r := PermutedView(x, norm);
    forall c | Within(c, r.shape)
      ensures SelectsAt(x, r, c)
    {
      var d := PermuteReadsAt(x, norm, c);
    }
    forall c, d | Within(c, r.shape) && Unpermuted(norm, c, d)
      ensures Within(d, x.shape) && Addr(r, c) == Addr(x, d)
    {
      var d' := PermuteReadsAt(x, norm, c);
      UnpermutedOnce(norm, |x.shape|, c, d, d');
    }
  }

  /** Swaps two axes. */
  method Transpose(x: View, axisA: int, axisB: int) returns (r: Option<View>)
    requires x.Ok()
    ensures r.Some? <==> NormalizeAxis(axisA, |x.shape|).Some? && NormalizeAxis(axisB, |x.shape|).Some?
    ensures r.Some? ==>
              var a, b := NormalizeAxis(axisA, |x.shape|).value, NormalizeAxis(axisB, |x.shape|).value;
              && r.value.Ok() && |r.value.shape| == |x.shape| && Selects(x, r.value)
              && r.value.shape == x.shape[a := x.shape[b]][b := x.shape[a]]
              && forall c :: Within(c, r.value.shape) ==> Addr(r.value, c) == Addr(x, c[a := c[b]][b := c[a]])
  {
    var rank := |x.shape|;
    var i := NormalizeAxis(axisA, rank);
    if i.None? {
      return None;
    }
    var j := NormalizeAxis(axisB, rank);
    if j.None? {
      return None;
    }
    var axes := SwappedAxes(rank, i.value, j.value);
    r := Permute(x, axes);
    TransposeAxes(axes, i.value, j.value, rank);
    forall c | Within(c, r.value.shape)
      ensures Addr(r.value, c) == Addr(x, c[i.value := c[j.value]][j.value := c[i.value]])
    {
      assert Unpermuted(Normalized(axes, rank), c, c[i.value := c[j.value]][j.value := c[i.value]]);
    }
  }

  /** The axes in order, but for i and j, which change places. */
  method SwappedAxes(rank: nat, i: nat, j: nat) returns (axes: seq<int>)
    requires i < rank && j < rank
    ensures |axes| == rank
    ensures forall m :: 0 <= m < rank ==> axes[m] == (if m == j then i else if m == i then j else m)
  {
    axes := [];
    for k := 0 to rank
      invariant |axes| == k && forall m :: 0 <= m < k ==> axes[m] == m
    {
      axes := axes + [k];
    }
    axes := axes[i := j][j := i];
  }

  lemma TransposeAxes(axes: seq<int>, i: nat, j: nat, rank: nat)
    requires |axes| == rank && i < rank && j < rank
    requires forall m :: 0 <= m < rank ==> axes[m] == (if m == j then i else if m == i then j else m)
    ensures ValidAxes(axes, rank) && forall m :: 0 <= m < rank ==> Normalized(axes, rank)[m] == axes[m]
  {
  }

  // ---- slice ----

  /** Coordinate c of r is the coordinate of x that lies `start` further along axis a. */
  ghost predicate ReadsShifted(x: View, r: View, a: nat, start: nat, c: seq<nat>)
    requires x.Ok() && r.Ok() && |x.shape| == |r.shape| == |c| && a < |c|
  {
    Within(c[a := c[a] + start], x.shape) && Addr(r, c) == Addr(x, c[a := c[a] + start])
  }

  /** Coordinate c of the axis is coordinate c + start of x; the other axes keep theirs. */
  method Slice(x: View, axis: int, start: int, end: int) returns (r: Option<View>)
    requires x.Ok()
    ensures r.Some? <==>
              var a := NormalizeAxis(axis, |x.shape|); a.Some? && 0 <= start <= end <= x.shape[a.value]
    ensures r.Some? ==>
              var a := NormalizeAxis(axis, |x.shape|).value;
              && r.value.Ok() && r.value.shape == x.shape[a := end - start] && Selects(x, r.value)
              && forall c :: Within(c, r.value.shape) ==> ReadsShifted(x, r.value, a, start, c)
  {
    var a := NormalizeAxis(axis, |x.shape|);
    if a.None? {
      return None;
    }
    if start < 0 || end < start || end > x.shape[a.value] {
      return None;
    }
    r := Some(SliceView(x, a.value, start, end));
    SliceSelects(x, a.value, start, end);
  }

  function SliceView(x: View, a: nat, start: nat, end: nat): View
    requires x.Ok() && a < |x.shape| && start <= end
  {
    View(x.shape[a := end - start], x.strides, x.offset + start * x.strides[a])
  }

  lemma SliceSelects(x: View, a: nat, start: nat, end: nat)
    requires x.Ok() && a < |x.shape| && start <= end <= x.shape[a]
    ensures var r := SliceView(x, a, start, end);
            Selects(x, r) && forall c :: Within(c, r.shape) ==> ReadsShifted(x, r, a, start, c)
  {
    var r := SliceView(x, a, start, end);
    forall c | Within(c, r.shape)
      ensures ReadsShifted(x, r, a, start, c)
    {
      SliceReads(x, r, a, start, end, c);
    }
  }

  lemma SliceReads(x: View, r: View, a: nat, start: nat, end: nat, c: seq<nat>)
    requires x.Ok() && a < |x.shape| && start <= end <= x.shape[a]
    requires r == View(x.shape[a := end - start], x.strides, x.offset + start * x.strides[a]) && Within(c, r.shape)
    ensures Within(c[a := c[a] + start], x.shape) && Addr(r, c) == Addr(x, c[a := c[a] + start])
  {
    DotShift(c, x.strides, a, start);
  }

  lemma {:induction false} DotShift(c: seq<nat>, st: seq<nat>, a: nat, step: nat)
    requires |c| == |st| && a < |c|
    ensures Dot(c[a := c[a] + step], st) == Dot(c, st) + step * st[a]
  {
    var d := c[a := c[a] + step];
    if a == 0 {
      assert d[1..] == c[1..];
      assert (c[0] + step) * st[0] == c[0] * st[0] + step * st[0];
    } else {
      assert d[1..] == c[1..][a - 1 := c[1..][a - 1] + step];
      DotShift(c[1..], st[1..], a - 1, step);
    }
  }

  // ---- broadcast ----

  /** Size-one axes, and axes the operand lacks, may take any extent. */
  ghost predicate Broadcastable(x: View, shape: seq<int>) {
    && |x.shape| <= |shape|
    && forall i :: 0 <= i < |shape| ==> AxisBroadcastable(x, shape, i)
  }

  ghost predicate AxisBroadcastable(x: View, shape: seq<int>, i: nat)
    requires |x.shape| <= |shape| && i < |shape|
  {
    var off := |shape| - |x.shape|;
    shape[i] >= 0 && (i < off || x.shape[i - off] == shape[i] || x.shape[i - off] == 1)
  }

  /** The operand's coordinate under a broadcast: leading axes dropped, size-one axes at zero. */
  ghost function Shrunk(c: seq<nat>, s: Shape): (d: seq<nat>)
    requires |s| <= |c|
  {
    seq(|s|, i requires 0 <= i < |s| => if s[i] == 1 then 0 else c[|c| - |s| + i])
  }

  ghost function BroadcastStride(x: View, shape: seq<int>, j: nat): nat
    requires x.Ok() && |x.shape| <= |shape| && j < |shape|
  {
    var off := |shape| - |x.shape|;
    if j >= off && x.shape[j - off] == shape[j] then x.strides[j - off] else 0
  }

  /** Expands size-one axes with zero strides. */
  method Broadcast(x: View, shape: seq<int>) returns (r: Option<View>)
    requires x.Ok()
    ensures r.Some? <==> Broadcastable(x, shape)
    ensures r.Some? ==> r.value.Ok() && r.value.shape == Nats(shape) && Selects(x, r.value)
    ensures r.Some? ==>
              forall c :: Within(c, r.value.shape) ==>
                Within(Shrunk(c, x.shape), x.shape) && Addr(r.value, c) == Addr(x, Shrunk(c, x.shape))
  {
    if |shape| < |x.shape| {
      return None;
    }
    var off := |shape| - |x.shape|;
    var s: Shape, strides := [], [];
    for i := 0 to |shape|
      invariant |s| == i == |strides| && forall j :: 0 <= j < i ==> s[j] == shape[j]
      invariant forall j :: 0 <= j < i ==> AxisBroadcastable(x, shape, j)
      invariant forall j :: 0 <= j < i ==>
        strides[j] == BroadcastStride(x, shape, j)
    {
      if shape[i] < 0 {
        assert !AxisBroadcastable(x, shape, i);
        return None;
      }
      s := s + [shape[i]];
      if i < off {
        strides := strides + [0];
        continue;
      }
      var d := x.shape[i - off];
      if d == shape[i] {
        strides := strides + [x.strides[i - off]];
      } else if d == 1 {
        strides := strides + [0];
      } else {
        assert !AxisBroadcastable(x, shape, i);
        return None;
      }
    }
    assert s == Nats(shape);
    r := Some(View(s, strides, x.offset));
    forall c | Within(c, s)
      ensures Within(Shrunk(c, x.shape), x.shape) && Addr(r.value, c) == Addr(x, Shrunk(c, x.shape))
    {
      BroadcastReads(x, shape, s, strides, c);
    }
  }

  lemma BroadcastReads(x: View, shape: seq<int>, s: Shape, strides: seq<nat>, c: seq<nat>)
    requires x.Ok() && Broadcastable(x, shape) && s == Nats(shape) && |strides| == |s| && Within(c, s)
    requires forall j :: 0 <= j < |s| ==> strides[j] == BroadcastStride(x, shape, j)
    ensures Within(Shrunk(c, x.shape), x.shape) && Dot(c, strides) == Dot(Shrunk(c, x.shape), x.strides)
  {
    var off := |s| - |x.shape|;
    forall i | 0 <= i < |x.shape|
      ensures Shrunk(c, x.shape)[i] < x.shape[i] && AxisReads(c, strides, x.shape, x.strides, i)
    {
      assert AxisBroadcastable(x, shape, off + i);
    }
    BroadcastDot(c, strides, x.shape, x.strides);
  }

  /** At axis i of s, counted from the right in c, the strides st read what xs read at the shrunk
      coordinate. */
  ghost predicate AxisReads(c: seq<nat>, st: seq<nat>, s: Shape, xs: seq<nat>, i: nat)
    requires |c| == |st| >= |s| == |xs| && i < |s|
  {
    var j := |c| - |s| + i;
    (st[j] == xs[i] && (s[i] == 1 ==> c[j] == 0)) || (s[i] == 1 && st[j] == 0)
  }

  lemma {:induction false} BroadcastDot(c: seq<nat>, st: seq<nat>, s: Shape, xs: seq<nat>)
    requires |c| == |st| >= |s| == |xs|
    requires forall i :: 0 <= i < |c| - |s| ==> st[i] == 0
    requires forall i: nat :: i < |s| ==> AxisReads(c, st, s, xs, i)
    ensures Dot(c, st) == Dot(Shrunk(c, s), xs)
  {
    if |c| > |s| {
      forall i: nat | i < |s|
        ensures AxisReads(c[1..], st[1..], s, xs, i)
      {
        assert AxisReads(c, st, s, xs, i);
      }
      BroadcastDot(c[1..], st[1..], s, xs);
      assert Shrunk(c[1..], s) == Shrunk(c, s);
    } else if c != [] {
      forall i: nat | i < |s| - 1
        ensures AxisReads(c[1..], st[1..], s[1..], xs[1..], i)
      {
        assert AxisReads(c, st, s, xs, i + 1);
      }
      BroadcastDot(c[1..], st[1..], s[1..], xs[1..]);
      assert Shrunk(c[1..], s[1..]) == Shrunk(c, s)[1..];
      assert AxisReads(c, st, s, xs, 0);
      AxisTerm(c[0], st[0], s[0], xs[0]);
    }
  }

  lemma AxisTerm(c: nat, st: nat, s: nat, x: nat)
    requires (st == x && (s == 1 ==> c == 0)) || (s == 1 && st == 0)
    ensures c * st == (if s == 1 then 0 else c) * x
  {
  }
}
