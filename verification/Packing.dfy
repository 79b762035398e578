/** Assigning transients overlapping memory: who may share bytes, where each one goes, and what
    the resulting pool costs. */
module Packing {
  import opened Closure
  import opened Arith
  import opened Bits
  import opened Bitsets
  import opened Inference
  import opened Ranges
  import opened Recorders
  import opened Sets

  // ---- interference ----

  ghost predicate AllBefore(e: Rel, us: seq<nat>, vs: seq<nat>) {
    forall u, v :: u in us && v in vs ==> Reach(e, u, v)
  }

  /** Two transients may share bytes when all of one's users precede all of the other's. */
  ghost predicate Compatible(e: Rel, us: seq<nat>, vs: seq<nat>) {
    AllBefore(e, us, vs) || AllBefore(e, vs, us)
  }

  /** Compatible transients are never live at the same record-order position. */
  lemma CompatibleApart(e: Rel, us: seq<nat>, vs: seq<nat>, at: nat)
    requires Compatible(e, us, vs) && us != [] && vs != []
    ensures !(us[0] <= at <= us[|us| - 1] && vs[0] <= at <= vs[|vs| - 1])
  {
    var ul, vl := us[|us| - 1], vs[|vs| - 1];
    assert ul in us && vs[0] in vs && vl in vs && us[0] in us;
    assert Reach(e, ul, vs[0]) || Reach(e, vl, us[0]);
  }

  // ---- sizes ----

  /** The bytes a set of transients needs when none of them share. */
  function SumSizes(ts: seq<Transient>, align: nat): nat {
    if ts == [] then 0 else SumSizes(ts[..|ts| - 1], align) + AlignUp(ts[|ts| - 1].bytes, align)
  }

  lemma {:induction false} SumSizesConcat(a: seq<Transient>, b: seq<Transient>, align: nat)
    ensures SumSizes(a + b, align) == SumSizes(a, align) + SumSizes(b, align)
  {
    if b == [] {
      assert a + b == a;
    } else {
      var n := |b| - 1;
      assert (a + b)[..|a + b| - 1] == a + b[..n];
      SumSizesConcat(a, b[..n], align);
    }
  }

  lemma SumSizesNext(ts: seq<Transient>, k: nat, align: nat)
    requires k < |ts|
    ensures ts[..k + 1] == ts[..k] + [ts[k]]
    ensures SumSizes(ts[..k + 1], align) == SumSizes(ts[..k], align) + AlignUp(ts[k].bytes, align)
  {
    assert ts[..k + 1][..k] == ts[..k];
  }

  // ---- packing order ----

  /** Larger first; among equals, the earlier first writer (or user). */
  predicate PackedBefore(t: Transient, u: Transient)
    reads t, u
  {
    t.bytes > u.bytes || (t.bytes == u.bytes && t.FirstWriterOrUser() <= u.FirstWriterOrUser())
  }

  ghost predicate SortedForPacking(s: seq<Transient>)
    reads s
  {
    forall i, j :: 0 <= i < j < |s| ==> PackedBefore(s[i], s[j])
  }

  predicate Tied(t: Transient, u: Transient)
    reads t`users, t`writer, u`users, u`writer
  {
    t.bytes == u.bytes && t.FirstWriterOrUser() == u.FirstWriterOrUser()
  }

  ghost predicate RecordedBefore(transients: seq<Transient>, t: Transient, u: Transient) {
    exists a, b :: 0 <= a < b < |transients| && transients[a] == t && transients[b] == u
  }

  ghost predicate StableAt(s: seq<Transient>, transients: seq<Transient>, i: nat, j: nat)
    requires i < |s| && j < |s|
    reads s`users, s`writer
  {
    Tied(s[i], s[j]) ==> RecordedBefore(transients, s[i], s[j])
  }

  /** Transients the comparison cannot tell apart stay in recording order. */
  ghost predicate Stable(s: seq<Transient>, transients: seq<Transient>)
    reads s`users, s`writer
  {
    forall i: nat, j: nat :: i < j < |s| ==> StableAt(s, transients, i, j)
  }

  function InsertedAt(s: seq<Transient>, k: nat, t: Transient): (r: seq<Transient>)
    requires k <= |s|
    ensures |r| == |s| + 1 && r[k] == t
    ensures forall i :: 0 <= i < k ==> r[i] == s[i]
    ensures forall i :: k < i < |r| ==> r[i] == s[i - 1]
  {
    s[..k] + [t] + s[k..]
  }

  lemma InsertedAtMembers(s: seq<Transient>, k: nat, t: Transient, align: nat)
    requires k <= |s|
    ensures forall u :: u in InsertedAt(s, k, t) <==> u in s || u == t
    ensures SumSizes(InsertedAt(s, k, t), align) == SumSizes(s, align) + AlignUp(t.bytes, align)
  {
    var r := InsertedAt(s, k, t);
    assert s == s[..k] + s[k..];
    SumSizesConcat(s[..k], s[k..], align);
    SumSizesConcat(s[..k] + [t], s[k..], align);
    SumSizesConcat(s[..k], [t], align);
    assert SumSizes([t], align) == AlignUp(t.bytes, align);
    assert forall u :: u in r <==> u in s[..k] || u == t || u in s[k..];
  }

  lemma InsertedAtDistinct(s: seq<Transient>, k: nat, t: Transient)
    requires k <= |s| && t !in s && Distinct(s)
    ensures Distinct(InsertedAt(s, k, t))
  {
    var r := InsertedAt(s, k, t);
    forall i: nat, j: nat | i < j < |r|
      ensures Differ(r, i, j)
    {
      var a := if i < k then i else i - 1;
      var b := if j < k then j else j - 1;
      assert i != k && j != k ==> Differ(s, a, b);
      assert i != k ==> r[i] == s[a] && r[i] in s;
      assert j != k ==> r[j] == s[b] && r[j] in s;
    }
  }

  /** The order transients are placed in: a sort of the recording's list. */
  method PackingOrder(transients: seq<Transient>, ghost align: nat) returns (order: seq<Transient>)
    requires Distinct(transients)
    ensures SortedForPacking(order) && Distinct(order)
    ensures forall t :: t in order <==> t in transients
    ensures SumSizes(order, align) == SumSizes(transients, align)
    ensures Stable(order, transients)
  {
    order := [];
    for n := 0 to |transients|
      invariant SortedForPacking(order) && Distinct(order) && Stable(order, transients)
      invariant forall t :: t in order <==> t in transients[..n]
      invariant SumSizes(order, align) == SumSizes(transients[..n], align)
    {
      var t := transients[n];
      OccursOnce(transients, n);
      var k := |order|;
      while k > 0 && !PackedBefore(order[k - 1], t)
        invariant 0 <= k <= |order| && (k < |order| ==> PackedBefore(t, order[k]))
        invariant forall x :: k <= x < |order| ==> !Tied(order[x], t)
      {
        k := k - 1;
      }
      assert transients[..n + 1] == transients[..n] + [t] && transients[..n + 1][..n] == transients[..n];
      InsertedAtMembers(order, k, t, align);
      InsertedAtDistinct(order, k, t);
      InsertedAtSorted(order, k, t);
      InsertedAtStable(order, k, t, transients, n);
      order := InsertedAt(order, k, t);
    }
    assert transients[..|transients|] == transients;
  }

  /** The order spelled out: larger first, then the earlier tie break, then recording order. */
  lemma RankExactly(order: seq<Transient>, transients: seq<Transient>, i: nat, j: nat)
    requires SortedForPacking(order) && Stable(order, transients) && i < j < |order|
    ensures var (t, u) := (order[i], order[j]);
            || t.bytes > u.bytes
            || (t.bytes == u.bytes && t.FirstWriterOrUser() < u.FirstWriterOrUser())
            || (t.bytes == u.bytes && t.FirstWriterOrUser() == u.FirstWriterOrUser()
                && RecordedBefore(transients, t, u))
  {
    assert PackedBefore(order[i], order[j]) && StableAt(order, transients, i, j);
  }

  lemma InsertedAtStable(s: seq<Transient>, k: nat, t: Transient, transients: seq<Transient>, n: nat)
    requires k <= |s| && n < |transients| && transients[n] == t && Stable(s, transients)
    requires forall u :: u in s ==> u in transients[..n]
    requires forall x :: k <= x < |s| ==> !Tied(s[x], t)
    ensures Stable(InsertedAt(s, k, t), transients)
  {
    var r := InsertedAt(s, k, t);
    forall i: nat, j: nat | i < j < |r|
      ensures StableAt(r, transients, i, j)
    {
      if j == k {
        assert s[i] in s;
        var a: nat :| a < n && transients[..n][a] == s[i];
        assert RecordedBefore(transients, s[i], t);
      } else if i == k {
        assert !Tied(s[j - 1], t);
      } else {
        assert StableAt(s, transients, if i < k then i else i - 1, if j < k then j else j - 1);
      }
    }
  }

  lemma InsertedAtSorted(s: seq<Transient>, k: nat, t: Transient)
    requires SortedForPacking(s) && k <= |s|
    requires k > 0 ==> PackedBefore(s[k - 1], t)
    requires k < |s| ==> PackedBefore(t, s[k])
    ensures SortedForPacking(InsertedAt(s, k, t))
  {
    var r := InsertedAt(s, k, t);
    forall i, j | 0 <= i < j < |r|
      ensures PackedBefore(r[i], r[j])
    {
      if i < k && j == k && i < k - 1 {
        assert PackedBefore(s[i], s[k - 1]);
      } else if i == k && k < j - 1 {
        assert PackedBefore(s[k], s[j - 1]);
      }
    }
  }

  // ---- placement ----

  /** Where a transient went, the aligned bytes it takes, who uses it, and its packing rank. */
  datatype Placement = Placement(offset: nat, size: nat, users: seq<nat>, bytes: nat, tie: int) {
    ghost function Extent(): ByteRange {
      ByteRange(offset, offset + size)
    }

    ghost predicate Overlaps(p: Placement) {
      offset < p.offset + p.size && p.offset < offset + size
    }

    ghost predicate RankedBefore(p: Placement) {
      bytes > p.bytes || (bytes == p.bytes && tie <= p.tie)
    }
  }

  ghost function PlacementAt(t: Transient, offset: nat, align: nat): Placement
    reads t`users, t`writer
  {
    Placement(offset, AlignUp(t.bytes, align), t.users, t.bytes, t.FirstWriterOrUser())
  }

  ghost function PlacementOf(t: Transient, align: nat): Placement
    reads t
  {
    PlacementAt(t, t.offset, align)
  }

  ghost function Placements(ts: seq<Transient>, align: nat): (r: seq<Placement>)
    reads ts
    ensures |r| == |ts| && forall i :: 0 <= i < |ts| ==> r[i] == PlacementOf(ts[i], align)
  {
    seq(|ts|, i requires 0 <= i < |ts| reads ts => PlacementOf(ts[i], align))
  }

  ghost predicate SortedByRank(ps: seq<Placement>) {
    forall i, j :: 0 <= i < j < |ps| ==> ps[i].RankedBefore(ps[j])
  }

  /** The placements of a list of transients, all placed. */
  ghost predicate PlacedAs(ts: seq<Transient>, ps: seq<Placement>, align: nat)
    reads ts
  {
    && |ps| == |ts|
    && forall i :: 0 <= i < |ts| ==> ts[i].placed && ps[i] == PlacementOf(ts[i], align)
  }

  ghost predicate PairSound(e: Rel, ps: seq<Placement>, i: nat, j: nat)
    requires i < |ps| && j < |ps|
  {
    !Compatible(e, ps[i].users, ps[j].users) ==> !Meets(ps[j].offset, ps[j].size, ps[i].Extent())
  }

  ghost predicate FitsAt(ps: seq<Placement>, i: nat, align: nat, total: nat)
    requires i < |ps|
  {
    Aligned(ps[i].offset, align) && Aligned(ps[i].size, align) && ps[i].offset + ps[i].size <= total
  }

  /** Aligned ranges inside the pool; incompatible transients share no byte. */
  ghost predicate Sound(e: Rel, ps: seq<Placement>, align: nat, total: nat) {
    && (forall i: nat :: i < |ps| ==> FitsAt(ps, i, align, total))
    && (forall i: nat, j: nat :: i < j < |ps| ==> PairSound(e, ps, i, j))
  }

  /** Every lower aligned offset for p runs into an incompatible placement of ps. */
  ghost predicate LowestAmong(e: Rel, ps: seq<Placement>, p: Placement, align: nat) {
    forall c: nat :: c < p.offset && Aligned(c, align) ==> Blocked(e, ps, p, c)
  }

  ghost predicate Blocked(e: Rel, ps: seq<Placement>, p: Placement, c: nat) {
    exists q :: q in ps && !Compatible(e, q.users, p.users) && Meets(c, p.size, q.Extent())
  }

  ghost predicate LowestAt(e: Rel, ps: seq<Placement>, k: nat, align: nat)
    requires k < |ps|
  {
    LowestAmong(e, ps[..k], ps[k], align)
  }

  /** Each placement is the lowest one the earlier placements leave. */
  ghost predicate Lowest(e: Rel, ps: seq<Placement>, align: nat) {
    forall k: nat :: k < |ps| ==> LowestAt(e, ps, k, align)
  }

  /** Placing one more transient at the lowest free offset keeps the layout sound and lowest, and
      grows the pool by no more than the transient's own size. */
  lemma PlaceStep(e: Rel, ps: seq<Placement>, p: Placement, align: nat, total: nat)
    requires Sound(e, ps, align, total) && Lowest(e, ps, align)
    requires Aligned(p.offset, align) && Aligned(p.size, align)
    requires forall q :: q in ps && !Compatible(e, q.users, p.users) ==> !Meets(p.offset, p.size, q.Extent())
    requires LowestAmong(e, ps, p, align)
    requires p.offset == 0 || exists q :: q in ps && p.offset == q.offset + q.size
    ensures var total' := if p.offset + p.size > total then p.offset + p.size else total;
            Sound(e, ps + [p], align, total') && total' <= total + p.size
    ensures Lowest(e, ps + [p], align)
  {
    ghost var total' := if p.offset + p.size > total then p.offset + p.size else total;
    forall i: nat | i < |ps + [p]|
      ensures FitsAt(ps + [p], i, align, total')
    {
      assert i < |ps| ==> FitsAt(ps, i, align, total);
    }
    if p.offset != 0 {
      var q :| q in ps && p.offset == q.offset + q.size;
      var i: nat :| i < |ps| && ps[i] == q;
      assert FitsAt(ps, i, align, total);
    }
    forall i: nat, j: nat | i < j < |ps + [p]|
      ensures PairSound(e, ps + [p], i, j)
    {
      assert j < |ps| ==> PairSound(e, ps, i, j);
    }
    forall k: nat | k < |ps + [p]|
      ensures LowestAt(e, ps + [p], k, align)
    {
      assert (ps + [p])[..k] == ps[..k];
      if k == |ps| {
        assert ps[..k] == ps;
      } else {
        assert LowestAt(e, ps, k, align);
      }
    }
  }

  // ---- the packer ----

  predicate NodesBelow(us: seq<nat>, n: nat) {
    forall u :: u in us ==> u < n
  }

  /** Every user of one is ordered before every user of the other, read from the bitset. */
  predicate TestAllBefore(reach: array<Word>, n: nat, us: seq<nat>, vs: seq<nat>)
    requires Shaped(reach[..], n) && NodesBelow(us, n) && NodesBelow(vs, n)
    reads reach
  {
    forall u :: u in us ==> forall v :: v in vs ==> Reaches(reach, n, u, v)
  }

  predicate TestCompatible(reach: array<Word>, n: nat, us: seq<nat>, vs: seq<nat>)
    requires Shaped(reach[..], n) && NodesBelow(us, n) && NodesBelow(vs, n)
    reads reach
  {
    TestAllBefore(reach, n, us, vs) || TestAllBefore(reach, n, vs, us)
  }

  lemma TestIsCompatible(reach: array<Word>, succ: seq<seq<nat>>, us: seq<nat>, vs: seq<nat>)
    requires ClosedFrom(reach[..], succ, 0) && NodesBelow(us, |succ|) && NodesBelow(vs, |succ|)
    ensures TestCompatible(reach, |succ|, us, vs) <==> Compatible(Edges(succ), us, vs)
  {
    TestIsBefore(reach, succ, us, vs);
    TestIsBefore(reach, succ, vs, us);
  }

  lemma TestEitherWay(reach: array<Word>, succ: seq<seq<nat>>, us: seq<nat>, vs: seq<nat>)
    requires ClosedFrom(reach[..], succ, 0) && NodesBelow(us, |succ|) && NodesBelow(vs, |succ|)
    ensures TestCompatible(reach, |succ|, us, vs) == TestCompatible(reach, |succ|, vs, us)
  {
  }

  lemma TestIsBefore(reach: array<Word>, succ: seq<seq<nat>>, us: seq<nat>, vs: seq<nat>)
    requires ClosedFrom(reach[..], succ, 0) && NodesBelow(us, |succ|) && NodesBelow(vs, |succ|)
    ensures TestAllBefore(reach, |succ|, us, vs) <==> AllBefore(Edges(succ), us, vs)
  {
    forall u, v | u in us && v in vs
      ensures Reaches(reach, |succ|, u, v) <==> Reach(Edges(succ), u, v)
    {
    }
  }

  /** The lowest aligned offset at which t misses every interfering placement. */
  method LowestFreeOffset(t: Transient, placed: seq<Transient>, reach: array<Word>, succ: seq<seq<nat>>, align: nat,
    ghost ps: seq<Placement>)
    returns (at: nat)
    requires ClosedFrom(reach[..], succ, 0) && NodesBelow(t.users, |succ|)
    requires PlacedAs(placed, ps, align)
    requires forall p :: p in ps ==> NodesBelow(p.users, |succ|) && Aligned(p.offset, align) && Aligned(p.size, align)
    ensures Aligned(at, align)
    ensures var p := PlacementAt(t, at, align);
            && LowestAmong(Edges(succ), ps, p, align)
            && (forall q :: q in ps && !Compatible(Edges(succ), q.users, p.users) ==> !Meets(at, p.size, q.Extent()))
    ensures at == 0 || exists q :: q in ps && at == q.offset + q.size
  {
    var occupied := OccupiedBy(t, placed, reach, succ, align, ps);
    forall o | o in occupied
      ensures 0 <= o.lo <= o.hi && Aligned(o.hi, align)
    {
      var q :| q in ps && !Compatible(Edges(succ), q.users, t.users) && o == q.Extent();
      AlignedSum(q.offset, q.size, align);
    }
    at := LowestFree(occupied, align, AlignUp(t.bytes, align));
    ghost var p := PlacementAt(t, at, align);
    forall c: nat | c < at && Aligned(c, align)
      ensures Blocked(Edges(succ), ps, p, c)
    {
      var o :| o in occupied && Meets(c, AlignUp(t.bytes, align), o);
    }
  }

  /** The ranges so far are exactly those of the first i placements that interfere with users. */
  ghost predicate Interfering(e: Rel, ps: seq<Placement>, i: nat, users: seq<nat>, occupied: seq<ByteRange>)
    requires i <= |ps|
  {
    && (forall q :: q in ps[..i] && !Compatible(e, q.users, users) ==> q.Extent() in occupied)
    && (forall o :: o in occupied ==> exists q :: q in ps && !Compatible(e, q.users, users) && o == q.Extent())
  }

  lemma InterferingMore(e: Rel, ps: seq<Placement>, i: nat, users: seq<nat>, occupied: seq<ByteRange>)
    requires i < |ps| && Interfering(e, ps, i, users, occupied)
    ensures Interfering(e, ps, i + 1, users,
                        if Compatible(e, ps[i].users, users) then occupied else occupied + [ps[i].Extent()])
  {
    assert ps[..i + 1] == ps[..i] + [ps[i]] && ps[i] in ps;
  }

  /** The ranges of the placed transients that interfere with t. */
  method OccupiedBy(t: Transient, placed: seq<Transient>, reach: array<Word>, succ: seq<seq<nat>>, align: nat,
    ghost ps: seq<Placement>)
    returns (occupied: seq<ByteRange>)
    requires ClosedFrom(reach[..], succ, 0) && NodesBelow(t.users, |succ|)
    requires PlacedAs(placed, ps, align) && forall p :: p in ps ==> NodesBelow(p.users, |succ|)
    ensures forall q :: q in ps && !Compatible(Edges(succ), q.users, t.users) ==> q.Extent() in occupied
    ensures forall o :: o in occupied ==>
              exists q :: q in ps && !Compatible(Edges(succ), q.users, t.users) && o == q.Extent()
  {
    occupied := [];
    for i := 0 to |placed|
      invariant Interfering(Edges(succ), ps, i, t.users, occupied)
    {
      var u := placed[i];
      ghost var p := ps[i];
      assert p in ps && p == PlacementOf(u, align);
      InterferingMore(Edges(succ), ps, i, t.users, occupied);
      var apart := TestCompatible(reach, |succ|, t.users, u.users);
      TestEitherWay(reach, succ, t.users, u.users);
      TestIsCompatible(reach, succ, u.users, t.users);
      assert apart == Compatible(Edges(succ), p.users, t.users);
      if !apart {
        occupied := occupied + [ByteRange(u.offset, u.offset + AlignUp(u.bytes, align))];
        assert occupied[|occupied| - 1] == p.Extent();
      }
    }
    assert ps[..|ps|] == ps;
  }

  /** A layout in progress: sound, lowest, and no larger than its transients unaliased. */
  ghost predicate Layout(succ: seq<seq<nat>>, ps: seq<Placement>, align: nat, total: nat) {
    && Sound(Edges(succ), ps, align, total) && Lowest(Edges(succ), ps, align) && Aligned(total, align)
    && (forall p :: p in ps ==> NodesBelow(p.users, |succ|))
  }

  lemma LayoutStep(succ: seq<seq<nat>>, ps: seq<Placement>, p: Placement, align: nat, total: nat, total': nat)
    requires Layout(succ, ps, align, total) && NodesBelow(p.users, |succ|)
    requires Aligned(p.offset, align) && Aligned(p.size, align)
    requires forall q :: q in ps && !Compatible(Edges(succ), q.users, p.users) ==> !Meets(p.offset, p.size, q.Extent())
    requires LowestAmong(Edges(succ), ps, p, align)
    requires p.offset == 0 || exists q :: q in ps && p.offset == q.offset + q.size
    requires total' == if p.offset + p.size > total then p.offset + p.size else total
    ensures Layout(succ, ps + [p], align, total') && total' <= total + p.size
  {
    AlignedSum(p.offset, p.size, align);
    PlaceStep(Edges(succ), ps, p, align, total);
  }

  lemma LayoutAligned(succ: seq<seq<nat>>, ps: seq<Placement>, align: nat, total: nat)
    requires Layout(succ, ps, align, total)
    ensures forall p :: p in ps ==> NodesBelow(p.users, |succ|) && Aligned(p.offset, align) && Aligned(p.size, align)
  {
    forall p | p in ps
      ensures Aligned(p.offset, align) && Aligned(p.size, align)
    {
      var i: nat :| i < |ps| && ps[i] == p;
      assert FitsAt(ps, i, align, total);
    }
  }

  /** Chooses where one more transient goes, and how large the pool then is. */
  method ChoosePlace(t: Transient, placed: seq<Transient>, reach: array<Word>, succ: seq<seq<nat>>, align: nat,
      total: nat,
    ghost ps: seq<Placement>)
    returns (at: nat, total': nat)
    requires ClosedFrom(reach[..], succ, 0) && NodesBelow(t.users, |succ|)
    requires PlacedAs(placed, ps, align) && Layout(succ, ps, align, total)
    ensures Layout(succ, ps + [PlacementAt(t, at, align)], align, total')
    ensures total' <= total + AlignUp(t.bytes, align)
  {
    var size := AlignUp(t.bytes, align);
    AlignUpLeast(t.bytes, align, 0);
    LayoutAligned(succ, ps, align, total);
    at := LowestFreeOffset(t, placed, reach, succ, align, ps);
    total' := if at + size > total then at + size else total;
    LayoutStep(succ, ps, PlacementAt(t, at, align), align, total, total');
  }

  method AssignPlace(t: Transient, at: nat, ghost placed: seq<Transient>, ghost ps: seq<Placement>, ghost align: nat)
    requires PlacedAs(placed, ps, align) && t !in placed
    modifies t`offset, t`placed
    ensures PlacedAs(placed + [t], ps + [old(PlacementAt(t, at, align))], align)
  {
    t.offset := at;
    t.placed := true;
  }

  /** Places one transient against those already placed. */
  method PlaceNext(t: Transient, placed: seq<Transient>, reach: array<Word>, succ: seq<seq<nat>>, align: nat,
      total: nat,
    ghost ps: seq<Placement>)
    returns (total': nat, ghost ps': seq<Placement>)
    requires ClosedFrom(reach[..], succ, 0) && NodesBelow(t.users, |succ|) && t !in placed
    requires PlacedAs(placed, ps, align) && Layout(succ, ps, align, total)
    modifies t`offset, t`placed
    ensures PlacedAs(placed + [t], ps', align) && Layout(succ, ps', align, total')
    ensures total' <= total + AlignUp(t.bytes, align)
  {
    var at;
    at, total' := ChoosePlace(t, placed, reach, succ, align, total, ps);
    ps' := ps + [PlacementAt(t, at, align)];
    AssignPlace(t, at, placed, ps, align);
  }

  ghost function Footprint(ts: seq<Transient>): set<Transient> {
    set t | t in ts
  }

  /** Places transients one after another in the given order. */
  method PlaceInOrder(sorted: seq<Transient>, reach: array<Word>, succ: seq<seq<nat>>, align: nat,
    ghost footprint: set<Transient>)
    returns (total: nat, ghost ps: seq<Placement>)
    requires Distinct(sorted) && ClosedFrom(reach[..], succ, 0)
    requires forall t :: t in sorted ==> NodesBelow(t.users, |succ|) && t in footprint
    modifies footprint`offset, footprint`placed
    ensures PlacedAs(sorted, ps, align) && Layout(succ, ps, align, total)
    ensures total <= SumSizes(sorted, align)
  {
    ps := [];
    total := 0;

    for k := 0 to |sorted|
      invariant PlacedAs(sorted[..k], ps, align) && Layout(succ, ps, align, total)
      invariant total <= SumSizes(sorted[..k], align)
    {
      SumSizesNext(sorted, k, align);
      OccursOnce(sorted, k);
      total, ps := PlaceNext(sorted[k], sorted[..k], reach, succ, align, total, ps);
    }
    assert sorted[..|sorted|] == sorted;
    AlignUpLeast(total, align, 0);
    total := AlignUp(total, align);
  }

  lemma RanksSorted(sorted: seq<Transient>, align: nat)
    requires SortedForPacking(sorted)
    ensures SortedByRank(Placements(sorted, align))
  {
    forall i, j | 0 <= i < j < |sorted|
      ensures Placements(sorted, align)[i].RankedBefore(Placements(sorted, align)[j])
    {
      assert PackedBefore(sorted[i], sorted[j]);
    }
  }

  lemma SameRanksSorted(ranks: seq<Placement>, ps: seq<Placement>)
    requires SortedByRank(ranks) && |ps| == |ranks|
    requires forall i :: 0 <= i < |ps| ==> ps[i].bytes == ranks[i].bytes && ps[i].tie == ranks[i].tie
    ensures SortedByRank(ps)
  {
    forall i, j | 0 <= i < j < |ps|
      ensures ps[i].RankedBefore(ps[j])
    {
      assert ranks[i].RankedBefore(ranks[j]);
    }
  }

  /** Assigns every transient an offset in one pool, in packing order. */
  method PackTransients(transients: seq<Transient>, reach: array<Word>, succ: seq<seq<nat>>, align: nat)
    returns (total: nat, ghost order: seq<Transient>, ghost ps: seq<Placement>)
    requires Distinct(transients) && ClosedFrom(reach[..], succ, 0)
    requires forall t :: t in transients ==> NodesBelow(t.users, |succ|)
    modifies Footprint(transients)`offset, Footprint(transients)`placed
    ensures forall t :: t in order <==> t in transients
    ensures Distinct(order) && PlacedAs(order, ps, align)
    ensures SortedByRank(ps) && Stable(order, transients) && Layout(succ, ps, align, total)
    ensures total <= SumSizes(transients, align)
  {
    var sorted := PackingOrder(transients, align);
    order := sorted;
    ghost var ranks := Placements(sorted, align);
    RanksSorted(sorted, align);
    total, ps := PlaceInOrder(sorted, reach, succ, align, Footprint(transients));
    SameRanksSorted(ranks, ps);
  }

  // ---- the conservative placement ----

  lemma {:induction false} SumSizesPrefix(ts: seq<Transient>, align: nat, i: nat, j: nat)
    requires i <= j <= |ts|
    ensures SumSizes(ts[..i], align) <= SumSizes(ts[..j], align)
  {
    if i < j {
      assert ts[..j][..j - 1] == ts[..j - 1];
      SumSizesPrefix(ts, align, i, j - 1);
    }
  }

  /** Consecutive ranges, one per transient, in recording order: the first n of them. */
  ghost predicate Consecutive(ts: seq<Transient>, homes: seq<Placement>, align: nat, n: nat)
    requires n <= |ts|
  {
    |homes| == n && forall i :: 0 <= i < n ==> homes[i].offset == SumSizes(ts[..i], align)
  }

  method PlaceConsecutively(transients: seq<Transient>, align: nat) returns (total: nat, ghost homes: seq<Placement>)
    requires Distinct(transients)
    modifies Footprint(transients)`offset, Footprint(transients)`placed
    ensures PlacedAs(transients, homes, align) && Consecutive(transients, homes, align, |transients|)
    ensures total == SumSizes(transients, align)
  {
    var at := 0;
    homes := [];
    for i := 0 to |transients|
      invariant at == SumSizes(transients[..i], align) && Consecutive(transients, homes, align, i)
      invariant forall j :: 0 <= j < i ==> transients[j].placed && homes[j] == PlacementOf(transients[j], align)
    {
      OccursOnce(transients, i);
      transients[i].offset := at;
      transients[i].placed := true;
      homes := homes + [PlacementOf(transients[i], align)];
      at := at + AlignUp(transients[i].bytes, align);
      assert transients[..i + 1][..i] == transients[..i];
    }
    assert transients[..|transients|] == transients;
    SumSizesAligned(transients, align);
    AlignUpLeast(at, align, 0);
    total := AlignUp(at, align);
  }

  lemma {:induction false} SumSizesAligned(ts: seq<Transient>, align: nat)
    ensures Aligned(SumSizes(ts, align), align)
  {
    if ts != [] {
      var n := |ts| - 1;
      SumSizesAligned(ts[..n], align);
      AlignUpLeast(ts[n].bytes, align, 0);
      AlignedSum(SumSizes(ts[..n], align), AlignUp(ts[n].bytes, align), align);
    }
  }

  /** The bytes the transients would need without sharing any. */
  method Unaliased(transients: seq<Transient>, align: nat) returns (total: nat)
    ensures total == SumSizes(transients, align)
  {
    total := 0;
    for i := 0 to |transients|
      invariant total == SumSizes(transients[..i], align)
    {
      assert transients[..i + 1][..i] == transients[..i];
      total := total + AlignUp(transients[i].bytes, align);
    }
    assert transients[..|transients|] == transients;
  }

  // ---- the reported peak ----

  /** Position at lies between a transient's first and last user. */
  ghost predicate LiveAt(p: Placement, at: int) {
    p.users != [] && p.users[0] <= at <= p.users[|p.users| - 1]
  }

  /** Bytes of the transients whose record-order interval contains position at. */
  ghost function LiveBytes(ps: seq<Placement>, at: int): nat {
    if ps == [] then 0
    else LiveBytes(ps[..|ps| - 1], at) + (if LiveAt(ps[|ps| - 1], at) then ps[|ps| - 1].size else 0)
  }

  /** First and last are the ends of the user list. */
  ghost predicate Bracketed(t: Transient)
    reads t`users, t`first, t`last
  {
    && t.first == (if t.users == [] then -1 else t.users[0])
    && t.last == (if t.users == [] then -1 else t.users[|t.users| - 1])
  }

  /** The bytes live at one position. */
  method LiveNow(at: nat, transients: seq<Transient>, align: nat, ghost homes: seq<Placement>) returns (live: nat)
    requires PlacedAs(transients, homes, align) && forall t :: t in transients ==> Bracketed(t)
    ensures live == LiveBytes(homes, at)
  {
    live := 0;
    for i := 0 to |transients|
      invariant live == LiveBytes(homes[..i], at)
    {
      var t := transients[i];
      assert Bracketed(t) && homes[i] == PlacementOf(t, align);
      assert homes[..i + 1][..i] == homes[..i];
      if t.first >= 0 && t.first <= at && at <= t.last {
        live := live + AlignUp(t.bytes, align);
      }
    }
    assert homes[..|transients|] == homes;
  }

  /** The most bytes live at any one of n positions. */
  method PeakBytes(n: nat, transients: seq<Transient>, align: nat, ghost homes: seq<Placement>) returns (peak: nat)
    requires PlacedAs(transients, homes, align) && forall t :: t in transients ==> Bracketed(t)
    ensures IsPeak(peak, homes, n)
  {
    peak := 0;
    for at := 0 to n
      invariant IsPeak(peak, homes, at)
    {
      var live := LiveNow(at, transients, align, homes);
      if at == 0 || live > peak {
        peak := live;
      }
    }
  }

  ghost predicate IsPeak(peak: nat, homes: seq<Placement>, n: nat) {
    && (forall at :: 0 <= at < n ==> LiveBytes(homes, at) <= peak)
    && if n == 0 then peak == 0 else exists at :: 0 <= at < n && peak == LiveBytes(homes, at)
  }

  ghost function Interval(lo: int, hi: int): set<int>
    decreases hi - lo
  {
    if lo < hi then Interval(lo, hi - 1) + {hi - 1} else {}
  }

  lemma {:induction false} IntervalExact(lo: int, hi: int)
    ensures forall x :: x in Interval(lo, hi) <==> lo <= x < hi
    ensures lo <= hi ==> |Interval(lo, hi)| == hi - lo
    decreases hi - lo
  {
    if lo < hi {
      IntervalExact(lo, hi - 1);
    }
  }

  ghost predicate LiveApart(ps: seq<Placement>, at: int) {
    forall i, j :: 0 <= i < j < |ps| ==> (LiveAt(ps[i], at) && LiveAt(ps[j], at) ==> !ps[i].Overlaps(ps[j]))
  }

  /** The pool bytes of the transients live at one position. */
  ghost function LiveSet(ps: seq<Placement>, at: int): set<int> {
    if ps == [] then {}
    else
      var p := ps[|ps| - 1];
      LiveSet(ps[..|ps| - 1], at) + (if LiveAt(p, at) then Interval(p.offset, p.offset + p.size) else {})
  }

  lemma {:induction false} LiveSetExact(ps: seq<Placement>, at: int, x: int) returns (i: nat)
    requires x in LiveSet(ps, at)
    ensures i < |ps| && LiveAt(ps[i], at) && ps[i].offset <= x < ps[i].offset + ps[i].size
  {
    var n := |ps| - 1;
    IntervalExact(ps[n].offset, ps[n].offset + ps[n].size);
    if x in LiveSet(ps[..n], at) {
      i := LiveSetExact(ps[..n], at, x);
    } else {
      i := n;
    }
  }

  /** Transients that are pairwise disjoint when both live have as many live bytes as their sizes add to. */
  lemma {:induction false} LiveSetSize(ps: seq<Placement>, at: int)
    requires LiveApart(ps, at)
    ensures |LiveSet(ps, at)| == LiveBytes(ps, at)
  {
    if ps != [] {
      var n := |ps| - 1;
      LiveSetSize(ps[..n], at);
      if LiveAt(ps[n], at) {
        var rest, mine := LiveSet(ps[..n], at), Interval(ps[n].offset, ps[n].offset + ps[n].size);
        IntervalExact(ps[n].offset, ps[n].offset + ps[n].size);
        forall x | x in rest
          ensures x !in mine
        {
          var i := LiveSetExact(ps[..n], at, x);
          assert ps[i] == ps[..n][i];
        }
        assert |rest + mine| == |rest| + |mine|;
      }
    }
  }

  /** What is live at any one position fits the pool together, so the peak never exceeds it. */
  lemma PeakWithinPool(homes: seq<Placement>, total: nat, at: int)
    requires LiveApart(homes, at) && forall p :: p in homes ==> p.offset + p.size <= total
    ensures LiveBytes(homes, at) <= total
  {
    LiveSetSize(homes, at);
    IntervalExact(0, total);
    forall x | x in LiveSet(homes, at)
      ensures x in Interval(0, total)
    {
      var i := LiveSetExact(homes, at, x);
      assert homes[i] in homes;
    }
    SubsetSize(LiveSet(homes, at), Interval(0, total));
  }

  // ---- the packed layout, in recording order ----

  /** Two placements overlap only if their transients are compatible. */
  ghost predicate PairApart(e: Rel, homes: seq<Placement>, t: nat, u: nat)
    requires t < |homes| && u < |homes|
  {
    !Compatible(e, homes[t].users, homes[u].users) ==> !homes[t].Overlaps(homes[u])
  }

  ghost predicate HomesApart(e: Rel, homes: seq<Placement>) {
    forall t: nat, u: nat :: t < u < |homes| ==> PairApart(e, homes, t, u)
  }

  /** Reading a layout back in recording order keeps it inside the pool and apart. */
  lemma PackedHomes(order: seq<Transient>, ps: seq<Placement>, transients: seq<Transient>, homes: seq<Placement>,
    succ: seq<seq<nat>>, align: nat, total: nat)
    requires PlacedAs(order, ps, align) && Layout(succ, ps, align, total)
    requires PlacedAs(transients, homes, align) && Distinct(transients)
    requires forall t :: t in transients ==> t in order
    ensures HomesApart(Edges(succ), homes) && forall p :: p in homes ==> p.offset + p.size <= total
  {
    forall t: nat, u: nat | t < u < |homes|
      ensures PairApart(Edges(succ), homes, t, u)
    {
      var i := PlacedIndex(order, ps, transients, homes, align, t);
      var j := PlacedIndex(order, ps, transients, homes, align, u);
      assert i != j by {
        OccursOnce(transients, u);
      }
      if i < j {
        assert PairSound(Edges(succ), ps, i, j);
      } else {
        assert PairSound(Edges(succ), ps, j, i);
      }
    }
    forall p | p in homes
      ensures p.offset + p.size <= total
    {
      var t: nat :| t < |homes| && homes[t] == p;
      var i := PlacedIndex(order, ps, transients, homes, align, t);
      assert FitsAt(ps, i, align, total);
    }
  }

  lemma PlacedIndex(order: seq<Transient>, ps: seq<Placement>, transients: seq<Transient>, homes: seq<Placement>,
    align: nat, t: nat) returns (i: nat)
    requires PlacedAs(order, ps, align) && PlacedAs(transients, homes, align)
    requires t < |transients| && transients[t] in order
    ensures i < |order| && order[i] == transients[t] && ps[i] == homes[t]
  {
    i :| i < |order| && order[i] == transients[t];
  }

  /** Overlapping homes are never live together, so the record-order peak fits the pool. */
  lemma HomesLiveApart(e: Rel, homes: seq<Placement>, at: int)
    requires HomesApart(e, homes)
    ensures LiveApart(homes, at)
  {
    forall i, j | 0 <= i < j < |homes| && LiveAt(homes[i], at) && LiveAt(homes[j], at)
      ensures !homes[i].Overlaps(homes[j])
    {
      assert PairApart(e, homes, i, j);
      if Compatible(e, homes[i].users, homes[j].users) {
        CompatibleApart(e, homes[i].users, homes[j].users, at);
      }
    }
  }

  // ---- handovers ----

  predicate OverlapBytes(a: Transient, b: Transient, align: nat)
    reads a, b
  {
    a.offset < b.offset + AlignUp(b.bytes, align) && b.offset < a.offset + AlignUp(a.bytes, align)
  }

  /** Both used, sharing pool bytes. */
  ghost predicate HandsOver(a: Placement, b: Placement) {
    a.users != [] && b.users != [] && a.Overlaps(b)
  }

  /** The first user of whichever of the two is used later. */
  ghost function HandoverNode(a: Placement, b: Placement): nat
    requires a.users != [] && b.users != []
  {
    if a.users[0] > b.users[0] then a.users[0] else b.users[0]
  }

  /** Makes sure a barrier stands before the later first user of every two transients sharing bytes. */
  method PlanHandovers(transients: seq<Transient>, align: nat, bars: seq<bool>, ghost homes: seq<Placement>)
    returns (out: seq<bool>)
    requires PlacedAs(transients, homes, align) && forall t :: t in transients ==> NodesBelow(t.users, |bars|)
    ensures |out| == |bars|
    ensures forall p :: 0 <= p < |bars| ==> (out[p] <==> bars[p] || HandoverBelow(homes, |homes|, 0, p))
  {
    out := bars;
    for i := 0 to |transients|
      invariant |out| == |bars|
      invariant forall p :: 0 <= p < |bars| ==> (out[p] <==> bars[p] || HandoverBelow(homes, i, 0, p))
    {
      var a := transients[i];
      assert homes[i] == PlacementOf(a, align);
      for j := 0 to i
        invariant |out| == |bars|
        invariant forall p :: 0 <= p < |bars| ==> (out[p] <==> bars[p] || HandoverBelow(homes, i, j, p))
      {
        var b := transients[j];
        assert homes[j] == PlacementOf(b, align);
        if a.placed && |a.users| != 0 && b.placed && |b.users| != 0 && OverlapBytes(a, b, align) {
          assert a.users[0] in a.users && b.users[0] in b.users;
          out := out[(if a.users[0] > b.users[0] then a.users[0] else b.users[0]) := true];
        }
      }
    }
  }

  /** Position p is the handover node of a pair visited before the loops reach (i, j). */
  ghost predicate HandoverBelow(homes: seq<Placement>, i: nat, j: nat, p: nat) {
    exists x, y :: 0 <= y < x < |homes| && (x < i || (x == i && y < j))
      && HandsOver(homes[x], homes[y]) && p == HandoverNode(homes[x], homes[y])
  }

  /** Transients sharing bytes are used one strictly after the other: the last user of the one used
      first is ordered before the first user of the other. */
  lemma HandoverOrdered(e: Rel, homes: seq<Placement>, t: nat, u: nat)
    requires HomesApart(e, homes) && t < |homes| && u < |homes| && t != u && HandsOver(homes[t], homes[u])
    ensures var earlier, later := if homes[t].users[0] > homes[u].users[0] then homes[u].users else homes[t].users,
                                  if homes[t].users[0] > homes[u].users[0] then homes[t].users else homes[u].users;
            && later[0] == HandoverNode(homes[t], homes[u])
            && AllBefore(e, earlier, later)
            && Reach(e, earlier[|earlier| - 1], later[0])
  {
    var a, b := homes[t].users, homes[u].users;
    assert Compatible(e, a, b) by {
      assert if t < u then PairApart(e, homes, t, u) else PairApart(e, homes, u, t);
    }
    assert a[0] in a && b[0] in b && a[|a| - 1] in a && b[|b| - 1] in b;
    if AllBefore(e, a, b) {
      assert Reach(e, a[0], b[0]);
    } else {
      assert Reach(e, b[0], a[0]);
    }
  }
}
