/** Refusing a graph that reads a transient byte before an ordered node has written it. */
module Coverage {
  import opened Closure
  import opened Accesses
  import opened Bits
  import opened Bitsets
  import opened Execution
  import opened Inference
  import opened Ranges
  import opened Recorders
  import opened Recording

  /** Byte x of transient t is written by a node ordered before node n. */
  ghost predicate WrittenBefore(nodes: seq<Node>, e: Rel, t: nat, n: nat, x: int) {
    exists u: nat :: u < |nodes| && WritesLoc(nodes[u], Loc(Temp(t), x)) && Reach(e, u, n)
  }

  /** The byte ranges of transient t that one node writes. */
  method WrittenBy(n: Node, t: nat) returns (ranges: seq<ByteRange>)
    ensures forall x :: SomeCovers(ranges, x) <==> WritesLoc(n, Loc(Temp(t), x))
  {
    ranges := [];
    for i := 0 to |n.accesses|
      invariant forall r :: r in ranges ==> exists j :: 0 <= j < i && RangeOf(n.accesses[j], t, r)
      invariant forall j :: 0 <= j < i && RangeOf(n.accesses[j], t, SpanOf(n.accesses[j])) ==>
                SpanOf(n.accesses[j]) in ranges
    {
      var a := n.accesses[i];
      if a.res == Temp(t) && a.Writes() {
        ranges := ranges + [SpanOf(a)];
      }
    }
    forall x {
      RangesAreWrites(n, t, ranges, x);
    }
  }

  function SpanOf(a: Access): ByteRange {
    ByteRange(a.off, a.off + a.size)
  }

  lemma RangesAreWrites(n: Node, t: nat, ranges: seq<ByteRange>, x: int)
    requires forall r :: r in ranges ==> exists j :: 0 <= j < |n.accesses| && RangeOf(n.accesses[j], t, r)
    requires forall j :: 0 <= j < |n.accesses| && RangeOf(n.accesses[j], t, SpanOf(n.accesses[j])) ==>
             SpanOf(n.accesses[j]) in ranges
    ensures SomeCovers(ranges, x) <==> WritesLoc(n, Loc(Temp(t), x))
  {
    if SomeCovers(ranges, x) {
      var r :| r in ranges && r.lo <= x < r.hi;
      var j :| 0 <= j < |n.accesses| && RangeOf(n.accesses[j], t, r);
      assert n.accesses[j] in n.accesses && n.accesses[j].Touches(x);
    }
    if WritesLoc(n, Loc(Temp(t), x)) {
      var a :| a in n.accesses && a.Writes() && a.res == Temp(t) && a.Touches(x);
      var j :| 0 <= j < |n.accesses| && n.accesses[j] == a;
      assert SpanOf(a) in ranges;
    }
  }

  ghost predicate RangeOf(a: Access, t: nat, r: ByteRange) {
    a.res == Temp(t) && a.Writes() && r == SpanOf(a)
  }

  lemma CoversConcat(a: seq<ByteRange>, b: seq<ByteRange>, x: int)
    ensures SomeCovers(a + b, x) <==> SomeCovers(a, x) || SomeCovers(b, x)
  {
    if SomeCovers(a, x) {
      var r :| r in a && r.lo <= x < r.hi;
      assert r in a + b;
    }
    if SomeCovers(b, x) {
      var r :| r in b && r.lo <= x < r.hi;
      assert r in a + b;
    }
  }

  ghost predicate WrittenByUsers(nodes: seq<Node>, e: Rel, users: seq<nat>, t: nat, n: nat, x: int)
  {
    exists u :: u in users && u < |nodes| && WritesLoc(nodes[u], Loc(Temp(t), x)) && Reach(e, u, n)
  }

  /** Whether every byte of a read is written by a node ordered before it, and the first gap if not. */
  method UncoveredRead(nodes: seq<Node>, succ: seq<seq<nat>>, reach: array<Word>, users: seq<nat>, t: nat, n: nat,
      read: Access)
    returns (gap: ByteRange, ok: bool)
    requires |succ| == |nodes| && ClosedFrom(reach[..], succ, 0) && n < |nodes|
    requires users == UsersOf(nodes, t)
    ensures ok <==> forall x :: read.Touches(x) ==> WrittenBefore(nodes, Edges(succ), t, n, x)
    ensures !ok ==> read.Touches(gap.lo) && !WrittenBefore(nodes, Edges(succ), t, n, gap.lo)
  {
    UsersOfExact(nodes, t);
    var written: seq<ByteRange> := [];
    for i := 0 to |users|
      invariant forall x :: SomeCovers(written, x) <==> WrittenByUsers(nodes, Edges(succ), users[..i], t, n, x)
    {
      var u := users[i];
      assert users[..i + 1] == users[..i] + [u];
      assert u in users;
      if Reaches(reach, |succ|, u, n) {
        var more := WrittenBy(nodes[u], t);
        forall x {
          CoversConcat(written, more, x);
        }
        written := written + more;
      }
      forall x
        ensures WrittenByUsers(nodes, Edges(succ), users[..i + 1], t, n, x)
          <==> WrittenByUsers(nodes, Edges(succ), users[..i], t, n, x)
               || (WritesLoc(nodes[u], Loc(Temp(t), x)) && Reach(Edges(succ), u, n))
      {
        UsersMore(nodes, Edges(succ), users[..i], u, t, n, x);
      }
    }
    assert users[..|users|] == users;
    forall x
      ensures WrittenByUsers(nodes, Edges(succ), users, t, n, x) <==> WrittenBefore(nodes, Edges(succ), t, n, x)
    {
      WritersAreUsers(nodes, Edges(succ), users, t, n, x);
    }
    gap, ok := FirstGap(ByteRange(read.off, read.off + read.size), written);
  }

  lemma UsersMore(nodes: seq<Node>, e: Rel, users: seq<nat>, u: nat, t: nat, n: nat, x: int)
    requires u < |nodes|
    ensures WrittenByUsers(nodes, e, users + [u], t, n, x)
            <==> WrittenByUsers(nodes, e, users, t, n, x) || (WritesLoc(nodes[u], Loc(Temp(t), x)) && Reach(e, u, n))
  {
    assert u in users + [u];
    if WrittenByUsers(nodes, e, users, t, n, x) {
      var v :| v in users && v < |nodes| && WritesLoc(nodes[v], Loc(Temp(t), x)) && Reach(e, v, n);
      assert v in users + [u];
    }
  }

  lemma WritersAreUsers(nodes: seq<Node>, e: Rel, users: seq<nat>, t: nat, n: nat, x: int)
    requires users == UsersOf(nodes, t)
    ensures WrittenByUsers(nodes, e, users, t, n, x) <==> WrittenBefore(nodes, e, t, n, x)
  {
    UsersOfExact(nodes, t);
    if WrittenBefore(nodes, e, t, n, x) {
      var u: nat :| u < |nodes| && WritesLoc(nodes[u], Loc(Temp(t), x)) && Reach(e, u, n);
      var a :| a in nodes[u].accesses && a.Writes() && a.res == Temp(t) && a.Touches(x);
      assert Uses(nodes[u], t);
    }
  }

  /** Access a of node n reads only transient bytes an ordered node wrote. */
  ghost predicate AccessCovered(nodes: seq<Node>, e: Rel, n: nat, a: Access) {
    a.res.Temp? && a.IsRead() ==> forall x :: a.Touches(x) ==> WrittenBefore(nodes, e, a.res.t, n, x)
  }

  ghost predicate NodeCovered(nodes: seq<Node>, e: Rel, n: nat, c: nat)
    requires n < |nodes| && c <= |nodes[n].accesses|
  {
    forall k :: 0 <= k < c ==> AccessCovered(nodes, e, n, nodes[n].accesses[k])
  }

  ghost predicate AllCovered(nodes: seq<Node>, e: Rel, n: nat)
    requires n <= |nodes|
  {
    forall i: nat :: i < n ==> NodeCovered(nodes, e, i, |nodes[i].accesses|)
  }

  method CheckNode(nodes: seq<Node>, succ: seq<seq<nat>>, reach: array<Word>, transients: seq<Transient>, n: nat)
    returns (ok: bool)
    requires |succ| == |nodes| && ClosedFrom(reach[..], succ, 0) && n < |nodes|
    requires forall t: nat :: t < |transients| ==> transients[t].users == UsersOf(nodes, t)
    requires forall a :: a in nodes[n].accesses && a.res.Temp? ==> a.res.t < |transients|
    ensures ok <==> NodeCovered(nodes, Edges(succ), n, |nodes[n].accesses|)
  {
    var accesses := nodes[n].accesses;
    for c := 0 to |accesses|
      invariant NodeCovered(nodes, Edges(succ), n, c)
    {
      var a := accesses[c];
      if a.res.Temp? && a.mode != Write {
        var gap, covered := UncoveredRead(nodes, succ, reach, transients[a.res.t].users, a.res.t, n, a);
        if !covered {
          assert !AccessCovered(nodes, Edges(succ), n, a);
          return false;
        }
      }
    }
    return true;
  }

  /** Accepts a graph exactly when every transient byte a node reads was written by a node the
      inferred edges order before it. */
  method CheckTransientsAreWritten(nodes: seq<Node>, succ: seq<seq<nat>>, reach: array<Word>,
      transients: seq<Transient>)
    returns (ok: bool)
    requires |succ| == |nodes| && ClosedFrom(reach[..], succ, 0)
    requires forall t: nat :: t < |transients| ==> transients[t].users == UsersOf(nodes, t)
    requires forall i, a :: 0 <= i < |nodes| && a in nodes[i].accesses && a.res.Temp? ==> a.res.t < |transients|
    ensures ok <==> ReadsCovered(nodes, Edges(succ))
  {
    ok := true;
    for n := 0 to |nodes|
      invariant AllCovered(nodes, Edges(succ), n)
    {
      ok := CheckNode(nodes, succ, reach, transients, n);
      if !ok {
        CoveredIsReadsCovered(nodes, Edges(succ));
        return false;
      }
    }
    CoveredIsReadsCovered(nodes, Edges(succ));
    return true;
  }

  lemma CoveredIsReadsCovered(nodes: seq<Node>, e: Rel)
    ensures AllCovered(nodes, e, |nodes|) <==> ReadsCovered(nodes, e)
  {
    if AllCovered(nodes, e, |nodes|) {
      forall i: nat, l: Loc | i < |nodes| && l.res.Temp? && ReadsLoc(nodes[i], l)
        ensures exists u: nat :: u < i && WritesLoc(nodes[u], l) && Reach(e, u, i)
      {
        var a :| a in nodes[i].accesses && a.IsRead() && a.res == l.res && a.Touches(l.at);
        var k :| 0 <= k < |nodes[i].accesses| && nodes[i].accesses[k] == a;
        assert NodeCovered(nodes, e, i, |nodes[i].accesses|) && AccessCovered(nodes, e, i, a);
        var u: nat :| u < |nodes| && WritesLoc(nodes[u], Loc(Temp(l.res.t), l.at)) && Reach(e, u, i);
        assert l == Loc(Temp(l.res.t), l.at);
      }
    }
    if ReadsCovered(nodes, e) {
      forall i: nat, k | i < |nodes| && 0 <= k < |nodes[i].accesses|
        ensures AccessCovered(nodes, e, i, nodes[i].accesses[k])
      {
        var a := nodes[i].accesses[k];
        forall x | a.res.Temp? && a.IsRead() && a.Touches(x)
          ensures WrittenBefore(nodes, e, a.res.t, i, x)
        {
          assert ReadsLoc(nodes[i], Loc(a.res, x));
          var u: nat :| u < i && WritesLoc(nodes[u], Loc(a.res, x)) && Reach(e, u, i);
          assert a.res == Temp(a.res.t);
        }
      }
    }
  }

  /** Every transient byte a node reads is written by some node recorded earlier. */
  ghost predicate WrittenEarlier(nodes: seq<Node>) {
    forall i: nat, l: Loc :: i < |nodes| && l.res.Temp? && ReadsLoc(nodes[i], l)
      ==> exists u: nat :: u < i && WritesLoc(nodes[u], l)
  }

  /** Being ordered before the reader adds nothing to being recorded before it: a writer and a later
      reader of one byte conflict, so inference orders them. */
  lemma CoverageIsRecordOrder(nodes: seq<Node>, succ: seq<seq<nat>>)
    requires Inferred(nodes, succ)
    ensures ReadsCovered(nodes, Edges(succ)) <==> WrittenEarlier(nodes)
  {
    if WrittenEarlier(nodes) {
      forall i: nat, l: Loc | i < |nodes| && l.res.Temp? && ReadsLoc(nodes[i], l)
        ensures exists u: nat :: u < i && WritesLoc(nodes[u], l) && Reach(Edges(succ), u, i)
      {
        var u: nat :| u < i && WritesLoc(nodes[u], l);
        WritersConflict(nodes[u], nodes[i], l);
        assert (u, i) in Hazards(nodes);
      }
    }
  }
}
