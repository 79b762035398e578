/** Pending hazards of one resource during edge inference, and why forgetting a covered span is
    safe: whoever covered it is ordered after it and stands in for it from then on. */
module Pending {
  import opened Closure
  import opened Accesses

  /** Writes not yet fully overwritten, and reads since the last write covering their range. */
  datatype ResState = ResState(writers: seq<Span>, readers: seq<Span>)

  type States = map<ResourceRef, ResState>

  function StateOf(st: States, res: ResourceRef): ResState {
    if res in st then st[res] else ResState([], [])
  }

  function Uncovered(spans: seq<Span>, cover: Span): (r: seq<Span>)
    ensures forall s :: s in r <==> s in spans && !cover.Covers(s)
  {
    if spans == [] then []
    else
      var last := spans[|spans| - 1];
      var init := Uncovered(spans[..|spans| - 1], cover);
      assert forall s :: s in spans <==> s in spans[..|spans| - 1] || s == last;
      if cover.Covers(last) then init else init + [last]
  }

  function Committed(s: ResState, a: Span): ResState {
    var readers := if a.access.IsRead() then s.readers + [a] else s.readers;
    if !a.access.Writes() then s.(readers := readers)
    else ResState(Uncovered(s.writers, a) + [a], Uncovered(readers, a))
  }

  /** The pending write or read lies within what a commits, so a stands for it. */
  ghost predicate Inside(s: Span, a: Span) {
    && s.access.res == a.access.res && a.access.off <= s.access.off
    && s.access.off + s.access.size <= a.access.off + a.access.size
  }

  /** What is pending after a commit: a write leaves only what does not lie within it and itself, anything
      else leaves everything; what reads without writing joins the readers. */
  lemma CommittedExactly(s: ResState, a: Span)
    ensures var writes := a.access.mode != Read;
            forall w :: w in Committed(s, a).writers <==>
                        (writes && w == a) || (w in s.writers && !(writes && Inside(w, a)))
    ensures var writes := a.access.mode != Read;
            forall r :: r in Committed(s, a).readers <==>
                        (!writes && r == a) || (r in s.readers && !(writes && Inside(r, a)))
  {
    forall w: Span
      ensures a.Covers(w) <==> Inside(w, a)
    {
    }
  }

  method KeepUncovered(spans: seq<Span>, cover: Span) returns (out: seq<Span>)
    ensures out == Uncovered(spans, cover)
  {
    out := [];
    for i := 0 to |spans|
      invariant out == Uncovered(spans[..i], cover)
    {
      assert spans[..i + 1][..i] == spans[..i];
      if !cover.Covers(spans[i]) {
        out := out + [spans[i]];
      }
    }
    assert spans[..|spans|] == spans;
  }

  method Commit(st: States, a: Span) returns (next: States)
    ensures next == st[a.access.res := Committed(StateOf(st, a.access.res), a)]
  {
    var k := a.access.res;
    var s := if k in st then st[k] else ResState([], []);
    if a.access.IsRead() {
      s := s.(readers := s.readers + [a]);
    }
    if !a.access.Writes() {
      return st[k := s];
    }
    var writers := KeepUncovered(s.writers, a);
    var readers := KeepUncovered(s.readers, a);
    s := ResState(writers + [a], readers);
    return st[k := s];
  }

  // ---- what the pending state knows about the nodes already visited ----

  /** Some pending write over byte x is by node p or by a node ordered after it. */
  ghost predicate WriteSeen(e: Rel, s: ResState, p: nat, x: int) {
    exists w :: w in s.writers && w.access.Touches(x) && (w.node == p || Reach(e, p, w.node))
  }

  ghost predicate ReadSeen(s: ResState, p: nat, x: int) {
    exists r :: r in s.readers && r.access.Touches(x) && r.node == p
  }

  /** Access a of node p is still represented at every byte it touches. */
  ghost predicate Represented(e: Rel, st: States, p: nat, a: Access) {
    forall x: int :: a.Touches(x) ==>
      || WriteSeen(e, StateOf(st, a.res), p, x)
      || (!a.Writes() && ReadSeen(StateOf(st, a.res), p, x))
  }

  /** Every access of nodes before i, and the first c of node i, is represented. */
  ghost predicate AllRepresented(nodes: seq<Node>, e: Rel, st: States, i: nat, c: nat)
    requires i <= |nodes|
    requires i == |nodes| ==> c == 0
  {
    && (forall p: nat, a :: p < i && a in nodes[p].accesses ==> Represented(e, st, p, a))
    && (i < |nodes| ==> forall k :: 0 <= k < c && k < |nodes[i].accesses| ==>
          Represented(e, st, i, nodes[i].accesses[k]))
  }

  /** Pending spans are declared accesses of nodes up to i, filed under their own resource. */
  ghost predicate Genuine(nodes: seq<Node>, st: States, i: nat) {
    && (forall k, w :: k in st && w in st[k].writers ==>
          && w.node <= i && w.node < |nodes| && w.access in nodes[w.node].accesses
          && w.access.res == k && w.access.Writes())
    && (forall k, r :: k in st && r in st[k].readers ==>
          && r.node <= i && r.node < |nodes| && r.access in nodes[r.node].accesses
          && r.access.res == k && r.access.IsRead())
  }

  /** Access b of node i has an edge from every earlier pending span it conflicts with. */
  ghost predicate LinkedAccess(e: Rel, st: States, i: nat, b: Access) {
    && (forall w :: w in StateOf(st, b.res).writers && w.node < i && IntervalConflict(w.access, b)
          ==> (w.node, i) in e)
    && (b.Writes() ==>
          (forall r :: r in StateOf(st, b.res).readers && r.node < i && IntervalConflict(r.access, b)
             ==> (r.node, i) in e))
  }

  ghost predicate Linked(nodes: seq<Node>, e: Rel, st: States, i: nat)
    requires i < |nodes|
  {
    forall b :: b in nodes[i].accesses ==> LinkedAccess(e, st, i, b)
  }

  lemma RepresentedMonotone(nodes: seq<Node>, e: Rel, f: Rel, st: States, i: nat)
    requires i <= |nodes| && e <= f
    requires AllRepresented(nodes, e, st, i, 0)
    ensures AllRepresented(nodes, f, st, i, 0)
  {
    forall p: nat, a, x: int | p < i && a in nodes[p].accesses && a.Touches(x)
      ensures || WriteSeen(f, StateOf(st, a.res), p, x)
              || (!a.Writes() && ReadSeen(StateOf(st, a.res), p, x))
    {
      assert Represented(e, st, p, a);
      if WriteSeen(e, StateOf(st, a.res), p, x) {
        var w :| w in StateOf(st, a.res).writers && w.access.Touches(x)
                 && (w.node == p || Reach(e, p, w.node));
        if w.node != p {
          ReachMore(e, f, p, w.node);
        }
      }
    }
  }

  /** A represented access stays represented when node i commits one more of its own. */
  lemma RepresentedKept(e: Rel, st: States, i: nat, a: Span, p: nat, prior: Access)
    requires a.node == i && p <= i && LinkedAccess(e, st, i, a.access)
    requires Represented(e, st, p, prior)
    requires forall w :: w in StateOf(st, prior.res).writers ==>
             w.node <= i && w.access.res == prior.res && w.access.Writes()
    requires forall r :: r in StateOf(st, prior.res).readers ==> r.access.res == prior.res
    ensures Represented(e, st[a.access.res := Committed(StateOf(st, a.access.res), a)], p, prior)
  {
    var next := st[a.access.res := Committed(StateOf(st, a.access.res), a)];
    if prior.res == a.access.res {
      var s, s' := StateOf(st, prior.res), StateOf(next, prior.res);
      assert s' == Committed(s, a);
      forall x: int | prior.Touches(x)
        ensures WriteSeen(e, s', p, x) || (!prior.Writes() && ReadSeen(s', p, x))
      {
        if WriteSeen(e, s, p, x) {
          var w :| w in s.writers && w.access.Touches(x) && (w.node == p || Reach(e, p, w.node));
          if a.access.Writes() && a.Covers(w) {
            WriterReplaced(e, st, i, a, p, w);
            assert a in s'.writers;
          } else {
            assert w in s'.writers;
          }
        } else {
          var r :| r in s.readers && r.access.Touches(x) && r.node == p;
          if a.access.Writes() && a.Covers(r) {
            assert a in s'.writers && a.access.Touches(x);
            if p < i {
              assert IntervalConflict(r.access, a.access);
              assert Reach(e, p, i);
            }
          } else {
            assert r in s'.readers;
          }
        }
      }
    } else {
      assert StateOf(next, prior.res) == StateOf(st, prior.res);
      forall x: int | prior.Touches(x)
        ensures WriteSeen(e, StateOf(next, prior.res), p, x) ||
                (!prior.Writes() && ReadSeen(StateOf(next, prior.res), p, x))
      {
        assert WriteSeen(e, StateOf(st, prior.res), p, x) ||
               (!prior.Writes() && ReadSeen(StateOf(st, prior.res), p, x));
      }
    }
  }

  lemma WriterReplaced(e: Rel, st: States, i: nat, a: Span, p: nat, w: Span)
    requires a.node == i && LinkedAccess(e, st, i, a.access) && a.access.Writes()
    requires w in StateOf(st, a.access.res).writers && w.node <= i && w.access.res == a.access.res
    requires w.access.Writes() && w.access.size > 0 && a.Covers(w)
    requires w.node == p || Reach(e, p, w.node)
    ensures a.node == p || Reach(e, p, a.node)
  {
    if w.node < i {
      assert IntervalConflict(w.access, a.access);
      assert Reach(e, w.node, i);
      if w.node != p {
        ReachTransitive(e, p, w.node, i);
      }
    }
  }

  /** Committing access c of node i moves every invariant on by one access. */
  lemma CommitStep(nodes: seq<Node>, e: Rel, st: States, i: nat, c: nat, a: Span)
    requires i < |nodes| && c < |nodes[i].accesses|
    requires a == Span(nodes[i].accesses[c], i)
    requires Genuine(nodes, st, i) && Linked(nodes, e, st, i)
    requires AllRepresented(nodes, e, st, i, c)
    ensures var next := st[a.access.res := Committed(StateOf(st, a.access.res), a)];
            && Genuine(nodes, next, i) && Linked(nodes, e, next, i)
            && AllRepresented(nodes, e, next, i, c + 1)
  {
    var next := st[a.access.res := Committed(StateOf(st, a.access.res), a)];
    assert LinkedAccess(e, st, i, a.access);
    forall p: nat, b | p < i && b in nodes[p].accesses
      ensures Represented(e, next, p, b)
    {
      assert Represented(e, st, p, b);
      RepresentedKept(e, st, i, a, p, b);
    }
    forall k | 0 <= k < c + 1
      ensures Represented(e, next, i, nodes[i].accesses[k])
    {
      if k < c {
        assert Represented(e, st, i, nodes[i].accesses[k]);
        RepresentedKept(e, st, i, a, i, nodes[i].accesses[k]);
      } else if a.access.Writes() {
        assert a in StateOf(next, a.access.res).writers;
      } else {
        assert a in StateOf(next, a.access.res).readers;
      }
    }
    forall b | b in nodes[i].accesses
      ensures LinkedAccess(e, next, i, b)
    {
      assert LinkedAccess(e, st, i, b);
    }
  }

  /** An access linked against represented state orders its node after every node whose access
      it shares a byte with. */
  lemma LinkedOrdersAccess(e: Rel, st: States, i: nat, p: nat, a: Access, b: Access, x: int)
    requires p < i && ByteConflict(a, b, x)
    requires Represented(e, st, p, a) && LinkedAccess(e, st, i, b)
    requires forall w :: w in StateOf(st, a.res).writers ==> w.node <= i && w.access.res == a.res && w.access.Writes()
    requires forall r :: r in StateOf(st, a.res).readers ==> r.access.res == a.res
    ensures Reach(e, p, i)
  {
    var s := StateOf(st, a.res);
    if WriteSeen(e, s, p, x) {
      var w :| w in s.writers && w.access.Touches(x) && (w.node == p || Reach(e, p, w.node));
      if w.node < i {
        assert IntervalConflict(w.access, b);
        assert Reach(e, w.node, i);
        if w.node != p {
          ReachTransitive(e, p, w.node, i);
        }
      }
    } else {
      var r :| r in s.readers && r.access.Touches(x) && r.node == p;
      assert IntervalConflict(r.access, b);
    }
  }

  /** Linking node i against represented state orders it after every node it conflicts with. */
  lemma LinkedOrders(nodes: seq<Node>, e: Rel, st: States, i: nat, p: nat)
    requires p < i < |nodes|
    requires Genuine(nodes, st, i) && Linked(nodes, e, st, i)
    requires AllRepresented(nodes, e, st, i, 0)
    requires NodesConflict(nodes[p], nodes[i])
    ensures Reach(e, p, i)
  {
    var a, b, x: int :| a in nodes[p].accesses && b in nodes[i].accesses && ByteConflict(a, b, x);
    assert Represented(e, st, p, a) by { assert AllRepresented(nodes, e, st, i, 0); }
    LinkedOrdersAccess(e, st, i, p, a, b, x);
  }
}
