/** Edge inference in record order, and the packed transitive closure of what it infers. */
module Inference {
  import opened Closure
  import opened Accesses
  import opened Pending

  // ---- adjacency lists ----

  ghost function Edges(succ: seq<seq<nat>>): Rel {
    set a: nat, b: nat | a < |succ| && b in succ[a] :: (a, b)
  }

  /** Predecessor lists are the successor lists read backwards, and no list repeats an entry. */
  ghost predicate Mirrored(succ: seq<seq<nat>>, pred: seq<seq<nat>>) {
    && |succ| == |pred|
    && (forall a: nat, b: nat :: a < |succ| && b < |succ| ==> (b in succ[a] <==> a in pred[b]))
    && (forall a: nat, b :: a < |succ| && (b in succ[a] || b in pred[a]) ==> b < |succ|)
    && (forall a :: 0 <= a < |succ| ==> NoRepeats(succ[a]))
  }

  ghost predicate NoRepeats(s: seq<nat>) {
    forall i, j :: 0 <= i < j < |s| ==> s[i] != s[j]
  }

  /** Records one dependency, ignoring a duplicate and a node's dependency on itself. */
  method AddEdge(succ: seq<seq<nat>>, pred: seq<seq<nat>>, from: nat, to: nat)
    returns (succ': seq<seq<nat>>, pred': seq<seq<nat>>)
    requires Mirrored(succ, pred) && from <= to < |succ|
    ensures Mirrored(succ', pred') && |succ'| == |succ|
    ensures Edges(succ') == Edges(succ) + if from == to then {} else {(from, to)}
  {
    if from == to || to in succ[from] {
      return succ, pred;
    }
    assert from !in pred[to];
    succ' := succ[from := succ[from] + [to]];
    pred' := pred[to := pred[to] + [from]];
    Appended(succ[from], to);
    Appended(pred[to], from);
    forall a: nat, b: nat | a < |succ'| && b < |succ'|
      ensures b in succ'[a] <==> a in pred'[b]
      ensures b in succ'[a] <==> b in succ[a] || (a, b) == (from, to)
    {
      assert b in succ[a] <==> a in pred[b];
      assert b in succ'[a] <==> b in succ[a] || (a, b) == (from, to);
      assert a in pred'[b] <==> a in pred[b] || (a, b) == (from, to);
    }
  }

  lemma Appended(s: seq<nat>, x: nat)
    ensures forall y :: y in s + [x] <==> y in s || y == x
    ensures NoRepeats(s) && x !in s ==> NoRepeats(s + [x])
  {
    forall i, j | 0 <= i < j < |s| + 1 && NoRepeats(s) && x !in s
      ensures (s + [x])[i] != (s + [x])[j]
    {
    }
  }

  /** Adds an edge to node b.node from every span that overlaps b. */
  method LinkSpans(nodes: seq<Node>, succ: seq<seq<nat>>, pred: seq<seq<nat>>, spans: seq<Span>, b: Span)
    returns (succ': seq<seq<nat>>, pred': seq<seq<nat>>)
    requires Mirrored(succ, pred) && |succ| == |nodes| && b.node < |nodes| && b.access in nodes[b.node].accesses
    requires forall s :: s in spans ==>
      s.node < b.node && s.access in nodes[s.node].accesses && (s.access.Writes() || b.access.Writes())
    requires Edges(succ) <= IntervalHazards(nodes)
    ensures Mirrored(succ', pred') && |succ'| == |nodes|
    ensures Edges(succ) <= Edges(succ') <= IntervalHazards(nodes)
    ensures forall s :: s in spans && s.Overlaps(b) ==> (s.node, b.node) in Edges(succ')
  {
    succ', pred' := succ, pred;
    for i := 0 to |spans|
      invariant Mirrored(succ', pred') && |succ'| == |nodes|
      invariant Edges(succ) <= Edges(succ') <= IntervalHazards(nodes)
      invariant forall k :: 0 <= k < i && spans[k].Overlaps(b) ==> (spans[k].node, b.node) in Edges(succ')
    {
      var s := spans[i];
      if s.Overlaps(b) {
        assert IntervalConflict(s.access, b.access);
        assert NodesInterval(nodes[s.node], nodes[b.node]);
        succ', pred' := AddEdge(succ', pred', s.node, b.node);
      }
    }
  }

  /** Classifies one access of node i against the pending state left by earlier nodes. */
  method LinkAccess(nodes: seq<Node>, succ: seq<seq<nat>>, pred: seq<seq<nat>>, st: States, b: Span)
    returns (succ': seq<seq<nat>>, pred': seq<seq<nat>>)
    requires Mirrored(succ, pred) && |succ| == |nodes| && b.node < |nodes| && b.access in nodes[b.node].accesses
    requires Before(nodes, StateOf(st, b.access.res), b.node)
    requires Edges(succ) <= IntervalHazards(nodes)
    ensures Mirrored(succ', pred') && |succ'| == |nodes|
    ensures Edges(succ) <= Edges(succ') <= IntervalHazards(nodes)
    ensures LinkedAccess(Edges(succ'), st, b.node, b.access)
  {
    succ', pred' := succ, pred;
    if b.access.res !in st {
      return;
    }
    var s := st[b.access.res];
    if b.access.IsRead() {
      succ', pred' := LinkSpans(nodes, succ', pred', s.writers, b);
    }
    if b.access.Writes() {
      succ', pred' := LinkSpans(nodes, succ', pred', s.writers, b);
      succ', pred' := LinkSpans(nodes, succ', pred', s.readers, b);
    }
    assert forall w :: w in s.writers && IntervalConflict(w.access, b.access) ==> w.Overlaps(b);
    assert forall r :: r in s.readers && IntervalConflict(r.access, b.access) ==> r.Overlaps(b);
  }

  /** Every pending span of one resource belongs to a node before i. */
  ghost predicate Before(nodes: seq<Node>, s: ResState, i: nat) {
    && (forall w :: w in s.writers ==>
          w.node < i && w.node < |nodes| && w.access in nodes[w.node].accesses && w.access.Writes())
    && (forall r :: r in s.readers ==> r.node < i && r.node < |nodes| && r.access in nodes[r.node].accesses)
  }

  ghost predicate AllBefore(nodes: seq<Node>, st: States, i: nat) {
    forall k :: k in st ==> Before(nodes, st[k], i)
  }

  /** Classifies every access of node i before any of them is committed. */
  method LinkNode(nodes: seq<Node>, succ: seq<seq<nat>>, pred: seq<seq<nat>>, st: States, i: nat)
    returns (succ': seq<seq<nat>>, pred': seq<seq<nat>>)
    requires Mirrored(succ, pred) && |succ| == |nodes| && i < |nodes|
    requires AllBefore(nodes, st, i)
    requires Edges(succ) <= IntervalHazards(nodes)
    ensures Mirrored(succ', pred') && |succ'| == |nodes|
    ensures Edges(succ) <= Edges(succ') <= IntervalHazards(nodes)
    ensures Linked(nodes, Edges(succ'), st, i)
  {
    succ', pred' := succ, pred;
    var accesses := nodes[i].accesses;
    for k := 0 to |accesses|
      invariant Mirrored(succ', pred') && |succ'| == |nodes|
      invariant Edges(succ) <= Edges(succ') <= IntervalHazards(nodes)
      invariant forall j :: 0 <= j < k ==> LinkedAccess(Edges(succ'), st, i, accesses[j])
    {
      ghost var e := Edges(succ');
      succ', pred' := LinkAccess(nodes, succ', pred', st, Span(accesses[k], i));
      forall j | 0 <= j < k
        ensures LinkedAccess(Edges(succ'), st, i, accesses[j])
      {
        assert LinkedAccess(e, st, i, accesses[j]);
      }
    }
  }

  method CommitNode(nodes: seq<Node>, ghost e: Rel, st: States, i: nat) returns (next: States)
    requires i < |nodes| && AllBefore(nodes, st, i) && FiledByResource(st)
    requires Linked(nodes, e, st, i) && AllRepresented(nodes, e, st, i, 0)
    ensures AllBefore(nodes, next, i + 1) && FiledByResource(next)
    ensures AllRepresented(nodes, e, next, i + 1, 0)
  {
    next := st;
    var accesses := nodes[i].accesses;
    for c := 0 to |accesses|
      invariant Genuine(nodes, next, i) && Linked(nodes, e, next, i) && AllRepresented(nodes, e, next, i, c)
    {
      CommitStep(nodes, e, next, i, c, Span(accesses[c], i));
      next := Commit(next, Span(accesses[c], i));
    }
    forall p: nat, a | p < i + 1 && a in nodes[p].accesses
      ensures Represented(e, next, p, a)
    {
      if p == i {
        var k :| 0 <= k < |accesses| && accesses[k] == a;
      }
    }
  }

  ghost predicate FiledByResource(st: States) {
    && (forall k, w :: k in st && w in st[k].writers ==> w.access.res == k)
    && (forall k, r :: k in st && r in st[k].readers ==> r.access.res == k && r.access.IsRead())
  }

  /** What edge inference promises: edges only between nodes whose declared ranges meet, each from
      an earlier node to a later one, and a path between every two nodes that share a byte one of
      them writes. */
  ghost predicate Inferred(nodes: seq<Node>, succ: seq<seq<nat>>) {
    && |succ| == |nodes|
    && Edges(succ) <= IntervalHazards(nodes)
    && forall i: nat, j: nat :: (i, j) in Hazards(nodes) ==> Reach(Edges(succ), i, j)
  }

  ghost predicate OrderedBelow(nodes: seq<Node>, e: Rel, i: nat) {
    forall p: nat, q: nat :: q < i && (p, q) in Hazards(nodes) ==> Reach(e, p, q)
  }

  /** Linking node i carries the walk's invariants over to the larger edge set. */
  lemma NodeLinked(nodes: seq<Node>, e: Rel, f: Rel, st: States, i: nat)
    requires i < |nodes| && e <= f
    requires AllBefore(nodes, st, i) && FiledByResource(st) && Linked(nodes, f, st, i)
    requires AllRepresented(nodes, e, st, i, 0) && OrderedBelow(nodes, e, i)
    ensures AllRepresented(nodes, f, st, i, 0) && OrderedBelow(nodes, f, i + 1)
  {
    RepresentedMonotone(nodes, e, f, st, i);
    forall p: nat, q: nat | q < i + 1 && (p, q) in Hazards(nodes)
      ensures Reach(f, p, q)
    {
      OrderedMore(nodes, e, f, st, i, p, q);
    }
  }

  /** A hazard of an earlier node stays ordered; one of node i is ordered by its new edges. */
  lemma OrderedMore(nodes: seq<Node>, e: Rel, f: Rel, st: States, i: nat, p: nat, q: nat)
    requires i < |nodes| && e <= f && q <= i && (p, q) in Hazards(nodes)
    requires AllBefore(nodes, st, i) && FiledByResource(st) && Linked(nodes, f, st, i)
    requires AllRepresented(nodes, f, st, i, 0) && OrderedBelow(nodes, e, i)
    ensures Reach(f, p, q)
  {
    if q < i {
      ReachMore(e, f, p, q);
    } else {
      LinkedOrders(nodes, f, st, i, p);
    }
  }

  /** The first walk in record order. */
  method InferEdges(nodes: seq<Node>) returns (succ: seq<seq<nat>>, pred: seq<seq<nat>>)
    ensures Mirrored(succ, pred) && Inferred(nodes, succ)
  {
    var st: States := map[];
    succ := seq(|nodes|, _ => []);
    pred := seq(|nodes|, _ => []);
    for i := 0 to |nodes|
      invariant Mirrored(succ, pred) && |succ| == |nodes| && Edges(succ) <= IntervalHazards(nodes)
      invariant AllBefore(nodes, st, i) && FiledByResource(st)
      invariant AllRepresented(nodes, Edges(succ), st, i, 0) && OrderedBelow(nodes, Edges(succ), i)
    {
      ghost var e := Edges(succ);
      succ, pred := LinkNode(nodes, succ, pred, st, i);
      NodeLinked(nodes, e, Edges(succ), st, i);
      st := CommitNode(nodes, Edges(succ), st, i);
    }
  }

  /** Dropping covered spans loses nothing: with no empty range declared, the inferred edges order
      exactly the pairs that a chain of byte conflicts orders. */
  lemma InferredClosure(nodes: seq<Node>, succ: seq<seq<nat>>, a: nat, b: nat)
    requires Inferred(nodes, succ)
    ensures Reach(Hazards(nodes), a, b) ==> Reach(Edges(succ), a, b)
    ensures Reach(Edges(succ), a, b) ==> Reach(IntervalHazards(nodes), a, b)
    ensures NonEmptyRanges(nodes) ==> (Reach(Edges(succ), a, b) <==> Reach(Hazards(nodes), a, b))
  {
    HazardRelations(nodes);
    if Reach(Edges(succ), a, b) {
      ReachMore(Edges(succ), IntervalHazards(nodes), a, b);
    }
    if Reach(Hazards(nodes), a, b) {
      assert forall p :: p in Hazards(nodes) ==> (p.0, p.1) in Hazards(nodes);
      ReachLift(Hazards(nodes), Edges(succ), a, b);
    }
  }

  /** The assertion against a builder defect: it cannot fail on inferred edges. */
  method AssertAcyclic(nodes: seq<Node>, succ: seq<seq<nat>>) returns (ok: bool)
    requires Inferred(nodes, succ)
    ensures ok
  {
    for from := 0 to |succ| {
      for k := 0 to |succ[from]| {
        assert (from, succ[from][k]) in Edges(succ);
        if succ[from][k] <= from {
          return false;
        }
      }
    }
    return true;
  }
}
