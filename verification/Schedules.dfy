/** Barriers as a promise about execution: nodes may run in any order that never crosses one. */
module Schedules {
  import opened Closure
  import opened Accesses
  import opened Barriers
  import opened Execution
  import opened Inference
  import opened Packing

  /** Every node once, with nodes moved only among those between two consecutive barriers: when a
      barrier stands before p, everything recorded before p runs before everything from p on. */
  ghost predicate RespectsBarriers(bars: seq<bool>, s: seq<nat>) {
    && (forall i: nat :: i < |bars| <==> i in s)
    && (forall q: nat, r: nat :: q < r < |s| ==> s[q] != s[r] && !Crosses(bars, s[r], s[q]))
  }

  /** A barrier stands after node lo and at or before node hi. */
  ghost predicate Crosses(bars: seq<bool>, lo: nat, hi: nat) {
    exists p: nat :: p < |bars| && bars[p] && lo < p <= hi
  }

  /** Every dependency path crosses a barrier. */
  lemma PathCrosses(nodes: seq<Node>, succ: seq<seq<nat>>, bars: seq<bool>, a: nat, b: nat)
    requires Inferred(nodes, succ) && |bars| == |nodes| && Separates(nodes, Positions(bars))
    requires Reach(Edges(succ), a, b)
    ensures Crosses(bars, a, b)
  {
    var m := ReachFirst(Edges(succ), a, b);
    assert (a, m) in IntervalHazards(nodes);
    var q :| q in Positions(bars) && a < q <= m;
  }

  /** Executions that only permute nodes between barriers keep every inferred dependency. */
  lemma BarriersImplyOrder(nodes: seq<Node>, succ: seq<seq<nat>>, bars: seq<bool>, s: seq<nat>)
    requires Inferred(nodes, succ) && |bars| == |nodes| && Separates(nodes, Positions(bars))
    requires RespectsBarriers(bars, s)
    ensures LinearExtension(Edges(succ), s, |nodes|)
  {
    forall q: nat, r: nat | q < r < |s|
      ensures s[q] != s[r] && !Reach(Edges(succ), s[r], s[q])
    {
      if Reach(Edges(succ), s[r], s[q]) {
        PathCrosses(nodes, succ, bars, s[r], s[q]);
      }
    }
  }

  /** A barrier before every node leaves record order as the only execution. */
  lemma SerialIsRecordOrder(bars: seq<bool>, s: seq<nat>, q: nat, r: nat)
    requires RespectsBarriers(bars, s) && forall p :: 0 <= p < |bars| ==> bars[p]
    requires q < r < |s|
    ensures s[q] < s[r]
  {
    if s[r] < s[q] {
      assert s[q] in s && s[q] < |bars| && bars[s[q]];
      assert Crosses(bars, s[r], s[q]);
    }
  }

  /** Where two transients share bytes, the hazard barriers alone already put one between the last
      user of the first and the first user of the second. */
  lemma HandoverAlreadySeparated(nodes: seq<Node>, succ: seq<seq<nat>>, planned: seq<bool>, homes: seq<Placement>,
    t: nat, u: nat)
    requires Inferred(nodes, succ) && |planned| == |nodes| && Greedy(nodes, planned, |nodes|)
    requires HomesApart(Edges(succ), homes) && t < |homes| && u < |homes| && t != u && HandsOver(homes[t], homes[u])
    ensures var earlier := if homes[t].users[0] > homes[u].users[0] then homes[u].users else homes[t].users;
            Crosses(planned, earlier[|earlier| - 1], HandoverNode(homes[t], homes[u]))
  {
    GreedySeparates(nodes, planned);
    HandoverOrdered(Edges(succ), homes, t, u);
    var earlier := if homes[t].users[0] > homes[u].users[0] then homes[u].users else homes[t].users;
    PathCrosses(nodes, succ, planned, earlier[|earlier| - 1], HandoverNode(homes[t], homes[u]));
  }
}
