/** The barrier walk: the state it keeps per range, and what the positions it picks mean. */
module Barriers {
  import opened Accesses
  import opened Sets

  // ---- the plan, as a property of the chosen positions ----

  /** The last position below i holding a barrier; position 0 always holds the head barrier. */
  ghost function LastBarrier(bars: seq<bool>, i: nat): (b: nat)
    requires 0 < i <= |bars| && bars[0]
    ensures b < i && bars[b]
    ensures forall q :: b < q < i ==> !bars[q]
  {
    if bars[i - 1] then i - 1 else LastBarrier(bars, i - 1)
  }

  /** Some node at or after position b conflicts with node i. */
  ghost predicate PendingSince(nodes: seq<Node>, b: nat, i: nat)
    requires i < |nodes|
  {
    exists p: nat :: b <= p < i && NodesInterval(nodes[p], nodes[i])
  }

  ghost predicate GreedyAt(nodes: seq<Node>, bars: seq<bool>, i: nat)
    requires 0 < i < |nodes| == |bars| && bars[0]
  {
    bars[i] <==> PendingSince(nodes, LastBarrier(bars, i), i)
  }

  /** A barrier stands before exactly the head and the nodes with a hazard still pending. */
  ghost predicate Greedy(nodes: seq<Node>, bars: seq<bool>, n: nat)
    requires n <= |nodes| == |bars|
  {
    n > 0 ==>
      && bars[0]
      && forall i: nat :: 0 < i < n ==> GreedyAt(nodes, bars, i)
  }

  /** A barrier position between every interval hazard's two nodes. */
  ghost predicate Separates(nodes: seq<Node>, positions: set<nat>) {
    forall i: nat, j: nat :: i < j < |nodes| && NodesInterval(nodes[i], nodes[j])
      ==> exists q :: q in positions && i < q <= j
  }

  ghost function Positions(bars: seq<bool>): set<nat> {
    set q: nat | q < |bars| && bars[q]
  }

  /** The plan orders every hazard. */
  lemma GreedySeparates(nodes: seq<Node>, bars: seq<bool>)
    requires |bars| == |nodes| && Greedy(nodes, bars, |nodes|)
    ensures Separates(nodes, Positions(bars))
  {
    forall i: nat, j: nat | i < j < |nodes| && NodesInterval(nodes[i], nodes[j])
      ensures exists q :: q in Positions(bars) && i < q <= j
    {
      var b := LastBarrier(bars, j);
      if b > i {
        assert b in Positions(bars);
      } else {
        assert GreedyAt(nodes, bars, j) && PendingSince(nodes, b, j);
        assert j in Positions(bars);
      }
    }
  }

  ghost function Below(positions: set<nat>, m: nat): set<nat> {
    set q | q in positions && 0 < q <= m
  }

  /** No separating set of positions is smaller than the plan without its head barrier: the
      hazards that forced successive barriers span disjoint intervals. */
  lemma {:induction false} GreedyOptimal(nodes: seq<Node>, bars: seq<bool>, other: set<nat>)
    requires 0 < |bars| == |nodes| && Greedy(nodes, bars, |nodes|)
    requires Separates(nodes, other)
    ensures |Positions(bars) - {0}| <= |other|
  {
    var n := |bars|;
    GreedyCount(nodes, bars, other, n);
    assert Positions(bars) - {0} == Below(Positions(bars), LastBarrier(bars, n));
    assert Below(other, LastBarrier(bars, n)) <= other;
    SubsetSize(Below(other, LastBarrier(bars, n)), other);
  }

  lemma {:induction false} GreedyCount(nodes: seq<Node>, bars: seq<bool>, other: set<nat>, m: nat)
    requires 0 < m <= |bars| == |nodes| && Greedy(nodes, bars, |nodes|)
    requires Separates(nodes, other)
    ensures |Below(Positions(bars), LastBarrier(bars, m))| <= |Below(other, LastBarrier(bars, m))|
  {
    if m == 1 {
      assert Below(Positions(bars), 0) == {};
    } else {
      GreedyCount(nodes, bars, other, m - 1);
      if bars[m - 1] {
        var q := Forced(nodes, bars, other, m - 1);
        CountStep(bars, other, LastBarrier(bars, m - 1), q, m - 1);
      } else {
        assert LastBarrier(bars, m) == LastBarrier(bars, m - 1);
      }
    }
  }

  lemma CountStep(bars: seq<bool>, other: set<nat>, b: nat, q: nat, m: nat)
    requires b < m < |bars| && q in other && b < q <= m
    requires forall x :: b < x < m ==> !bars[x]
    requires |Below(Positions(bars), b)| <= |Below(other, b)|
    ensures |Below(Positions(bars), m)| <= |Below(other, m)|
  {
    var mine, mine', theirs, theirs' :=
      Below(Positions(bars), b), Below(Positions(bars), m), Below(other, b), Below(other, m);
    assert mine' <= mine + {m};
    assert q !in theirs && theirs + {q} <= theirs';
    SubsetSize(mine', mine + {m});
    SubsetSize(theirs + {q}, theirs');
  }

  /** The hazard behind the barrier at m puts a position of any separating set after the one before. */
  lemma Forced(nodes: seq<Node>, bars: seq<bool>, other: set<nat>, m: nat) returns (q: nat)
    requires 0 < m < |bars| == |nodes| && Greedy(nodes, bars, |nodes|) && bars[m]
    requires Separates(nodes, other)
    ensures q in other && LastBarrier(bars, m) < q <= m
  {
    assert GreedyAt(nodes, bars, m);
    var p: nat :| LastBarrier(bars, m) <= p < m && NodesInterval(nodes[p], nodes[m]);
    q :| q in other && p < q <= m;
  }

  // ---- the state of the walk ----

  /** What one exact byte range has seen since the last barrier. */
  class RangeState {
    const access: Access
    var written: bool
    var lastWriteNode: nat
    var readNodes: seq<nat>

    constructor (a: Access)
      ensures access == a && !written && readNodes == []
    {
      access := a;
      written, lastWriteNode, readNodes := false, 0, [];
    }

    predicate SameRange(a: Access) {
      access.res == a.res && access.off == a.off && access.size == a.size
    }

    /** This range must be ordered before access a: the test of the walk's inner loop. */
    predicate Demands(a: Access)
      reads this
    {
      && access.res == a.res && access.off < a.off + a.size && a.off < access.off + access.size
      && ((a.IsRead() && written) || (a.Writes() && (written || readNodes != [])))
    }

    method Update(a: Access, node: nat, ghost recent: iset<Access>)
      requires SameRange(a) && Faithful(this, recent)
      modifies this
      ensures Faithful(this, recent + iset{a})
      ensures written == (old(written) || a.Writes())
      ensures readNodes == if a.Writes() then [] else if a.IsRead() then old(readNodes) + [node] else old(readNodes)
      ensures lastWriteNode == if a.Writes() then node else old(lastWriteNode)
    {
      assert a in recent + iset{a};
      if a.IsRead() {
        readNodes := readNodes + [node];
      }
      if a.Writes() {
        written := true;
        lastWriteNode := node;
        // Whatever clashes later with those reads clashes with this write as well.
        readNodes := [];
      }
    }
  }

  type RangeStates = map<ResourceRef, seq<RangeState>>

  ghost function Objects(states: RangeStates): set<RangeState> {
    set k, rs | k in states && rs in states[k] :: rs
  }

  /** Lists are filed under their resource. */
  ghost predicate FiledUnder(states: RangeStates) {
    forall k, rs :: k in states && rs in states[k] ==> rs.access.res == k
  }

  /** Lists are filed under their resource and hold each exact range once. */
  ghost predicate Filed(states: RangeStates) {
    && FiledUnder(states)
    && (forall k, x, y :: k in states && 0 <= x < y < |states[k]|
          ==> !states[k][x].SameRange(states[k][y].access))
  }

  function ListOf(states: RangeStates, res: ResourceRef): (list: seq<RangeState>)
    ensures forall rs :: rs in list ==> rs in Objects(states)
  {
    if res in states then assert forall rs :: rs in states[res] ==> rs in Objects(states); states[res] else []
  }

  ghost predicate Present(list: seq<RangeState>, a: Access) {
    exists x :: 0 <= x < |list| && list[x].SameRange(a)
  }

  ghost predicate WroteSame(recent: iset<Access>, rs: RangeState) {
    exists a :: a in recent && rs.SameRange(a) && a.Writes()
  }

  ghost predicate ReadSame(recent: iset<Access>, rs: RangeState) {
    exists a :: a in recent && rs.SameRange(a) && a.IsRead()
  }

  /** A range remembers whether it was written, and whether it was read, since the last barrier. */
  ghost predicate Faithful(rs: RangeState, recent: iset<Access>)
    reads rs
  {
    && (rs.written <==> WroteSame(recent, rs))
    && (rs.readNodes != [] ==> ReadSame(recent, rs))
    && (ReadSame(recent, rs) ==> rs.written || rs.readNodes != [])
  }

  /** The states remember exactly what was accessed since the last barrier. */
  ghost predicate Remembers(states: RangeStates, recent: iset<Access>)
    reads Objects(states)
  {
    && (forall a :: a in recent ==> Present(ListOf(states, a.res), a))
    && (forall rs :: rs in Objects(states) ==> Faithful(rs, recent))
  }

  method AnyDemands(list: seq<RangeState>, a: Access) returns (hit: bool)
    ensures hit <==> ListDemands(list, a)
  {
    hit := false;
    for x := 0 to |list|
      invariant hit <==> exists y :: 0 <= y < x && list[y].Demands(a)
    {
      if list[x].Demands(a) {
        hit := true;
      }
    }
  }

  ghost predicate ListDemands(list: seq<RangeState>, a: Access)
    reads list
  {
    exists y :: 0 <= y < |list| && list[y].Demands(a)
  }

  /** Some range demands an access exactly when it conflicts with a recent one. */
  ghost predicate DemandsExactly(states: RangeStates, recent: iset<Access>)
    reads Objects(states)
  {
    forall a: Access :: ListDemands(ListOf(states, a.res), a) <==> Conflicted(recent, a)
  }

  /** A barrier is needed before a node exactly when some range demands it. */
  method Needs(states: RangeStates, accesses: seq<Access>, ghost recent: iset<Access>) returns (need: bool)
    requires DemandsExactly(states, recent)
    ensures need <==> exists j :: 0 <= j < |accesses| && Conflicted(recent, accesses[j])
  {
    need := false;
    for i := 0 to |accesses|
      invariant need <==> exists j :: 0 <= j < i && Conflicted(recent, accesses[j])
    {
      var hit := AnyDemands(ListOf(states, accesses[i].res), accesses[i]);
      need := need || hit;
    }
  }

  ghost predicate Conflicted(recent: iset<Access>, a: Access) {
    exists b :: b in recent && IntervalConflict(b, a)
  }

  lemma RemembersExactly(states: RangeStates, recent: iset<Access>)
    requires FiledUnder(states) && Remembers(states, recent)
    ensures DemandsExactly(states, recent)
  {
    forall a: Access
      ensures ListDemands(ListOf(states, a.res), a) <==> Conflicted(recent, a)
    {
      var list := ListOf(states, a.res);
      if Conflicted(recent, a) {
        var b :| b in recent && IntervalConflict(b, a);
        assert Present(list, b);
        var x :| 0 <= x < |list| && list[x].SameRange(b);
        assert list[x] in list;
        assert Faithful(list[x], recent) && list[x].Demands(a);
      }
      if ListDemands(list, a) {
        var x :| 0 <= x < |list| && list[x].Demands(a);
        assert list[x] in list;
        DemandRecent(list[x], recent, a);
      }
    }
  }

  lemma DemandRecent(rs: RangeState, recent: iset<Access>, a: Access)
    requires Faithful(rs, recent) && rs.Demands(a)
    ensures Conflicted(recent, a)
  {
    if rs.written {
      var b :| b in recent && rs.SameRange(b) && b.Writes();
      assert IntervalConflict(b, a);
    } else {
      var b :| b in recent && rs.SameRange(b) && b.IsRead();
      assert IntervalConflict(b, a);
    }
  }

  /** Afterwards no range is waiting: what came before the barrier is ordered with all that follows. */
  method ClearPending(states: RangeStates)
    modifies Objects(states)
    ensures forall rs :: rs in Objects(states) ==> !rs.written && rs.readNodes == []
  {
    var left := states.Keys;
    while left != {}
      invariant left <= states.Keys
      invariant forall k, rs :: k in states && k !in left && rs in states[k] ==> !rs.written && rs.readNodes == []
      decreases left
    {
      var k :| k in left;
      for x := 0 to |states[k]|
        invariant forall j, rs :: j in states && j !in left && rs in states[j] ==> !rs.written && rs.readNodes == []
        invariant forall y :: 0 <= y < x ==> !states[k][y].written && states[k][y].readNodes == []
      {
        var rs := states[k][x];
        assert rs in states[k];
        rs.written := false;
        rs.readNodes := [];
      }
      left := left - {k};
    }
  }

  lemma ClearedRemembers(states: RangeStates)
    requires forall rs :: rs in Objects(states) ==> !rs.written && rs.readNodes == []
    ensures Remembers(states, iset{})
  {
  }

  lemma OthersFaithful(states: RangeStates, recent: iset<Access>, a: Access, rs: RangeState)
    requires Remembers(states, recent) && rs in Objects(states) && !rs.SameRange(a)
    ensures Faithful(rs, recent + iset{a})
  {
    assert Faithful(rs, recent);
  }

  /** The position of the range with exactly this access's bounds, or the length of the list. */
  method FindRange(list: seq<RangeState>, a: Access) returns (x: nat)
    ensures x <= |list| && (x < |list| ==> list[x].SameRange(a))
    ensures forall y :: 0 <= y < x ==> !list[y].SameRange(a)
  {
    for i := 0 to |list|
      invariant forall y :: 0 <= y < i ==> !list[y].SameRange(a)
    {
      if list[i].SameRange(a) {
        return i;
      }
    }
    return |list|;
  }

  ghost predicate Extends(states: RangeStates, next: RangeStates) {
    forall k :: ListOf(states, k) <= ListOf(next, k)
  }

  lemma PresentNext(states: RangeStates, next: RangeStates, recent: iset<Access>, a: Access, rs: RangeState)
    requires forall b :: b in recent ==> Present(ListOf(states, b.res), b)
    requires Extends(states, next) && rs in ListOf(next, a.res) && rs.SameRange(a)
    ensures forall b :: b in recent + iset{a} ==> Present(ListOf(next, b.res), b)
  {
    forall b | b in recent + iset{a}
      ensures Present(ListOf(next, b.res), b)
    {
      var was, now := ListOf(states, b.res), ListOf(next, b.res);
      if b in recent {
        assert Present(was, b);
        var y :| 0 <= y < |was| && was[y].SameRange(b);
        assert now[y] == was[y];
      } else {
        var y :| 0 <= y < |now| && now[y] == rs;
      }
    }
  }

  lemma FiledNext(states: RangeStates, a: Access, rs: RangeState)
    requires Filed(states) && rs.access == a
    requires forall y :: 0 <= y < |ListOf(states, a.res)| ==> !ListOf(states, a.res)[y].SameRange(a)
    ensures var next := states[a.res := ListOf(states, a.res) + [rs]];
            && Filed(next) && Extends(states, next)
            && (forall r :: r in Objects(states) ==> !r.SameRange(a))
            && (forall r :: r in Objects(next) ==> r == rs || r in Objects(states))
  {
    var list := ListOf(states, a.res);
    assert forall r :: r in Objects(states) && r.SameRange(a) ==> r in list;
  }

  lemma FoundNext(states: RangeStates, a: Access, x: nat)
    requires Filed(states) && x < |ListOf(states, a.res)| && ListOf(states, a.res)[x].SameRange(a)
    ensures forall r :: r in Objects(states) && r.SameRange(a) ==> r == ListOf(states, a.res)[x]
  {
    var list := ListOf(states, a.res);
    forall r | r in Objects(states) && r.SameRange(a)
      ensures r == list[x]
    {
      var y :| 0 <= y < |list| && list[y] == r;
    }
  }

  /** Files one access under its exact range, starting a new range when none matches. */
  method CommitRange(states: RangeStates, a: Access, node: nat, ghost recent: iset<Access>) returns (next: RangeStates)
    requires Filed(states) && Remembers(states, recent)
    modifies Objects(states)
    ensures Filed(next) && Remembers(next, recent + iset{a})
    ensures forall rs :: rs in Objects(next) ==> rs in Objects(states) || fresh(rs)
  {
    var list := ListOf(states, a.res);
    var x := FindRange(list, a);
    forall rs | rs in Objects(states) && !rs.SameRange(a)
      ensures Faithful(rs, recent + iset{a})
    {
      OthersFaithful(states, recent, a, rs);
    }
    var rs;
    if x < |list| {
      rs := list[x];
      assert rs in list;
      next := states;
      FoundNext(states, a, x);
    } else {
      rs := new RangeState(a);
      next := states[a.res := list + [rs]];
      FiledNext(states, a, rs);
    }
    PresentNext(states, next, recent, a, rs);
    rs.Update(a, node, recent);
  }

  /** The accesses of the nodes from position b up to i, and of the first c accesses of node i. */
  ghost function Since(nodes: seq<Node>, b: nat, i: nat, c: nat): iset<Access>
    requires i <= |nodes|
  {
    iset a | (exists p: nat :: b <= p < i && a in nodes[p].accesses)
             || (i < |nodes| && c <= |nodes[i].accesses| && a in nodes[i].accesses[..c])
  }

  lemma PendingIsConflict(nodes: seq<Node>, b: nat, i: nat)
    requires i < |nodes|
    ensures (exists j :: 0 <= j < |nodes[i].accesses| && Conflicted(Since(nodes, b, i, 0), nodes[i].accesses[j]))
            <==> PendingSince(nodes, b, i)
  {
    if PendingSince(nodes, b, i) {
      var p: nat :| b <= p < i && NodesInterval(nodes[p], nodes[i]);
      var x, y :| x in nodes[p].accesses && y in nodes[i].accesses && IntervalConflict(x, y);
      var j :| 0 <= j < |nodes[i].accesses| && nodes[i].accesses[j] == y;
      assert x in Since(nodes, b, i, 0);
      assert Conflicted(Since(nodes, b, i, 0), nodes[i].accesses[j]);
    }
    if j :| 0 <= j < |nodes[i].accesses| && Conflicted(Since(nodes, b, i, 0), nodes[i].accesses[j]) {
      var x :| x in Since(nodes, b, i, 0) && IntervalConflict(x, nodes[i].accesses[j]);
      var p: nat :| b <= p < i && x in nodes[p].accesses;
      assert NodesInterval(nodes[p], nodes[i]);
    }
  }

  lemma {:induction false} LastBarrierPrefix(bars: seq<bool>, bars': seq<bool>, i: nat)
    requires 0 < i <= |bars| && bars[0] && i <= |bars'| && bars[..i] == bars'[..i]
    ensures bars'[0] && LastBarrier(bars, i) == LastBarrier(bars', i)
  {
    assert bars[0] == bars[..i][0] && bars[i - 1] == bars[..i][i - 1];
    assert bars'[0] == bars'[..i][0] && bars'[i - 1] == bars'[..i][i - 1];
    if !bars[i - 1] {
      assert bars[..i - 1] == bars[..i][..i - 1] == bars'[..i][..i - 1] == bars'[..i - 1];
      LastBarrierPrefix(bars, bars', i - 1);
    }
  }

  /** The plan once node i is decided: the head keeps its barrier whatever node 0 needs. */
  function Decided(bars: seq<bool>, i: nat, need: bool): seq<bool>
    requires i < |bars|
  {
    if i == 0 then bars else bars[i := need]
  }

  /** b is where the pending state of node i starts. */
  ghost predicate Origin(bars: seq<bool>, i: nat, b: nat)
    requires i <= |bars| && |bars| > 0 && bars[0]
  {
    if i == 0 then b == 0 else b == LastBarrier(bars, i)
  }

  /** Deciding position i extends a plan that is greedy up to i. */
  lemma GreedyStep(nodes: seq<Node>, bars: seq<bool>, i: nat, b: nat, need: bool)
    requires i < |nodes| == |bars| && bars[0] && Greedy(nodes, bars, i) && Origin(bars, i, b)
    requires need <==> PendingSince(nodes, b, i)
    ensures var bars' := Decided(bars, i, need);
            Greedy(nodes, bars', i + 1) && Origin(bars', i + 1, if need || i == 0 then i else b)
  {
    var bars' := Decided(bars, i, need);
    forall k: nat | 0 < k <= i
      ensures GreedyAt(nodes, bars', k)
    {
      LastBarrierPrefix(bars, bars', k);
      assert k < i ==> GreedyAt(nodes, bars, k);
    }
    if i > 0 {
      LastBarrierPrefix(bars, bars', i);
    }
  }

  /** Commits every access of node i. */
  method CommitNode(states: RangeStates, nodes: seq<Node>, i: nat, ghost b: nat) returns (next: RangeStates)
    requires i < |nodes| && b <= i
    requires Filed(states) && Remembers(states, Since(nodes, b, i, 0))
    modifies Objects(states)
    ensures Filed(next) && Remembers(next, Since(nodes, b, i + 1, 0))
    ensures forall rs :: rs in Objects(next) ==> rs in Objects(states) || fresh(rs)
  {
    next := states;
    var accesses := nodes[i].accesses;
    for c := 0 to |accesses|
      invariant Filed(next) && Remembers(next, Since(nodes, b, i, c))
      invariant forall rs :: rs in Objects(next) ==> rs in Objects(states) || fresh(rs)
    {
      next := CommitRange(next, accesses[c], i, Since(nodes, b, i, c));
      SinceStep(nodes, b, i, c);
    }
    SinceNode(nodes, b, i);
  }

  lemma SinceStep(nodes: seq<Node>, b: nat, i: nat, c: nat)
    requires i < |nodes| && c < |nodes[i].accesses|
    ensures Since(nodes, b, i, c) + iset{nodes[i].accesses[c]} == Since(nodes, b, i, c + 1)
  {
    assert nodes[i].accesses[..c + 1] == nodes[i].accesses[..c] + [nodes[i].accesses[c]];
  }

  lemma SinceNode(nodes: seq<Node>, b: nat, i: nat)
    requires b <= i < |nodes|
    ensures Since(nodes, b, i, |nodes[i].accesses|) == Since(nodes, b, i + 1, 0)
  {
    assert nodes[i].accesses[..|nodes[i].accesses|] == nodes[i].accesses;
  }

  /** One node of the walk: whether it needs a barrier, and the state after it. A barrier (needed,
      or the head's own) clears everything pending before the node's accesses are committed. */
  method WalkNode(nodes: seq<Node>, i: nat, states: RangeStates, head: bool, ghost b: nat)
    returns (need: bool, next: RangeStates, ghost start: nat)
    requires i < |nodes| && b <= i
    requires Filed(states) && Remembers(states, Since(nodes, b, i, 0))
    modifies Objects(states)
    ensures need <==> PendingSince(nodes, b, i)
    ensures start == (if need || head then i else b)
    ensures Filed(next) && Remembers(next, Since(nodes, start, i + 1, 0))
    ensures forall rs :: rs in Objects(next) ==> rs in Objects(states) || fresh(rs)
  {
    RemembersExactly(states, Since(nodes, b, i, 0));
    need := Needs(states, nodes[i].accesses, Since(nodes, b, i, 0));
    PendingIsConflict(nodes, b, i);
    if need || head {
      ClearPending(states);
      ClearedRemembers(states);
      assert Since(nodes, i, i, 0) == iset{};
    }
    start := if need || head then i else b;
    next := CommitNode(states, nodes, i, start);
  }

  /** One node of the walk: its barrier decided, its accesses committed. */
  method DecideNode(nodes: seq<Node>, i: nat, bars: seq<bool>, states: RangeStates, ghost b: nat)
    returns (bars': seq<bool>, next: RangeStates, ghost start: nat)
    requires i < |nodes| == |bars| && bars[0] && Greedy(nodes, bars, i) && b <= i && Origin(bars, i, b)
    requires Filed(states) && Remembers(states, Since(nodes, b, i, 0))
    modifies Objects(states)
    ensures |bars'| == |nodes| && bars'[0] && Greedy(nodes, bars', i + 1) && start <= i && Origin(bars', i + 1, start)
    ensures Filed(next) && Remembers(next, Since(nodes, start, i + 1, 0))
    ensures forall rs :: rs in Objects(next) ==> rs in Objects(states) || fresh(rs)
  {
    var need;
    need, next, start := WalkNode(nodes, i, states, i == 0, b);
    GreedyStep(nodes, bars, i, b, need);
    bars' := Decided(bars, i, need);
  }

  /** The second walk in record order: where a barrier goes. */
  method Plan(nodes: seq<Node>) returns (bars: seq<bool>)
    ensures |bars| == |nodes| && Greedy(nodes, bars, |nodes|)
  {
    bars := seq(|nodes|, _ => false);
    var states: RangeStates := map[];
    if |nodes| == 0 {
      return;
    }
    // Position 0 holds a barrier whatever node 0 accesses.
    bars := bars[0 := true];
    ghost var b: nat := 0;
    for i := 0 to |nodes|
      invariant |bars| == |nodes| && bars[0] && Greedy(nodes, bars, i) && b <= i && Origin(bars, i, b)
      invariant Filed(states) && Remembers(states, Since(nodes, b, i, 0)) && fresh(Objects(states))
    {
      bars, states, b := DecideNode(nodes, i, bars, states, b);
    }
  }

  /** Serial execution: no two nodes share a stretch between barriers. */
  method PlanSerial(nodes: seq<Node>) returns (bars: seq<bool>)
    ensures |bars| == |nodes| && Separates(nodes, Positions(bars))
    ensures forall i :: 0 <= i < |bars| ==> bars[i]
  {
    bars := seq(|nodes|, _ => true);
    forall i: nat, j: nat | i < j < |nodes| && NodesInterval(nodes[i], nodes[j])
      ensures exists q :: q in Positions(bars) && i < q <= j
    {
      assert j in Positions(bars);
    }
  }
}
