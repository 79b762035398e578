/** The planner's central promise: a built graph, whatever it was bound to, computes what record
    order over private memory computes, and so the optimized plan and the conservative one agree. */
module Agreement {
  import opened Closure
  import opened Accesses
  import opened Barriers
  import opened Binding
  import opened Bitsets
  import opened Execution
  import opened Graphs
  import opened Inference
  import opened Packing
  import opened Recorders
  import opened Resolution
  import opened Schedules

  /** What a caller's byte holds before the run; what a transient holds never matters. */
  ghost function Contents(start: Memory, bound: Bindings, l: Loc): Byte {
    if l.res.Temp? then 0 else start(Resolve([], bound, l))
  }

  /** One execution of a graph: its nodes' computations, the memory it starts from, and the order
      its nodes run in. */
  ghost function RunOf(g: Graph, kernel: Kernel, start: Memory, schedule: seq<nat>): Run
    reads g`succ, g`places, g`bound
  {
    var bound := g.bound;
    Run(g.nodes, g.E(), Addressing(g.places.homes, bound), kernel, l => Contents(start, bound, l), start, schedule)
  }

  lemma InferredConflictsOrdered(nodes: seq<Node>, succ: seq<seq<nat>>)
    requires Inferred(nodes, succ)
    ensures ConflictsOrdered(nodes, Edges(succ))
  {
    forall i: nat, j: nat | i < j < |nodes| && NodesConflict(nodes[i], nodes[j])
      ensures Reach(Edges(succ), i, j)
    {
      assert (i, j) in Hazards(nodes);
    }
  }

  /** Everything the execution theorem asks of a plan, from what Build and Bind guarantee. */
  lemma BuiltIsSafe(g: Graph, kernel: Kernel, start: Memory, schedule: seq<nat>)
    requires g.Built() && g.Bindable() && LinearExtension(g.E(), schedule, |g.nodes|)
    ensures Scheduled(RunOf(g, kernel, start, schedule)) && Safe(RunOf(g, kernel, start, schedule))
  {
    var run := RunOf(g, kernel, start, schedule);
    InferredConflictsOrdered(g.nodes, g.succ);
    HomesAreSafe(g.nodes, g.slots, g.transients, g.E(), g.poolAlign, g.places.homes);
    ResolvedSharingSafe(g.nodes, g.E(), Sizes(g.transients), g.slots, g.places.homes, g.bound);
    assert forall q :: 0 <= q < |schedule| ==> schedule[q] in schedule;
  }

  /** Any order the inferred edges permit, over the placed pool whatever it held and over whatever the
      slots are bound to: every node reads its record-order bytes, and every caller byte ends as
      record order leaves it. */
  lemma AnyPermittedOrderAgrees(g: Graph, kernel: Kernel, start: Memory, schedule: seq<nat>)
    requires g.Built() && g.Bindable() && LinearExtension(g.E(), schedule, |g.nodes|)
    ensures var run := RunOf(g, kernel, start, schedule);
            && Scheduled(run)
            && (forall q: nat :: q < |schedule| ==> Agrees(run, q))
            && (forall l: Loc :: !l.res.Temp? && Touched(g.nodes, l)
                  ==> After(run, |schedule|)(run.addr(l)) == ValueBefore(run, |g.nodes|, l))
            && (forall a :: (forall i: nat :: i < |g.nodes| ==> !Stores(g.nodes[i], run.addr, a))
                  ==> After(run, |schedule|)(a) == start(a))
  {
    BuiltIsSafe(g, kernel, start, schedule);
    PlannedRunAgrees(RunOf(g, kernel, start, schedule));
  }

  /** The same for any order that only permutes nodes between two planned barriers. */
  lemma AnyBarrierOrderAgrees(g: Graph, kernel: Kernel, start: Memory, schedule: seq<nat>)
    requires g.Built() && g.Bindable() && RespectsBarriers(g.barriersBefore, schedule)
    ensures LinearExtension(g.E(), schedule, |g.nodes|)
    ensures var run := RunOf(g, kernel, start, schedule);
            && Scheduled(run)
            && (forall q: nat :: q < |schedule| ==> Agrees(run, q))
            && (forall l: Loc :: !l.res.Temp? && Touched(g.nodes, l)
                  ==> After(run, |schedule|)(run.addr(l)) == ValueBefore(run, |g.nodes|, l))
  {
    BarriersImplyOrder(g.nodes, g.succ, g.barriersBefore, schedule);
    AnyPermittedOrderAgrees(g, kernel, start, schedule);
  }

  /** The packed bits against the declared ranges: with no empty range, the bit of (a, b) is set exactly
      when a chain of byte conflicts leads from a to b. */
  lemma BitsAreClosure(g: Graph, a: nat, b: nat)
    requires g.Built() && a < |g.nodes| && b < |g.nodes|
    ensures Reach(Hazards(g.nodes), a, b) ==> Reaches(g.reach, |g.nodes|, a, b)
    ensures Reaches(g.reach, |g.nodes|, a, b) ==> Reach(IntervalHazards(g.nodes), a, b)
    ensures NonEmptyRanges(g.nodes) ==> (Reaches(g.reach, |g.nodes|, a, b) <==> Reach(Hazards(g.nodes), a, b))
  {
    InferredClosure(g.nodes, g.succ, a, b);
  }

  /** Whatever the slots are bound to, two nodes sharing a physical byte, of the pool or of a caller, that
      one of them writes are ordered by the bits inferred against names. */
  lemma PhysicalConflictsOrdered(g: Graph, i: nat, j: nat, l: Loc, m: Loc)
    requires g.Built() && g.Bindable() && i < j < |g.nodes|
    requires TouchesLoc(g.nodes[i], l) && TouchesLoc(g.nodes[j], m)
    requires WritesLoc(g.nodes[i], l) || WritesLoc(g.nodes[j], m)
    requires Resolve(g.places.homes, g.bound, l) == Resolve(g.places.homes, g.bound, m)
    ensures Reaches(g.reach, |g.nodes|, i, j)
  {
    InferredConflictsOrdered(g.nodes, g.succ);
    HomesAreSafe(g.nodes, g.slots, g.transients, g.E(), g.poolAlign, g.places.homes);
    BoundConflictsOrdered(g.nodes, g.E(), Sizes(g.transients), g.slots, g.places.homes, g.bound, i, j, l, m);
  }

  // ---- two plans of one recording ----

  /** The reference value depends on the recording, the computations and the initial contents only. */
  lemma {:induction false} ReferenceSame(r: Run, s: Run, i: nat, l: Loc)
    requires r.nodes == s.nodes && r.kernel == s.kernel && forall m :: r.initial(m) == s.initial(m)
    requires i <= |r.nodes|
    ensures ValueBefore(r, i, l) == ValueBefore(s, i, l)
    decreases i, 0
  {
    if i > 0 {
      if WritesLoc(r.nodes[i - 1], l) {
        ReferenceInputSame(r, s, i - 1);
      } else {
        ReferenceSame(r, s, i - 1, l);
      }
    }
  }

  lemma {:induction false} ReferenceInputSame(r: Run, s: Run, i: nat)
    requires r.nodes == s.nodes && r.kernel == s.kernel && forall m :: r.initial(m) == s.initial(m)
    requires i < |r.nodes|
    ensures InputOf(r, i) == InputOf(s, i)
    decreases i, 1
  {
    forall l | ReadsLoc(r.nodes[i], l)
      ensures ValueBefore(r, i, l) == ValueBefore(s, i, l)
    {
      ReferenceSame(r, s, i, l);
    }
  }

  /** Two graphs of one recording, bound alike and started on memories that differ at most in their
      transient pools, run in orders their own barriers permit. */
  ghost predicate Twins(g: Graph, h: Graph, start: Memory, start': Memory, s: seq<nat>, s': seq<nat>)
    reads g, h, g.reach, h.reach, g.transients, h.transients
  {
    && g.nodes == h.nodes && g.bound == h.bound
    && g.Built() && g.Bindable() && h.Built() && h.Bindable()
    && RespectsBarriers(g.barriersBefore, s) && RespectsBarriers(h.barriersBefore, s')
    && (forall a: Addr :: !a.PoolByte? ==> start(a) == start'(a))
  }

  lemma TwinContents(g: Graph, h: Graph, start: Memory, start': Memory, s: seq<nat>, s': seq<nat>, kernel: Kernel)
    requires Twins(g, h, start, start', s, s')
    ensures forall m :: RunOf(g, kernel, start, s).initial(m) == RunOf(h, kernel, start', s').initial(m)
  {
    forall m: Loc
      ensures RunOf(g, kernel, start, s).initial(m) == RunOf(h, kernel, start', s').initial(m)
    {
      assert !m.res.Temp? ==> !Resolve([], g.bound, m).PoolByte?;
    }
  }

  lemma RunAgrees(g: Graph, kernel: Kernel, start: Memory, s: seq<nat>)
    requires g.Built() && g.Bindable() && RespectsBarriers(g.barriersBefore, s)
    ensures LinearExtension(g.E(), s, |g.nodes|) && Scheduled(RunOf(g, kernel, start, s))
    ensures Safe(RunOf(g, kernel, start, s))
  {
    BarriersImplyOrder(g.nodes, g.succ, g.barriersBefore, s);
    BuiltIsSafe(g, kernel, start, s);
  }

  /** Every node reads the same bytes in both. */
  lemma TwinInputs(g: Graph, h: Graph, kernel: Kernel, start: Memory, start': Memory, s: seq<nat>, s': seq<nat>,
      q: nat, r: nat)
    requires Twins(g, h, start, start', s, s')
    requires q < |s| && r < |s'| && s[q] == s'[r]
    ensures Scheduled(RunOf(g, kernel, start, s)) && Scheduled(RunOf(h, kernel, start', s'))
    ensures InputAt(RunOf(g, kernel, start, s), q) == InputAt(RunOf(h, kernel, start', s'), r)
  {
    RunAgrees(g, kernel, start, s);
    RunAgrees(h, kernel, start', s');
    InputAgrees(RunOf(g, kernel, start, s), q);
    InputAgrees(RunOf(h, kernel, start', s'), r);
    TwinContents(g, h, start, start', s, s', kernel);
    assert s[q] in s;
    ReferenceInputSame(RunOf(g, kernel, start, s), RunOf(h, kernel, start', s'), s[q]);
  }

  /** Some node writes a caller byte whose address is a. */
  ghost predicate WrittenAt(nodes: seq<Node>, bound: Bindings, a: Addr, l: Loc) {
    !l.res.Temp? && Resolve([], bound, l) == a && exists i: nat :: i < |nodes| && WritesLoc(nodes[i], l)
  }

  /** A written caller byte outside the pool ends as the reference leaves it. */
  lemma WrittenEnds(run: Run, homes: seq<Placement>, bound: Bindings, a: Addr, l: Loc)
    requires Scheduled(run) && Safe(run) && run.addr == Addressing(homes, bound)
    requires WrittenAt(run.nodes, bound, a, l)
    ensures After(run, |run.schedule|)(a) == ValueBefore(run, |run.nodes|, l)
  {
    PlannedRunAgrees(run);
    var i: nat :| i < |run.nodes| && WritesLoc(run.nodes[i], l);
    assert TouchesLoc(run.nodes[i], l) && run.addr(l) == a;
  }

  /** A byte outside the pool that no node writes ends as it started. */
  lemma UnwrittenEnds(run: Run, homes: seq<Placement>, bound: Bindings, a: Addr)
    requires Scheduled(run) && run.addr == Addressing(homes, bound) && !a.PoolByte?
    requires forall l :: !WrittenAt(run.nodes, bound, a, l)
    ensures After(run, |run.schedule|)(a) == run.start(a)
  {
    forall r: nat | r < |run.schedule|
      ensures !Stores(NodeAt(run, r), run.addr, a)
    {
      StoringIsWriting(run, homes, bound, a, r);
    }
    MemoryUnwritten(run, 0, |run.schedule|, a);
  }

  lemma StoringIsWriting(run: Run, homes: seq<Placement>, bound: Bindings, a: Addr, r: nat)
    requires Scheduled(run) && run.addr == Addressing(homes, bound) && !a.PoolByte? && r < |run.schedule|
    ensures Stores(NodeAt(run, r), run.addr, a) ==> exists l :: WrittenAt(run.nodes, bound, a, l)
  {
    if Stores(NodeAt(run, r), run.addr, a) {
      var m := StoredLoc(NodeAt(run, r), run.addr, a);
      assert Resolve(homes, bound, m) == a;
      assert WrittenAt(run.nodes, bound, a, m);
    }
  }

  lemma RunsLeaveTheSame(r: Run, r': Run, homes: seq<Placement>, homes': seq<Placement>, bound: Bindings, a: Addr)
    requires Scheduled(r) && Safe(r) && r.addr == Addressing(homes, bound)
    requires Scheduled(r') && Safe(r') && r'.addr == Addressing(homes', bound)
    requires r.nodes == r'.nodes && r.kernel == r'.kernel && forall m :: r.initial(m) == r'.initial(m)
    requires !a.PoolByte? && r.start(a) == r'.start(a)
    ensures After(r, |r.schedule|)(a) == After(r', |r'.schedule|)(a)
  {
    if l :| WrittenAt(r.nodes, bound, a, l) {
      WrittenEnds(r, homes, bound, a, l);
      WrittenEnds(r', homes', bound, a, l);
      ReferenceSame(r, r', |r.nodes|, l);
    } else {
      UnwrittenEnds(r, homes, bound, a);
      UnwrittenEnds(r', homes', bound, a);
    }
  }

  /** Both leave every byte outside the transient pool the same: in particular the optimized plan
      leaves caller memory exactly as the conservative one does. */
  lemma TwinMemory(g: Graph, h: Graph, kernel: Kernel, start: Memory, start': Memory, s: seq<nat>, s': seq<nat>,
      a: Addr)
    requires Twins(g, h, start, start', s, s') && !a.PoolByte?
    ensures Scheduled(RunOf(g, kernel, start, s)) && Scheduled(RunOf(h, kernel, start', s'))
    ensures After(RunOf(g, kernel, start, s), |s|)(a) == After(RunOf(h, kernel, start', s'), |s'|)(a)
  {
    RunAgrees(g, kernel, start, s);
    RunAgrees(h, kernel, start', s');
    TwinContents(g, h, start, start', s, s', kernel);
    RunsLeaveTheSame(RunOf(g, kernel, start, s), RunOf(h, kernel, start', s'), g.places.homes, h.places.homes, g.bound,
                     a);
  }

  /** Whatever is computed, from whatever memory, in whatever order each plan permits, and whatever the
      transient pools held: the two graphs leave every byte outside the pools the same. */
  ghost predicate LeaveTheSame(g: Graph, h: Graph)
    reads g, h, g.reach, h.reach, g.transients, h.transients
  {
    forall kernel: Kernel, start: Memory, start': Memory, s: seq<nat>, s': seq<nat>, a: Addr ::
      Twins(g, h, start, start', s, s') && !a.PoolByte? ==> LeavesTheSame(g, h, kernel, start, start', s, s', a)
  }

  ghost predicate LeavesTheSame(g: Graph, h: Graph, kernel: Kernel, start: Memory, start': Memory, s: seq<nat>,
      s': seq<nat>, a: Addr)
    reads g`succ, g`places, g`bound, h`succ, h`places, h`bound
  {
    var r, r' := RunOf(g, kernel, start, s), RunOf(h, kernel, start', s');
    Scheduled(r) && Scheduled(r') && After(r, |s|)(a) == After(r', |s'|)(a)
  }

  lemma TwinsLeaveTheSame(g: Graph, h: Graph)
    ensures LeaveTheSame(g, h)
  {
    forall kernel: Kernel, start: Memory, start': Memory, s: seq<nat>, s': seq<nat>, a: Addr
      | Twins(g, h, start, start', s, s') && !a.PoolByte?
      ensures LeavesTheSame(g, h, kernel, start, start', s, s', a)
    {
      TwinMemory(g, h, kernel, start, start', s, s', a);
    }
  }

  /** A conservatively built graph has record order as its only execution. */
  lemma NaiveRunsInRecordOrder(g: Graph, s: seq<nat>, q: nat, r: nat)
    requires g.Built() && g.naive && RespectsBarriers(g.barriersBefore, s) && q < r < |s|
    ensures s[q] < s[r]
  {
    SerialIsRecordOrder(g.barriersBefore, s, q, r);
  }

  /** No plan that orders every overlapping hazard has fewer barriers than the optimized one had
      before handovers, leaving the head barrier aside. */
  lemma FewestBarriers(g: Graph, other: set<nat>)
    requires g.Built() && !g.naive && |g.nodes| > 0 && Separates(g.nodes, other)
    ensures |Positions(g.planned) - {0}| <= |other|
  {
    GreedyOptimal(g.nodes, g.planned, other);
  }

  /** Handovers between transients sharing bytes stand on ordered, already separated users. */
  lemma HandoversRideOnBarriers(g: Graph, t: nat, u: nat)
    requires g.Built() && !g.naive && t < |g.places.homes| && u < |g.places.homes| && t != u
    requires HandsOver(g.places.homes[t], g.places.homes[u])
    ensures var a, b := g.places.homes[t], g.places.homes[u];
            var earlier := if a.users[0] > b.users[0] then b.users else a.users;
            && Crosses(g.planned, earlier[|earlier| - 1], HandoverNode(a, b))
            && HandoverNode(a, b) < |g.nodes| && g.barriersBefore[HandoverNode(a, b)]
  {
    HandoverAlreadySeparated(g.nodes, g.succ, g.planned, g.places.homes, t, u);
    RecordedUsers(g.nodes, g.slots, g.transients);
    var a, b := g.places.homes[t], g.places.homes[u];
    assert a.users == g.transients[t].users && b.users == g.transients[u].users;
    assert NodesBelow(a.users, |g.nodes|) && NodesBelow(b.users, |g.nodes|);
    assert a.users[0] in a.users && b.users[0] in b.users;
    assert HandoverBelow(g.places.homes, |g.places.homes|, 0, HandoverNode(a, b)) by {
      var x, y := if t < u then u else t, if t < u then t else u;
      assert HandsOver(g.places.homes[x], g.places.homes[y]);
      assert HandoverNode(g.places.homes[x], g.places.homes[y]) == HandoverNode(a, b);
    }
  }
}
