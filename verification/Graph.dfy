/** The graph: what Build makes of a recording, and what Bind may do to it afterwards. */
module Graphs {
  import opened Closure
  import opened Accesses
  import opened Arith
  import opened Barriers
  import opened Binding
  import opened Bits
  import opened Bitsets
  import opened Coverage
  import opened Execution
  import opened Inference
  import opened Options
  import opened Packing
  import opened Recorders
  import opened Recording
  import opened Resolution

  /** What a caller does to a built graph: rebinds slots, starts a run, or sees one end. */
  datatype Call = Rebind(batch: seq<SlotBinding>, supported: bool) | Start(usable: bool) | End

  datatype BindError = Accepted | Unacceptable | InFlight | Overlapping | Unsupported

  /** The batches Bind accepts when the slots are bound as `bound`. */
  ghost predicate Accepts(nodes: seq<Node>, slots: seq<SlotDescriptor>, bound: Bindings, busy: bool,
      batch: seq<SlotBinding>, supported: bool)
  {
    && (forall b :: b in batch ==> Acceptable(slots, b)) && !busy
    && BindingsSafe(nodes, Applied(bound, batch)) && supported
  }

  /** What varies between submissions: the bindings, and whether the graph is in flight. */
  datatype CallState = CallState(bound: Bindings, busy: bool)

  ghost function AfterCall(nodes: seq<Node>, slots: seq<SlotDescriptor>, state: CallState, call: Call): CallState {
    match call
    case Rebind(batch, supported) =>
      if Accepts(nodes, slots, state.bound, state.busy, batch, supported)
      then CallState(Applied(state.bound, batch), state.busy) else state
    case Start(usable) => CallState(state.bound, state.busy || usable)
    case End => CallState(state.bound, false)
  }

  /** The accepted batches folded over the bindings, in order; the refused ones leave no trace. */
  ghost function AfterCalls(nodes: seq<Node>, slots: seq<SlotDescriptor>, state: CallState,
      calls: seq<Call>): CallState {
    if calls == [] then state
    else AfterCall(nodes, slots, AfterCalls(nodes, slots, state, calls[..|calls| - 1]), calls[|calls| - 1])
  }

  /** Call k is a batch, and it was accepted. */
  ghost predicate Took(nodes: seq<Node>, slots: seq<SlotDescriptor>, state: CallState, calls: seq<Call>, k: nat)
    requires k < |calls|
  {
    var was := AfterCalls(nodes, slots, state, calls[..k]);
    calls[k].Rebind? && Accepts(nodes, slots, was.bound, was.busy, calls[k].batch, calls[k].supported)
  }

  /** No batch accepted from call k on names slot s + 1. */
  ghost predicate QuietFrom(nodes: seq<Node>, slots: seq<SlotDescriptor>, state: CallState, calls: seq<Call>, k: nat,
      s: nat)
  {
    forall i: nat :: k <= i < |calls| && Took(nodes, slots, state, calls, i) ==>
      forall j :: 0 <= j < |calls[i].batch| ==> calls[i].batch[j].slot != s + 1
  }

  /** Binding j of batch k is the last one accepted for slot s + 1. */
  ghost predicate LastTaken(nodes: seq<Node>, slots: seq<SlotDescriptor>, state: CallState, calls: seq<Call>, s: nat,
      k: nat, j: nat)
  {
    && k < |calls| && Took(nodes, slots, state, calls, k) && LastFor(calls[k].batch, s, j)
    && QuietFrom(nodes, slots, state, calls, k + 1, s)
  }

  /** What slot s + 1 has after some calls: the last view accepted for it, or what it had. */
  ghost predicate HasLast(nodes: seq<Node>, slots: seq<SlotDescriptor>, state: CallState, calls: seq<Call>,
      bound: Bindings, s: nat)
    requires s < |bound| == |state.bound|
  {
    && (forall k: nat, j: nat :: LastTaken(nodes, slots, state, calls, s, k, j) ==> bound[s] == calls[k].batch[j].view)
    && (QuietFrom(nodes, slots, state, calls, 0, s) ==> bound[s] == state.bound[s])
  }

  ghost predicate NamesNone(call: Call, s: nat) {
    call.Rebind? ==> forall j :: 0 <= j < |call.batch| ==> call.batch[j].slot != s + 1
  }

  lemma TookPrefix(nodes: seq<Node>, slots: seq<SlotDescriptor>, state: CallState, calls: seq<Call>, s: nat, k: nat)
    requires k < |calls|
    ensures var n := |calls| - 1;
            && (k < n ==> (Took(nodes, slots, state, calls[..n], k) <==> Took(nodes, slots, state, calls, k)))
            && (QuietFrom(nodes, slots, state, calls, k, s) ==>
                  && QuietFrom(nodes, slots, state, calls[..n], k, s)
                  && (Took(nodes, slots, state, calls, n) ==> NamesNone(calls[n], s)))
  {
    var n := |calls| - 1;
    forall i: nat | i < n
      ensures Took(nodes, slots, state, calls[..n], i) <==> Took(nodes, slots, state, calls, i)
    {
      assert calls[..n][..i] == calls[..i];
    }
  }

  /** The last call, refused or not naming the slot, leaves it alone. */
  lemma LeftAlone(nodes: seq<Node>, slots: seq<SlotDescriptor>, state: CallState, calls: seq<Call>, s: nat)
    requires calls != [] && s < |state.bound|
    requires Took(nodes, slots, state, calls, |calls| - 1) ==> NamesNone(calls[|calls| - 1], s)
    requires |AfterCalls(nodes, slots, state, calls[..|calls| - 1]).bound| == |state.bound|
    ensures |AfterCalls(nodes, slots, state, calls).bound| == |state.bound|
    ensures AfterCalls(nodes, slots, state, calls).bound[s] ==
            AfterCalls(nodes, slots, state, calls[..|calls| - 1]).bound[s]
  {
    var n := |calls| - 1;
    if Took(nodes, slots, state, calls, n) {
      AppliedRebinds(AfterCalls(nodes, slots, state, calls[..n]).bound, calls[n].batch, s);
    }
  }

  lemma {:induction false} CallsKeepLength(nodes: seq<Node>, slots: seq<SlotDescriptor>, state: CallState,
      calls: seq<Call>)
    ensures |AfterCalls(nodes, slots, state, calls).bound| == |state.bound|
  {
    if calls != [] {
      CallsKeepLength(nodes, slots, state, calls[..|calls| - 1]);
    }
  }

  lemma TakenEarlier(nodes: seq<Node>, slots: seq<SlotDescriptor>, state: CallState, calls: seq<Call>, s: nat,
      k: nat, j: nat)
    requires LastTaken(nodes, slots, state, calls, s, k, j) && k < |calls| - 1
    ensures LastTaken(nodes, slots, state, calls[..|calls| - 1], s, k, j)
    ensures Took(nodes, slots, state, calls, |calls| - 1) ==> NamesNone(calls[|calls| - 1], s)
  {
    TookPrefix(nodes, slots, state, calls, s, k);
    TookPrefix(nodes, slots, state, calls, s, k + 1);
  }

  lemma TakenLast(nodes: seq<Node>, slots: seq<SlotDescriptor>, state: CallState, calls: seq<Call>, s: nat, j: nat)
    requires calls != [] && s < |state.bound| && Took(nodes, slots, state, calls, |calls| - 1)
    requires LastFor(calls[|calls| - 1].batch, s, j)
    requires |AfterCalls(nodes, slots, state, calls[..|calls| - 1]).bound| == |state.bound|
    ensures s < |AfterCalls(nodes, slots, state, calls).bound|
    ensures AfterCalls(nodes, slots, state, calls).bound[s] == calls[|calls| - 1].batch[j].view
  {
    var n := |calls| - 1;
    AppliedRebinds(AfterCalls(nodes, slots, state, calls[..n]).bound, calls[n].batch, s);
  }

  lemma {:induction false} LastTakenBinds(nodes: seq<Node>, slots: seq<SlotDescriptor>, state: CallState,
      calls: seq<Call>, s: nat, k: nat, j: nat)
    requires s < |state.bound| && LastTaken(nodes, slots, state, calls, s, k, j)
    ensures s < |AfterCalls(nodes, slots, state, calls).bound|
    ensures AfterCalls(nodes, slots, state, calls).bound[s] == calls[k].batch[j].view
  {
    var n := |calls| - 1;
    CallsKeepLength(nodes, slots, state, calls[..n]);
    if k < n {
      TakenEarlier(nodes, slots, state, calls, s, k, j);
      LastTakenBinds(nodes, slots, state, calls[..n], s, k, j);
      LeftAlone(nodes, slots, state, calls, s);
    } else {
      TakenLast(nodes, slots, state, calls, s, j);
    }
  }

  lemma {:induction false} NoneTakenKeeps(nodes: seq<Node>, slots: seq<SlotDescriptor>, state: CallState,
      calls: seq<Call>, s: nat)
    requires s < |state.bound| && QuietFrom(nodes, slots, state, calls, 0, s)
    ensures s < |AfterCalls(nodes, slots, state, calls).bound|
    ensures AfterCalls(nodes, slots, state, calls).bound[s] == state.bound[s]
  {
    if calls != [] {
      var n := |calls| - 1;
      CallsKeepLength(nodes, slots, state, calls[..n]);
      TookPrefix(nodes, slots, state, calls, s, 0);
      NoneTakenKeeps(nodes, slots, state, calls[..n], s);
      LeftAlone(nodes, slots, state, calls, s);
    }
  }

  /** After any calls every slot has the last view accepted for it. */
  lemma LastCallsBind(nodes: seq<Node>, slots: seq<SlotDescriptor>, state: CallState, calls: seq<Call>, s: nat)
    requires s < |state.bound|
    ensures |AfterCalls(nodes, slots, state, calls).bound| == |state.bound|
    ensures HasLast(nodes, slots, state, calls, AfterCalls(nodes, slots, state, calls).bound, s)
  {
    CallsKeepLength(nodes, slots, state, calls);
    forall k: nat, j: nat | LastTaken(nodes, slots, state, calls, s, k, j)
      ensures AfterCalls(nodes, slots, state, calls).bound[s] == calls[k].batch[j].view
    {
      LastTakenBinds(nodes, slots, state, calls, s, k, j);
    }
    if QuietFrom(nodes, slots, state, calls, 0, s) {
      NoneTakenKeeps(nodes, slots, state, calls, s);
    }
  }

  /** What the graph needs: after aliasing, without it, and at its record-order peak. */
  datatype GraphMemory = GraphMemory(transientBytes: nat, unaliasedBytes: nat, peakBytes: nat)

  /** Where the transients went: in recording order, and in the order they were packed. */
  datatype Homes = Homes(homes: seq<Placement>, order: seq<Transient>, placements: seq<Placement>)

  /** The two listings of a transient give it one placement. */
  ghost predicate SamePlace(transients: seq<Transient>, h: Homes, t: nat, i: nat)
    requires t < |transients| == |h.homes| && i < |h.order| == |h.placements|
  {
    transients[t] == h.order[i] ==> h.homes[t] == h.placements[i]
  }

  /** The packed memory plan: a sound layout at the lowest free offsets, sorted by packing rank, whose
      pool is between the record-order peak and the unaliased total. */
  ghost predicate PackedPlan(n: nat, succ: seq<seq<nat>>, transients: seq<Transient>, align: nat, m: GraphMemory,
      h: Homes) {
    && Distinct(h.order) && |h.order| == |h.placements| && |h.homes| == |transients|
    && (forall t :: t in h.order ==> t in transients) && (forall t :: t in transients ==> t in h.order)
    && (forall t: nat, i: nat :: t < |transients| && i < |h.order| ==> SamePlace(transients, h, t, i))
    && SortedByRank(h.placements) && Layout(succ, h.placements, align, m.transientBytes)
    && m.unaliasedBytes == SumSizes(transients, align)
    && m.peakBytes <= m.transientBytes <= m.unaliasedBytes
    && IsPeak(m.peakBytes, h.homes, n)
  }

  /** The conservative memory plan: one range per transient, in recording order. */
  ghost predicate NaivePlan(n: nat, transients: seq<Transient>, align: nat, m: GraphMemory, h: Homes) {
    && Consecutive(transients, h.homes, align, |transients|)
    && m.transientBytes == m.unaliasedBytes == SumSizes(transients, align)
    && IsPeak(m.peakBytes, h.homes, n)
  }

  /** The optimized barrier plan: the hazard barriers, and one more per handover that lacks its own. */
  ghost predicate BarriersPlanned(nodes: seq<Node>, planned: seq<bool>, bars: seq<bool>, homes: seq<Placement>) {
    && |bars| == |planned| == |nodes|
    && Greedy(nodes, planned, |nodes|)
    && forall p :: 0 <= p < |nodes| ==> (bars[p] <==> planned[p] || HandoverBelow(homes, |homes|, 0, p))
  }

  /** What the recorder hands over. */
  ghost predicate Recorded(nodes: seq<Node>, slots: seq<SlotDescriptor>, transients: seq<Transient>)
    reads transients`users, transients`writer, transients`first, transients`last
  {
    && Distinct(transients)
    && DescribeAll(transients, nodes)
    && LegalNodes(nodes, Sizes(transients), slots)
  }

  /** Users are nodes of the graph, and bracket the transient's record-order interval. */
  ghost predicate UsersListed(nodes: seq<Node>, transients: seq<Transient>)
    reads transients`users, transients`first, transients`last
  {
    forall t :: t in transients ==> NodesBelow(t.users, |nodes|) && Bracketed(t)
  }

  lemma RecordedUsers(nodes: seq<Node>, slots: seq<SlotDescriptor>, transients: seq<Transient>)
    requires Recorded(nodes, slots, transients)
    ensures UsersListed(nodes, transients)
  {
    forall t | t in transients
      ensures NodesBelow(t.users, |nodes|) && Bracketed(t)
    {
      var i: nat :| i < |transients| && transients[i] == t;
      assert t.Describes(nodes, i);
      UsersOfExact(nodes, i);
    }
  }

  // ---- placing ----

  /** Homes that are apart, large enough and labelled with their users are safe. */
  lemma HomesAreSafe(nodes: seq<Node>, slots: seq<SlotDescriptor>, transients: seq<Transient>, e: Rel, align: nat,
    homes: seq<Placement>)
    requires Recorded(nodes, slots, transients) && PlacedAs(transients, homes, align) && HomesApart(e, homes)
    ensures HomesSafe(nodes, e, Sizes(transients), homes)
  {
    forall t: nat | t < |transients|
      ensures homes[t].size >= transients[t].bytes && homes[t].users == UsersOf(nodes, t)
    {
      assert transients[t].Describes(nodes, t);
      AlignUpLeast(transients[t].bytes, align, 0);
    }
  }

  lemma ListHomes(transients: seq<Transient>, order: seq<Transient>, ps: seq<Placement>, align: nat)
    returns (homes: seq<Placement>)
    requires PlacedAs(order, ps, align) && forall t :: t in transients ==> t in order
    ensures PlacedAs(transients, homes, align)
    ensures forall t: nat, i: nat :: t < |transients| && i < |order|
              ==> SamePlace(transients, Homes(homes, order, ps), t, i)
  {
    homes := Placements(transients, align);
    forall i | 0 <= i < |transients|
      ensures transients[i].placed
    {
      assert transients[i] in order;
      var j :| 0 <= j < |order| && order[j] == transients[i];
    }
  }

  lemma PeakFits(e: Rel, homes: seq<Placement>, total: nat, n: nat, peak: nat)
    requires HomesApart(e, homes) && (forall p :: p in homes ==> p.offset + p.size <= total)
    requires IsPeak(peak, homes, n)
    ensures peak <= total
  {
    if n > 0 {
      var at: nat :| at < n && peak == LiveBytes(homes, at);
      HomesLiveApart(e, homes, at);
      PeakWithinPool(homes, total, at);
    }
  }

  /** Aliased placement, and the memory it reports. */
  method PlacePacked(nodes: seq<Node>, succ: seq<seq<nat>>, reach: array<Word>, transients: seq<Transient>, align: nat)
    returns (m: GraphMemory, ghost h: Homes)
    requires Distinct(transients) && |succ| == |nodes| && ClosedFrom(reach[..], succ, 0)
    requires UsersListed(nodes, transients)
    modifies Footprint(transients)`offset, Footprint(transients)`placed
    ensures PackedPlan(|nodes|, succ, transients, align, m, h)
    ensures PlacedAs(transients, h.homes, align) && HomesApart(Edges(succ), h.homes)
  {
    var unaliased := Unaliased(transients, align);
    var total, order, ps := PackTransients(transients, reach, succ, align);
    ghost var homes := ListHomes(transients, order, ps, align);
    PackedHomes(order, ps, transients, homes, succ, align, total);
    var peak := PeakBytes(|nodes|, transients, align, homes);
    PeakFits(Edges(succ), homes, total, |nodes|, peak);
    m := GraphMemory(total, unaliased, peak);
    h := Homes(homes, order, ps);
  }

  /** Placement without aliasing, and the memory it reports. */
  method PlaceNaive(nodes: seq<Node>, ghost e: Rel, transients: seq<Transient>, align: nat)
    returns (m: GraphMemory, ghost h: Homes)
    requires Distinct(transients) && UsersListed(nodes, transients)
    modifies Footprint(transients)`offset, Footprint(transients)`placed
    ensures NaivePlan(|nodes|, transients, align, m, h)
    ensures PlacedAs(transients, h.homes, align) && HomesApart(e, h.homes)
  {
    var unaliased := Unaliased(transients, align);
    var total, homes := PlaceConsecutively(transients, align);
    ConsecutiveApart(e, transients, homes, align);
    var peak := PeakBytes(|nodes|, transients, align, homes);
    m := GraphMemory(total, unaliased, peak);
    h := Homes(homes, transients, homes);
  }

  lemma ConsecutiveApart(e: Rel, transients: seq<Transient>, homes: seq<Placement>, align: nat)
    requires PlacedAs(transients, homes, align) && Consecutive(transients, homes, align, |transients|)
    ensures HomesApart(e, homes)
  {
    forall t: nat, u: nat | t < u < |homes|
      ensures PairApart(e, homes, t, u)
    {
      assert transients[..t + 1][..t] == transients[..t];
      SumSizesPrefix(transients, align, t + 1, u);
    }
  }

  /** Hazard barriers, packed transients, and the handovers packing calls for. */
  method PlanOptimized(nodes: seq<Node>, succ: seq<seq<nat>>, reach: array<Word>, transients: seq<Transient>,
      align: nat)
    returns (bars: seq<bool>, m: GraphMemory, ghost planned: seq<bool>, ghost h: Homes)
    requires Distinct(transients) && |succ| == |nodes| && ClosedFrom(reach[..], succ, 0)
    requires UsersListed(nodes, transients)
    modifies Footprint(transients)`offset, Footprint(transients)`placed
    ensures PackedPlan(|nodes|, succ, transients, align, m, h)
    ensures PlacedAs(transients, h.homes, align) && HomesApart(Edges(succ), h.homes)
    ensures BarriersPlanned(nodes, planned, bars, h.homes) && Separates(nodes, Positions(bars))
  {
    var first := Plan(nodes);
    m, h := PlacePacked(nodes, succ, reach, transients, align);
    bars := PlanHandovers(transients, align, first, h.homes);
    planned := first;
    GreedySeparates(nodes, first);
    SeparatesMore(nodes, first, bars);
  }

  lemma SeparatesMore(nodes: seq<Node>, bars: seq<bool>, more: seq<bool>)
    requires |bars| == |more| && Separates(nodes, Positions(bars))
    requires forall p :: 0 <= p < |bars| && bars[p] ==> more[p]
    ensures Separates(nodes, Positions(more))
  {
    assert Positions(bars) <= Positions(more);
  }

  /** Refuses a graph that reads a transient byte no earlier node writes. */
  method CheckWritten(nodes: seq<Node>, slots: seq<SlotDescriptor>, transients: seq<Transient>, succ: seq<seq<nat>>,
    reach: array<Word>)
    returns (ok: bool)
    requires Recorded(nodes, slots, transients) && Inferred(nodes, succ) && ClosedFrom(reach[..], succ, 0)
    ensures ok <==> WrittenEarlier(nodes)
    ensures ok ==> ReadsCovered(nodes, Edges(succ))
  {
    CoverageIsRecordOrder(nodes, succ);
    forall i, a | 0 <= i < |nodes| && a in nodes[i].accesses && a.res.Temp?
      ensures a.res.t < |transients|
    {
      assert Legal(a, Sizes(transients), slots);
    }
    forall t: nat | t < |transients|
      ensures transients[t].users == UsersOf(nodes, t)
    {
      assert transients[t].Describes(nodes, t);
    }
    ok := CheckTransientsAreWritten(nodes, succ, reach, transients);
  }

  // ---- the graph ----

  class Graph {
    const nodes: seq<Node>
    const slots: seq<SlotDescriptor>
    const transients: seq<Transient>
    const naive: bool

    // The inferred dependencies and their closure.
    var succ: seq<seq<nat>>
    var pred: seq<seq<nat>>
    var reach: array<Word>

    // The barrier plan; `planned` is what it was before aliasing handovers were added.
    var barriersBefore: seq<bool>
    ghost var planned: seq<bool>

    // The memory plan.
    var poolAlign: nat
    var memory: GraphMemory
    ghost var places: Homes

    // What varies between submissions.
    var bound: Bindings
    var concrete: seq<ByteSpan>
    var slotWriter: seq<bool>
    var inFlight: bool

    constructor (nodes: seq<Node>, slots: seq<SlotDescriptor>, transients: seq<Transient>, naive: bool)
      ensures this.nodes == nodes && this.slots == slots && this.transients == transients && this.naive == naive
      ensures fresh(reach) && !inFlight
    {
      this.nodes, this.slots, this.transients, this.naive := nodes, slots, transients, naive;
      succ, pred, reach := [], [], new Word[0];
      barriersBefore, planned := [], [];
      poolAlign, memory, places := 0, GraphMemory(0, 0, 0), Homes([], [], []);
      bound, concrete, slotWriter, inFlight := [], [], [], false;
    }

    ghost predicate Ordered()
      reads `succ, `pred, `reach, reach
    {
      Mirrored(succ, pred) && Inferred(nodes, succ) && ClosedFrom(reach[..], succ, 0)
    }

    ghost function E(): Rel
      reads `succ
    {
      Edges(succ)
    }

    /** The barrier and memory plans, optimized or conservative. */
    ghost predicate Planned()
      reads `succ, `barriersBefore, `planned, `poolAlign, `memory, `places
    {
      && |barriersBefore| == |nodes| && Separates(nodes, Positions(barriersBefore))
      && HomesApart(E(), places.homes)
      && if naive then
           NaivePlan(|nodes|, transients, poolAlign, memory, places)
           && forall p :: 0 <= p < |nodes| ==> barriersBefore[p]
         else
           PackedPlan(|nodes|, succ, transients, poolAlign, memory, places)
           && BarriersPlanned(nodes, planned, barriersBefore, places.homes)
    }

    ghost predicate Bindable()
      reads `bound, `concrete, `slotWriter
    {
      && WideEnough(slots, bound) && BindingsSafe(nodes, bound)
      && |slotWriter| == |bound| && (forall s: nat :: s < |bound| ==> slotWriter[s] == SlotWritten(nodes, s + 1))
      && (forall c :: c in concrete <==> ConcreteSpan(nodes, c))
    }

    /** Everything Build guarantees and Bind cannot touch. */
    ghost predicate Built()
      reads `succ, `pred, `reach, `barriersBefore, `planned, `poolAlign, `memory, `places, reach, transients
    {
      && Recorded(nodes, slots, transients) && Ordered() && ReadsCovered(nodes, E())
      && Planned() && PlacedAs(transients, places.homes, poolAlign)
    }

    // ---- building ----

    /** Infers the dependency edges and closes them. */
    method Infer()
      modifies this`succ, this`pred, this`reach
      ensures Ordered() && fresh(reach)
    {
      succ, pred := InferEdges(nodes);
      forall a, b | 0 <= a < |succ| && b in succ[a]
        ensures a < b < |succ|
      {
        assert (a, b) in Edges(succ);
      }
      reach := Reachability(succ);
    }

    /** Infers the edges, then checks that no node reads a transient byte nothing wrote. */
    method InferAndCheck() returns (written: bool)
      requires Recorded(nodes, slots, transients)
      modifies this`succ, this`pred, this`reach
      ensures Ordered() && fresh(reach)
      ensures written <==> WrittenEarlier(nodes)
      ensures written ==> ReadsCovered(nodes, E())
    {
      Infer();
      var acyclic := AssertAcyclic(nodes, succ);
      written := CheckWritten(nodes, slots, transients, succ, reach);
    }

    method Adopt(bars: seq<bool>, ghost first: seq<bool>, align: nat, m: GraphMemory, ghost h: Homes)
      modifies this`poolAlign, this`memory, this`places, this`barriersBefore, this`planned
      ensures barriersBefore == bars && planned == first && poolAlign == align && memory == m && places == h
    {
      barriersBefore, planned, poolAlign, memory, places := bars, first, align, m, h;
    }

    /** The conservative plans: a barrier before every node, and no aliasing. */
    method PlanNaively(align: nat)
      requires naive && Ordered() && Distinct(transients) && UsersListed(nodes, transients)
      modifies this`poolAlign, this`memory, this`places, this`barriersBefore, this`planned
      modifies Footprint(transients)`offset, Footprint(transients)`placed
      ensures Planned() && poolAlign == align && PlacedAs(transients, places.homes, align)
    {
      var bars := PlanSerial(nodes);
      var m, h := PlaceNaive(nodes, E(), transients, align);
      Adopt(bars, bars, align, m, h);
    }

    /** Hazard barriers, packed transients, and the handovers packing calls for. */
    method PlanOptimally(align: nat)
      requires !naive && Ordered() && Distinct(transients) && UsersListed(nodes, transients)
      modifies this`poolAlign, this`memory, this`places, this`barriersBefore, this`planned
      modifies Footprint(transients)`offset, Footprint(transients)`placed
      ensures Planned() && poolAlign == align && PlacedAs(transients, places.homes, align)
    {
      var bars, m, first, h := PlanOptimized(nodes, succ, reach, transients, align);
      Adopt(bars, first, align, m, h);
    }

    /** Plans barriers and memory, one way or the other. */
    method PlanMemory(align: nat)
      requires Ordered() && Distinct(transients) && UsersListed(nodes, transients)
      modifies this`poolAlign, this`memory, this`places, this`barriersBefore, this`planned
      modifies Footprint(transients)`offset, Footprint(transients)`placed
      ensures Planned() && poolAlign == align && PlacedAs(transients, places.homes, align)
    {
      if naive {
        PlanNaively(align);
      } else {
        PlanOptimally(align);
      }
    }

    /** Plans a recording whose edges are inferred and whose reads are covered. */
    method PlanChecked(align: nat)
      requires Recorded(nodes, slots, transients) && Ordered() && ReadsCovered(nodes, E())
      modifies this`poolAlign, this`memory, this`places, this`barriersBefore, this`planned
      modifies Footprint(transients)`offset, Footprint(transients)`placed
      ensures Built() && poolAlign == align
    {
      RecordedUsers(nodes, slots, transients);
      PlanMemory(align);
    }

    /** Starts every slot unbound and caches what Bind compares against. */
    method PrepareBindings()
      modifies this`bound, this`concrete, this`slotWriter
      ensures Bindable() && forall s :: 0 <= s < |bound| ==> bound[s] == None
    {
      var writer := [];
      for s := 0 to |slots|
        invariant |writer| == s && forall x: nat :: x < s ==> writer[x] == SlotWritten(nodes, x + 1)
      {
        writer := writer + [SlotWritten(nodes, s + 1)];
      }
      slotWriter := writer;
      concrete := ConcreteSpans(nodes);
      bound := seq(|slots|, _ => None);
    }

    /** Infers, checks and plans a recording; false if it reads a transient byte nothing wrote. */
    method Prepare(align: nat) returns (written: bool)
      requires Recorded(nodes, slots, transients)
      modifies this`succ, this`pred, this`reach, this`bound, this`concrete, this`slotWriter
      modifies this`poolAlign, this`memory, this`places, this`barriersBefore, this`planned
      modifies Footprint(transients)`offset, Footprint(transients)`placed
      ensures fresh(reach)
      ensures written <==> WrittenEarlier(nodes)
      ensures written ==>
              Built() && Bindable() && poolAlign == align && forall s :: 0 <= s < |bound| ==> bound[s] == None
    {
      written := InferAndCheck();
      if !written {
        return;
      }
      PlanReady(align);
    }

    /** Plans a checked recording and readies it for binding. */
    method PlanReady(align: nat)
      requires Recorded(nodes, slots, transients) && Ordered() && ReadsCovered(nodes, E())
      modifies this`bound, this`concrete, this`slotWriter
      modifies this`poolAlign, this`memory, this`places, this`barriersBefore, this`planned
      modifies Footprint(transients)`offset, Footprint(transients)`placed
      ensures Built() && Bindable() && poolAlign == align && forall s :: 0 <= s < |bound| ==> bound[s] == None
    {
      PlanChecked(align);
      Ready();
    }

    /** Readies a planned graph for binding; its plans stand. */
    method Ready()
      requires Built()
      modifies this`bound, this`concrete, this`slotWriter
      ensures Built() && Bindable() && forall s :: 0 <= s < |bound| ==> bound[s] == None
    {
      PrepareBindings();
    }

    // ---- binding ----

    /** Slots take new resources between runs. One bad binding, or a conflict the batch would cause, and
        every slot keeps what it had. `supported` is whether the backend takes the rebind. */
    method Bind(batch: seq<SlotBinding>, supported: bool) returns (result: BindError)
      requires Bindable()
      modifies this`bound
      ensures Bindable()
      ensures result == Accepted ==> bound == Applied(old(bound), batch)
      ensures result == Accepted ==> forall s: nat :: s < |bound| ==> Rebound(old(bound), batch, bound, s)
      ensures result != Accepted ==> bound == old(bound)
      ensures result == Accepted <==> Accepts(nodes, slots, old(bound), inFlight, batch, supported)
      ensures result == Unacceptable <==>
                exists b :: b in batch &&
                  (b.slot < 1 || b.slot > |slots| || b.view == None || !b.admissible ||
                   b.view.value.size < slots[b.slot - 1].limit)
      ensures result == InFlight <==> (forall b :: b in batch ==> Acceptable(slots, b)) && inFlight
      ensures result == Overlapping <==>
                && (forall b :: b in batch ==> Acceptable(slots, b)) && !inFlight
                && !BindingsSafe(nodes, Applied(old(bound), batch))
    {
      for i := 0 to |batch|
        invariant forall j :: 0 <= j < i ==> Acceptable(slots, batch[j])
      {
        if !Acceptable(slots, batch[i]) {
          assert batch[i] in batch;
          return Unacceptable;
        }
      }
      if inFlight {
        return InFlight;
      }
      var next := Applied(bound, batch);
      var clear := CheckOverlaps(nodes, next, slotWriter, concrete);
      if !clear {
        return Overlapping;
      }
      if !supported {
        return Unsupported;
      }
      AppliedWide(slots, bound, batch);
      forall s: nat | s < |bound|
        ensures Rebound(bound, batch, next, s)
      {
        AppliedRebinds(bound, batch, s);
      }
      bound := next;
      return Accepted;
    }

    /** Marks the graph in flight, unless it is already or some slot it needs is not usable. */
    method Begin(usable: bool) returns (ok: bool)
      modifies this`inFlight
      ensures ok <==> !old(inFlight) && usable
      ensures inFlight == (old(inFlight) || ok)
    {
      ok := !inFlight && usable;
      if ok {
        inFlight := true;
      }
    }

    method Finish()
      modifies this`inFlight
      ensures !inFlight
    {
      inFlight := false;
    }

    /** Any sequence of batches and runs, each accepted or refused, leaves the bindings safe, and leaves
        them what the accepted batches made them. */
    method CallEach(calls: seq<Call>)
      requires Bindable()
      modifies this`bound, this`inFlight
      ensures Bindable()
      ensures CallState(bound, inFlight) == AfterCalls(nodes, slots, old(CallState(bound, inFlight)), calls)
      ensures |bound| == |old(bound)|
      ensures forall s: nat :: s < |bound| ==>
                HasLast(nodes, slots, old(CallState(bound, inFlight)), calls, bound, s)
    {
      ghost var was := CallState(bound, inFlight);
      for i := 0 to |calls|
        invariant Bindable()
        invariant CallState(bound, inFlight) == AfterCalls(nodes, slots, old(CallState(bound, inFlight)), calls[..i])
      {
        assert calls[..i + 1][..i] == calls[..i];
        match calls[i]
        case Rebind(batch, supported) => var result := Bind(batch, supported);
        case Start(usable) => var ok := Begin(usable);
        case End => Finish();
      }
      assert calls[..|calls|] == calls;
      forall s: nat | s < |was.bound|
        ensures |bound| == |was.bound| && HasLast(nodes, slots, was, calls, bound, s)
      {
        LastCallsBind(nodes, slots, was, calls, s);
      }
    }
  }

  /** A pool over budget is refused with the memory its plan needs. */
  datatype BuildResult = AlreadyBuilt | RecordingErrors | NotWritten | OverBudget(memory: GraphMemory)
    | Built(graph: Graph)

  /** Builds a recording: the optimized plan, or the conservative one it is checked against. `plan` is
      the graph that was planned, if it came to that. */
  method Build(r: Recorder, naive: bool, align: nat, budget: nat) returns (res: BuildResult, ghost plan: Graph?)
    requires r.Valid()
    modifies r`built, Footprint(r.transients)`offset, Footprint(r.transients)`placed
    ensures r.built && r.Valid()
    ensures res.AlreadyBuilt? <==> old(r.built)
    ensures res.RecordingErrors? <==> !old(r.built) && r.errs > 0
    ensures res.NotWritten? <==> !old(r.built) && r.errs == 0 && !WrittenEarlier(r.nodes)
    ensures res.Built? || res.OverBudget? ==>
              && plan != null && fresh(plan) && fresh(plan.reach)
              && BuiltFrom(plan, r.nodes, r.slots, r.transients, naive, align)
              && (res.OverBudget? <==> 0 < budget < plan.memory.transientBytes)
    ensures res.Built? ==> res.graph == plan
    ensures res.OverBudget? ==> res.memory == plan.memory
  {
    plan := null;
    if r.built {
      return AlreadyBuilt, plan;
    }
    r.built := true;
    if r.errs > 0 {
      return RecordingErrors, plan;
    }
    assert Recorded(r.nodes, r.slots, r.transients);
    var g := new Graph(r.nodes, r.slots, r.transients, naive);
    var written := g.Prepare(align);
    if !written {
      return NotWritten, plan;
    }
    plan := g;
    if budget > 0 && g.memory.transientBytes > budget {
      return OverBudget(g.memory), plan;
    }
    return Built(g), plan;
  }

  /** A graph built from a recording, with every slot still unbound. */
  ghost predicate BuiltFrom(g: Graph, nodes: seq<Node>, slots: seq<SlotDescriptor>, transients: seq<Transient>,
    naive: bool, align: nat)
    reads g, g.reach, transients
  {
    && g.nodes == nodes && g.slots == slots && g.transients == transients && g.naive == naive
    && g.Built() && g.Bindable() && g.poolAlign == align && !g.inFlight
    && (forall s :: 0 <= s < |g.bound| ==> g.bound[s] == None)
  }

  /** Two built graphs of one recording, one by each plan, bound alike and ready to be called. */
  ghost predicate Pair(g: Graph, h: Graph)
    reads g, h, g.reach, h.reach, g.transients, h.transients
  {
    && !g.naive && h.naive && g.nodes == h.nodes && g.slots == h.slots && g.bound == h.bound && g.inFlight == h.inFlight
    && g.Built() && g.Bindable() && h.Built() && h.Bindable()
  }
}
