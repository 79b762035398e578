/** The two plans side by side: one recording built optimized and conservatively, and the two graphs put
    through the same calls, are interchangeable for every caller. */
module Comparison {
  import opened Agreement
  import opened Coverage
  import opened Graphs
  import opened Packing
  import opened Recorders

  /** Puts both graphs through the same calls: they stay bound alike, and interchangeable for every
      caller. */
  method CallBoth(g: Graph, h: Graph, calls: seq<Call>)
    requires g != h && Pair(g, h)
    modifies g`bound, g`inFlight, h`bound, h`inFlight
    ensures Pair(g, h) && LeaveTheSame(g, h)
  {
    CallFirst(g, h, calls);
    CallFirst(h, g, calls);
    TwinsLeaveTheSame(g, h);
  }

  /** Calling one graph leaves what both were built to be, and the other's bindings. */
  method CallFirst(g: Graph, h: Graph, calls: seq<Call>)
    requires g != h && g.Built() && h.Built() && g.Bindable() && h.Bindable()
    modifies g`bound, g`inFlight
    ensures g.Built() && h.Built() && g.Bindable() && h.Bindable()
    ensures CallState(g.bound, g.inFlight) == AfterCalls(g.nodes, g.slots, old(CallState(g.bound, g.inFlight)), calls)
  {
    CallOne(g, calls);
  }

  method CallOne(g: Graph, calls: seq<Call>)
    requires g.Built() && g.Bindable()
    modifies g`bound, g`inFlight
    ensures g.Built() && g.Bindable()
    ensures CallState(g.bound, g.inFlight) == AfterCalls(g.nodes, g.slots, old(CallState(g.bound, g.inFlight)), calls)
  {
    g.CallEach(calls);
  }

  lemma BuiltPair(g: Graph, h: Graph, align: nat)
    requires BuiltFrom(g, g.nodes, g.slots, g.transients, false, align)
    requires BuiltFrom(h, g.nodes, g.slots, h.transients, true, align)
    ensures Pair(g, h)
  {
    assert |g.bound| == |h.bound| == |g.slots|;
    assert g.bound == h.bound;
  }

  /** Builds a recording that holds no error, without a budget. */
  method BuildPlain(r: Recorder, naive: bool, align: nat) returns (g: Graph?)
    requires r.Valid() && !r.built && r.errs == 0
    modifies r`built, Footprint(r.transients)`offset, Footprint(r.transients)`placed
    ensures g != null <==> WrittenEarlier(r.nodes)
    ensures g != null ==> fresh(g) && fresh(g.reach) && BuiltFrom(g, r.nodes, r.slots, r.transients, naive, align)
  {
    var res, plan := Build(r, naive, align, 0);
    g := if res.Built? then res.graph else null;
  }

  /** A built graph stays what it is while a second recording is built. */
  method BuildBeside(g: Graph, o: Recorder, align: nat) returns (h: Graph)
    requires BuiltFrom(g, g.nodes, g.slots, g.transients, false, align) && WrittenEarlier(o.nodes)
    requires o.Valid() && !o.built && o.errs == 0 && forall t :: t in g.transients ==> t !in o.transients
    modifies o`built, Footprint(o.transients)`offset, Footprint(o.transients)`placed
    ensures BuiltFrom(g, g.nodes, g.slots, g.transients, false, align)
    ensures fresh(h) && BuiltFrom(h, o.nodes, o.slots, o.transients, true, align)
  {
    var p := BuildPlain(o, true, align);
    h := p;
  }

  /** Builds the conservative graph of a recording beside its optimized one, and calls both. */
  method BuildOther(g: Graph, o: Recorder, align: nat, calls: seq<Call>) returns (h: Graph)
    requires BuiltFrom(g, o.nodes, o.slots, g.transients, false, align) && WrittenEarlier(o.nodes)
    requires o.Valid() && !o.built && o.errs == 0 && forall t :: t in g.transients ==> t !in o.transients
    modifies g`bound, g`inFlight, o`built, Footprint(o.transients)`offset, Footprint(o.transients)`placed
    ensures Pair(g, h) && LeaveTheSame(g, h)
  {
    h := BuildBeside(g, o, align);
    BuiltPair(g, h, align);
    CallBoth(g, h, calls);
  }

  /** Builds one recording by both plans, and puts both graphs through the same calls. */
  method BuildBoth(r: Recorder, o: Recorder, align: nat, calls: seq<Call>) returns (g: Graph?, h: Graph?)
    requires r.Valid() && o.Valid() && r != o && !r.built && !o.built && r.errs == o.errs == 0
    requires r.nodes == o.nodes && r.slots == o.slots && forall t :: t in r.transients ==> t !in o.transients
    modifies r`built, Footprint(r.transients)`offset, Footprint(r.transients)`placed
    modifies o`built, Footprint(o.transients)`offset, Footprint(o.transients)`placed
    ensures g != null <==> WrittenEarlier(r.nodes)
    ensures h != null <==> WrittenEarlier(r.nodes)
    ensures g != null && h != null ==> g.nodes == r.nodes && Pair(g, h) && LeaveTheSame(g, h)
  {
    h := null;
    g := BuildPlain(r, false, align);
    if g != null {
      h := BuildOther(g, o, align, calls);
    }
  }
}
