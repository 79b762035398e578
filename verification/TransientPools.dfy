/** A transient pool shared by several graphs: its own critical sections, and the interleaved lifecycle
    of the pool and the graphs planned into it. */
module TransientPools {

  // ---- the pool ----

  /** The backing block is the `generation`-th one made; zero is none. */
  datatype PoolState = PoolState(closed: bool, bytes: nat, graphs: int, inFlight: bool, generation: nat, made: nat)

  predicate CanReserve(p: PoolState) {
    !p.closed && !p.inFlight
  }

  /** Growing replaces the block; the previous one is freed. */
  function Reserved(p: PoolState, n: nat): PoolState
    requires CanReserve(p)
  {
    if n > p.bytes then
      p.(bytes := n, graphs := p.graphs + 1, generation := p.made + 1, made := p.made + 1)
    else p.(graphs := p.graphs + 1)
  }

  predicate CanBegin(p: PoolState) {
    !p.closed && !p.inFlight
  }

  predicate CanClose(p: PoolState) {
    !p.closed && p.graphs <= 0
  }

  function ClosedPool(p: PoolState): PoolState {
    p.(closed := true, bytes := 0, generation := 0)
  }

  class TransientPool {
    var block: nat
    var made: nat
    var bytes: nat
    var graphs: int
    var inFlight: bool
    var closed: bool

    ghost function State(): PoolState
      reads this
    {
      PoolState(closed, bytes, graphs, inFlight, block, made)
    }

    constructor ()
      ensures State() == PoolState(false, 0, 0, false, 0, 0)
    {
      block, made, bytes, graphs, inFlight, closed := 0, 0, 0, 0, false, false;
    }

    /** Makes the pool at least n bytes and counts one more graph; refused while anything runs. */
    method Reserve(n: nat) returns (ok: bool)
      modifies this
      ensures ok <==> CanReserve(old(State()))
      ensures State() == if ok then Reserved(old(State()), n) else old(State())
    {
      if closed || inFlight {
        return false;
      }
      if n > bytes {
        made := made + 1;
        block := made;
        bytes := n;
      }
      graphs := graphs + 1;
      ok := true;
    }

    method Release()
      modifies this
      ensures State() == old(State()).(graphs := old(graphs) - 1)
    {
      graphs := graphs - 1;
    }

    /** The only way to become the running graph: it fails, without waiting, unless the pool is idle. */
    method Begin() returns (ok: bool)
      modifies this
      ensures ok <==> CanBegin(old(State()))
      ensures State() == if ok then old(State()).(inFlight := true) else old(State())
    {
      if closed || inFlight {
        return false;
      }
      inFlight := true;
      ok := true;
    }

    method End()
      modifies this
      ensures State() == old(State()).(inFlight := false)
    {
      inFlight := false;
    }

    /** Frees the memory; refused while a graph still shares it. Closing twice is nothing. */
    method Close() returns (ok: bool)
      modifies this
      ensures ok <==> old(closed) || old(graphs) <= 0
      ensures State() == if CanClose(old(State())) then ClosedPool(old(State())) else old(State())
    {
      if closed {
        return true;
      }
      if graphs > 0 {
        return false;
      }
      closed := true;
      block, bytes := 0, 0;
      ok := true;
    }
  }

  // ---- the pool and its graphs, interleaved ----

  /** A graph handle: usable; closed but still holding the pool; cut off from it; no longer counted. */
  datatype Handle = Usable | Closing | CutOff | Gone

  /** A graph's one submission: none; marked in flight; executing over a block; claim given back. */
  datatype Flight = Idle | Marked | Executing(block: nat) | Unclaimed

  /** A graph that needs `need` bytes of the pool. */
  datatype GraphState = GraphState(need: nat, handle: Handle, flight: Flight)

  datatype System = System(pool: PoolState, graphs: map<nat, GraphState>)

  /** One critical section of one thread. A refused step changes nothing. */
  datatype Step =
    | Build(id: nat, need: nat)
    | Mark(id: nat)
    | Claim(id: nat)
    | Finish(id: nat)
    | Unmark(id: nat)
    | BeginClose(id: nat)
    | CutLoose(id: nat)
    | Drop(id: nat)
    | ClosePool

  ghost predicate HasHandle(s: System, id: nat, h: Handle) {
    id in s.graphs && s.graphs[id].handle == h
  }

  ghost function With(s: System, id: nat, g: GraphState): System {
    s.(graphs := s.graphs[id := g])
  }

  ghost function Apply(s: System, step: Step): System {
    match step
    case Build(id, need) =>
      if id !in s.graphs && CanReserve(s.pool) then
        With(s.(pool := Reserved(s.pool, need)), id, GraphState(need, Usable, Idle))
      else s
    case Mark(id) =>
      if HasHandle(s, id, Usable) && s.graphs[id].flight == Idle
      then With(s, id, s.graphs[id].(flight := Marked))
      else s
    case Claim(id) =>
      if id in s.graphs && s.graphs[id].flight == Marked then
        if CanBegin(s.pool) then
          With(s.(pool := s.pool.(inFlight := true)), id, s.graphs[id].(flight := Executing(s.pool.generation)))
        else With(s, id, s.graphs[id].(flight := Unclaimed))
      else s
    case Finish(id) =>
      if id in s.graphs && s.graphs[id].flight.Executing? then
        With(s.(pool := s.pool.(inFlight := false)), id, s.graphs[id].(flight := Unclaimed))
      else s
    case Unmark(id) =>
      if id in s.graphs && s.graphs[id].flight == Unclaimed then With(s, id, s.graphs[id].(flight := Idle)) else s
    case BeginClose(id) =>
      if HasHandle(s, id, Usable) && s.graphs[id].flight == Idle
      then With(s, id, s.graphs[id].(handle := Closing))
      else s
    case CutLoose(id) =>
      if HasHandle(s, id, Closing) then With(s, id, s.graphs[id].(handle := CutOff)) else s
    case Drop(id) =>
      if HasHandle(s, id, CutOff) then
        With(s.(pool := s.pool.(graphs := s.pool.graphs - 1)), id, s.graphs[id].(handle := Gone))
      else s
    case ClosePool => if CanClose(s.pool) then s.(pool := ClosedPool(s.pool)) else s
  }

  ghost function RunSteps(s: System, steps: seq<Step>): System {
    if steps == [] then s else Apply(RunSteps(s, steps[..|steps| - 1]), steps[|steps| - 1])
  }

  ghost function Start(): System {
    System(PoolState(false, 0, 0, false, 0, 0), map[])
  }

  /** One step performed on a real pool: what its own methods allow decides what becomes of the graph. */
  method Perform(p: TransientPool, graphs: map<nat, GraphState>, step: Step) returns (after: map<nat, GraphState>)
    modifies p
    ensures System(p.State(), after) == Apply(System(old(p.State()), graphs), step)
  {
    after := graphs;
    match step
    case Build(id, need) =>
      if id !in graphs {
        var ok := p.Reserve(need);
        if ok {
          after := graphs[id := GraphState(need, Usable, Idle)];
        }
      }
    case Mark(id) =>
      if id in graphs && graphs[id].handle == Usable && graphs[id].flight == Idle {
        after := graphs[id := graphs[id].(flight := Marked)];
      }
    case Claim(id) =>
      if id in graphs && graphs[id].flight == Marked {
        var ok := p.Begin();
        after := graphs[id := graphs[id].(flight := if ok then Executing(p.block) else Unclaimed)];
      }
    case Finish(id) =>
      if id in graphs && graphs[id].flight.Executing? {
        p.End();
        after := graphs[id := graphs[id].(flight := Unclaimed)];
      }
    case Unmark(id) =>
      if id in graphs && graphs[id].flight == Unclaimed {
        after := graphs[id := graphs[id].(flight := Idle)];
      }
    case BeginClose(id) =>
      if id in graphs && graphs[id].handle == Usable && graphs[id].flight == Idle {
        after := graphs[id := graphs[id].(handle := Closing)];
      }
    case CutLoose(id) =>
      if id in graphs && graphs[id].handle == Closing {
        after := graphs[id := graphs[id].(handle := CutOff)];
      }
    case Drop(id) =>
      if id in graphs && graphs[id].handle == CutOff {
        p.Release();
        after := graphs[id := graphs[id].(handle := Gone)];
      }
    case ClosePool =>
      var ok := p.Close();
  }

  /** Any interleaving performed on a new pool leaves it, and its graphs, where the steps lead: what is
      proved of every run of steps holds of the pool itself. */
  method Interleave(steps: seq<Step>) returns (p: TransientPool, graphs: map<nat, GraphState>)
    ensures fresh(p) && System(p.State(), graphs) == RunSteps(Start(), steps)
    ensures Invariant(System(p.State(), graphs))
  {
    p := new TransientPool();
    graphs := map[];
    for i := 0 to |steps|
      invariant fresh(p) && System(p.State(), graphs) == RunSteps(Start(), steps[..i])
    {
      assert steps[..i + 1][..i] == steps[..i];
      graphs := Perform(p, graphs, steps[i]);
    }
    assert steps[..|steps|] == steps;
    RunKeeps(steps);
  }

  /** The graphs the pool still counts. */
  ghost function Holders(s: System): set<nat> {
    set id | id in s.graphs && s.graphs[id].handle != Gone
  }

  ghost predicate Runs(s: System, id: nat) {
    id in s.graphs && s.graphs[id].flight.Executing?
  }

  /** A graph in flight is still usable; one that holds the pool fits in it; one that executes does so
      over the block the pool has now. */
  ghost predicate GraphOk(s: System, id: nat)
    requires id in s.graphs
  {
    var g := s.graphs[id];
    && (g.flight != Idle ==> g.handle == Usable)
    && (g.handle != Gone ==> !s.pool.closed && g.need <= s.pool.bytes)
    && (g.flight.Executing? ==> s.pool.inFlight && g.flight.block == s.pool.generation)
  }

  ghost predicate Invariant(s: System) {
    && (forall id :: id in s.graphs ==> GraphOk(s, id))
    && (forall a, b :: Runs(s, a) && Runs(s, b) ==> a == b)
    && (s.pool.inFlight ==> exists id :: Runs(s, id))
    && s.pool.graphs == |Holders(s)|
    && (s.pool.bytes > 0 ==> s.pool.generation > 0) && s.pool.generation <= s.pool.made
    && (s.pool.closed ==> s.pool.bytes == 0 && s.pool.generation == 0)
  }

  lemma StartInvariant()
    ensures Invariant(Start())
  {
    assert Holders(Start()) == {};
  }

  lemma SameHolders(s: System, id: nat, g: GraphState)
    requires id in s.graphs && (g.handle == Gone <==> s.graphs[id].handle == Gone)
    ensures Holders(With(s, id, g)) == Holders(s)
  {
  }

  lemma BuildKeeps(s: System, id: nat, need: nat)
    requires Invariant(s)
    ensures Invariant(Apply(s, Build(id, need)))
  {
    var t := Apply(s, Build(id, need));
    if t != s {
      assert forall a :: Runs(t, a) ==> Runs(s, a);
      assert forall a :: !Runs(s, a);
      assert Holders(t) == Holders(s) + {id};
      forall a | a in t.graphs
        ensures GraphOk(t, a)
      {
        assert a != id ==> GraphOk(s, a);
      }
    }
  }

  lemma ClaimKeeps(s: System, id: nat)
    requires Invariant(s)
    ensures Invariant(Apply(s, Claim(id)))
  {
    var t := Apply(s, Claim(id));
    if id in s.graphs && s.graphs[id].flight == Marked {
      assert GraphOk(s, id);
      SameHolders(s, id, t.graphs[id]);
      assert Holders(t) == Holders(s);
      if CanBegin(s.pool) {
        forall a
          ensures !Runs(s, a)
        {
          assert a in s.graphs ==> GraphOk(s, a);
        }
        assert Runs(t, id);
      } else if s.pool.inFlight {
        var r :| Runs(s, r);
        assert Runs(t, r);
      }
      forall a | a in t.graphs
        ensures GraphOk(t, a)
      {
        assert GraphOk(s, a);
      }
      assert forall a :: Runs(t, a) ==> a == id || Runs(s, a);
    }
  }

  lemma FinishKeeps(s: System, id: nat)
    requires Invariant(s)
    ensures Invariant(Apply(s, Finish(id)))
  {
    var t := Apply(s, Finish(id));
    if id in s.graphs && s.graphs[id].flight.Executing? {
      assert Runs(s, id) && GraphOk(s, id);
      forall a
        ensures !Runs(t, a)
      {
        assert Runs(t, a) ==> Runs(s, a);
      }
      assert Holders(t) == Holders(s);
      forall a | a in t.graphs
        ensures GraphOk(t, a)
      {
        assert GraphOk(s, a);
        assert a != id ==> !Runs(s, a);
      }
    }
  }

  lemma DropKeeps(s: System, id: nat)
    requires Invariant(s)
    ensures Invariant(Apply(s, Drop(id)))
  {
    var t := Apply(s, Drop(id));
    if HasHandle(s, id, CutOff) {
      assert GraphOk(s, id);
      assert id in Holders(s) && Holders(t) == Holders(s) - {id};
      if s.pool.inFlight {
        var r :| Runs(s, r);
        assert Runs(t, r);
      }
      forall a | a in t.graphs
        ensures GraphOk(t, a)
      {
        assert GraphOk(s, a);
      }
      assert forall a :: Runs(t, a) ==> Runs(s, a);
    }
  }

  lemma ClosePoolKeeps(s: System)
    requires Invariant(s)
    ensures Invariant(Apply(s, ClosePool))
  {
    var t := Apply(s, ClosePool);
    if CanClose(s.pool) {
      assert Holders(t) == Holders(s) == {};
      forall a | a in t.graphs
        ensures GraphOk(t, a) && t.graphs[a].flight == Idle
      {
        assert GraphOk(s, a);
        assert a !in Holders(s);
      }
      forall a
        ensures !Runs(s, a)
      {
        assert a in t.graphs ==> t.graphs[a].flight == Idle;
      }
    }
  }

  /** The steps that touch one graph's own marks and never the pool. */
  lemma MarksKeep(s: System, t: System, id: nat)
    requires Invariant(s) && id in s.graphs && id in t.graphs && t == With(s, id, t.graphs[id])
    requires GraphOk(t, id) && !s.graphs[id].flight.Executing? && !t.graphs[id].flight.Executing?
    requires t.graphs[id].handle == Gone <==> s.graphs[id].handle == Gone
    ensures Invariant(t)
  {
    SameHolders(s, id, t.graphs[id]);
    if s.pool.inFlight {
      var r :| Runs(s, r);
      assert Runs(t, r);
    }
    forall a | a in t.graphs
      ensures GraphOk(t, a)
    {
      assert GraphOk(s, a);
    }
    assert forall a :: Runs(t, a) ==> Runs(s, a);
  }

  lemma StepKeeps(s: System, step: Step)
    requires Invariant(s)
    ensures Invariant(Apply(s, step))
  {
    var t := Apply(s, step);
    match step
    case Build(id, need) => BuildKeeps(s, id, need);
    case Claim(id) => ClaimKeeps(s, id);
    case Finish(id) => FinishKeeps(s, id);
    case Drop(id) => DropKeeps(s, id);
    case ClosePool => ClosePoolKeeps(s);
    case Mark(id) =>
      if t != s {
        assert GraphOk(s, id);
        MarksKeep(s, t, id);
      }
    case Unmark(id) =>
      if t != s {
        assert GraphOk(s, id);
        MarksKeep(s, t, id);
      }
    case BeginClose(id) =>
      if t != s {
        assert GraphOk(s, id);
        MarksKeep(s, t, id);
      }
    case CutLoose(id) =>
      if t != s {
        assert GraphOk(s, id);
        MarksKeep(s, t, id);
      }
  }

  lemma {:induction false} RunKeeps(steps: seq<Step>)
    ensures Invariant(RunSteps(Start(), steps))
  {
    if steps == [] {
      StartInvariant();
    } else {
      RunKeeps(steps[..|steps| - 1]);
      StepKeeps(RunSteps(Start(), steps[..|steps| - 1]), steps[|steps| - 1]);
    }
  }

  /** In every interleaving: at most one graph executes, over the block the pool holds, which is neither
      freed nor too small for any graph that still holds the pool, and the count is exact. */
  lemma Safety(steps: seq<Step>)
    ensures var s := RunSteps(Start(), steps);
            && (forall a, b :: Runs(s, a) && Runs(s, b) ==> a == b)
            && (forall a :: Runs(s, a) ==> !s.pool.closed && s.graphs[a].flight.block == s.pool.generation)
            && (forall a :: a in Holders(s) ==> !s.pool.closed && s.graphs[a].need <= s.pool.bytes)
            && s.pool.graphs == |Holders(s)|
  {
    RunKeeps(steps);
    var s := RunSteps(Start(), steps);
    forall a | a in s.graphs
      ensures GraphOk(s, a)
    {
    }
  }

  /** No step of any thread swaps or frees the block under a graph that executes before and after it. */
  lemma BlockHeld(steps: seq<Step>, step: Step, id: nat)
    requires var s := RunSteps(Start(), steps); Runs(s, id) && step != Finish(id)
    ensures var s := RunSteps(Start(), steps); var t := Apply(s, step);
            Runs(t, id) && t.pool.generation == s.pool.generation && t.pool.bytes == s.pool.bytes && !t.pool.closed
  {
    RunKeeps(steps);
    var s := RunSteps(Start(), steps);
    assert GraphOk(s, id);
    StepKeeps(s, step);
    assert id in Holders(s);
    assert |Holders(s)| > 0;
    assert forall a :: Runs(s, a) ==> a == id;
  }

  /** A marked graph's claim is granted exactly when no graph is executing. */
  lemma ClaimExact(steps: seq<Step>, id: nat)
    requires var s := RunSteps(Start(), steps); id in s.graphs && s.graphs[id].flight == Marked
    ensures var s := RunSteps(Start(), steps); Runs(Apply(s, Claim(id)), id) <==> forall a :: !Runs(s, a)
  {
    RunKeeps(steps);
    var s := RunSteps(Start(), steps);
    assert GraphOk(s, id);
    if a :| Runs(s, a) {
      assert GraphOk(s, a);
    }
  }

  /** A new graph is built into the pool exactly while it is open and no graph is executing, and the pool then
      holds as much as the largest graph built into it needs. */
  lemma BuildExact(steps: seq<Step>, id: nat, need: nat)
    requires id !in RunSteps(Start(), steps).graphs
    ensures var s := RunSteps(Start(), steps); var t := Apply(s, Build(id, need));
            && (id in t.graphs <==> !s.pool.closed && forall a :: !Runs(s, a))
            && (id in t.graphs ==> t.pool.bytes == (if need > s.pool.bytes then need else s.pool.bytes))
            && (id in t.graphs ==> (t.pool.generation != s.pool.generation <==> need > s.pool.bytes))
  {
    RunKeeps(steps);
    var s := RunSteps(Start(), steps);
    if a :| Runs(s, a) {
      assert GraphOk(s, a);
    }
  }

  /** The pool closes exactly when no graph holds it any more, and keeps no memory then. */
  lemma CloseExact(steps: seq<Step>)
    ensures var s := RunSteps(Start(), steps);
            && (!s.pool.closed ==> (Apply(s, ClosePool).pool.closed <==> Holders(s) == {}))
            && (s.pool.closed ==> s.pool.bytes == 0 && s.pool.generation == 0)
  {
    RunKeeps(steps);
  }
}
