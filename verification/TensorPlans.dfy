/** Compiling a recorded tensor graph: slots for the windows it names, a dispatch per operator, and the
    copies that in-place kernels, fan-out and broadcasts need. */
module TensorPlans {
  import opened Broadcasts
  import opened Lowering
  import opened LoweringSteps
  import opened Machine
  import opened Options
  import opened Shapes
  import opened TensorGraphs
  import opened Versions
  import opened Views

  /** The windows lowering declares slots for. */
  ghost predicate InputWindow(g: TensorGraph, i: nat, w: Window)
    requires i < |g.nodes|
  {
    exists j: nat :: j < |g.nodes[i].inputs| && OperandWindow(g, g.nodes[i].inputs[j], w)
  }

  ghost predicate OperandWindow(g: TensorGraph, t: Tensor, w: Window) {
    t.node < 0 && IsNamed(g, t, w)
  }

  ghost predicate NodeWindow(g: TensorGraph, i: nat, w: Window)
    requires i < |g.nodes|
  {
    InputWindow(g, i, w) || IsTarget(g.nodes[i], w)
  }

  ghost predicate Declared(g: TensorGraph, w: Window) {
    || (exists i: nat :: i < |g.nodes| && NodeWindow(g, i, w))
    || (exists o :: o in g.outputs && IsWhole(g, o.port, w))
  }

  ghost predicate NodesName(g: TensorGraph, n: nat, w: Window)
    requires n <= |g.nodes|
  {
    exists i: nat :: i < n && NodeWindow(g, i, w)
  }

  ghost predicate OutputsName(g: TensorGraph, n: nat, w: Window)
    requires n <= |g.outputs|
  {
    exists k: nat :: k < n && OutputWindow(g, k, w)
  }

  ghost predicate OutputWindow(g: TensorGraph, k: nat, w: Window)
    requires k < |g.outputs|
  {
    IsWhole(g, g.outputs[k].port, w)
  }

  lemma NamedIsDeclared(g: TensorGraph, w: Window)
    ensures Declared(g, w) <==> NodesName(g, |g.nodes|, w) || OutputsName(g, |g.outputs|, w)
  {
    if o :| o in g.outputs && IsWhole(g, o.port, w) {
      var k: nat :| k < |g.outputs| && g.outputs[k] == o;
      assert OutputWindow(g, k, w);
    }
    if k: nat :| k < |g.outputs| && OutputWindow(g, k, w) {
      assert g.outputs[k] in g.outputs;
    }
  }

  /** What lowering accepts of one operand. */
  ghost predicate OperandLowers(g: TensorGraph, n: Op, t: Tensor)
    requires t.view.Ok()
  {
    && (t.port.Some? ==> forall w :: IsNamed(g, t, w) ==> Declared(g, w))
    && (Contiguously(t.view) || n.bcast || n.strided)
    && (n.bcast && !TakenAsIs(n, t) ==> Expands(t.view, n.shape) && exists b :: Modular(t.view, n.shape, b))
  }

  ghost predicate NodeLowers(g: TensorGraph, i: nat)
    requires WellFormed(g) && i < |g.nodes|
  {
    && OpOk(g, i) && (forall j: nat :: j < |g.nodes[i].inputs| ==> OperandLowersAt(g, i, j))
    && (g.nodes[i].inPlace ==> g.nodes[i].inputs != [])
  }

  ghost predicate OperandLowersAt(g: TensorGraph, i: nat, j: nat)
    requires WellFormed(g) && i < |g.nodes| && j < |g.nodes[i].inputs|
  {
    TensorOk(g, i, g.nodes[i].inputs[j]) && OperandLowers(g, g.nodes[i], g.nodes[i].inputs[j])
  }

  ghost predicate Compiles(g: TensorGraph) {
    && WellFormed(g) && (forall i: nat :: i < |g.nodes| ==> NodeLowers(g, i))
    && (forall o :: o in g.outputs ==> o.source.Result?)
  }

  /** The output ports naming node i. */
  function NamesOf(outputs: seq<Output>, i: nat): (r: seq<nat>)
    ensures forall p :: p in r <==> exists o :: o in outputs && o.source == Result(i) && o.port == p
  {
    if outputs == [] then []
    else
      var last := outputs[|outputs| - 1];
      var init := NamesOf(outputs[..|outputs| - 1], i);
      assert forall o :: o in outputs <==> o in outputs[..|outputs| - 1] || o == last;
      if last.source == Result(i) then init + [last.port] else init
  }

  ghost function SetOf(names: seq<nat>): set<nat> {
    set p | p in names
  }

  lemma SetOfMore(names: seq<nat>, p: nat)
    ensures SetOf(names + [p]) == SetOf(names) + {p}
  {
  }

  class Plan {
    const g: TensorGraph

    var slots: map<Window, nat>
    var windows: seq<Window>
    var views: seq<Option<nat>>
    var wroteSlot: seq<nat>

    // The recorder: transients so far, and commands.
    var transients: nat
    var commands: seq<Command>

    constructor (g: TensorGraph)
      ensures this.g == g && slots == map[] && windows == [] && commands == [] && transients == 0
    {
      this.g := g;
      slots, windows, views, wroteSlot, transients, commands := map[], [], [], [], 0, [];
    }

    ghost function Tb(): Tables
      reads this
    {
      Tables(windows, views, wroteSlot, transients, commands)
    }

    /** Slot numbers and windows name each other. */
    ghost predicate SlotsOk()
      reads `slots, `windows
    {
      forall w :: w in slots ==> 1 <= slots[w] <= |windows| && windows[slots[w] - 1] == w
    }

    // ---- slots ----

    /** The slot of a window, allocated once. */
    method Declare(w: Window) returns (s: nat)
      requires SlotsOk()
      modifies `slots, `windows
      ensures SlotsOk() && slots.Keys == old(slots.Keys) + {w} && s == slots[w]
      ensures old(windows) <= windows
    {
      if w in slots {
        return slots[w];
      }
      windows := windows + [w];
      s := |windows|;
      slots := slots[w := s];
    }

    method DeclareInputs(i: nat)
      requires SlotsOk() && i < |g.nodes|
      modifies `slots, `windows
      ensures SlotsOk() && forall w :: w in slots <==> w in old(slots) || InputWindow(g, i, w)
    {
      var inputs := g.nodes[i].inputs;
      for j := 0 to |inputs|
        invariant SlotsOk()
        invariant forall w :: w in slots <==>
                  w in old(slots) || exists k: nat :: k < j && OperandWindow(g, inputs[k], w)
      {
        var t := inputs[j];
        if t.node < 0 && t.port.Some? {
          var s := Declare(WindowOf(g, t));
        }
      }
    }

    method DeclareNode(i: nat)
      requires SlotsOk() && i < |g.nodes|
      modifies `slots, `windows
      ensures SlotsOk() && forall w :: w in slots <==> w in old(slots) || NodeWindow(g, i, w)
    {
      DeclareInputs(i);
      if g.nodes[i].outPort.Some? {
        var s := Declare(OutWindow(g.nodes[i]));
      }
    }

    method DeclareNodes()
      requires SlotsOk() && slots == map[]
      modifies `slots, `windows
      ensures SlotsOk() && forall w :: w in slots <==> NodesName(g, |g.nodes|, w)
    {
      for i := 0 to |g.nodes|
        invariant SlotsOk() && forall w :: w in slots <==> NodesName(g, i, w)
      {
        DeclareNode(i);
      }
    }

    method DeclareOutputs()
      requires SlotsOk()
      modifies `slots, `windows
      ensures SlotsOk() && forall w :: w in slots <==> w in old(slots) || OutputsName(g, |g.outputs|, w)
    {
      for k := 0 to |g.outputs|
        invariant SlotsOk() && forall w :: w in slots <==> w in old(slots) || OutputsName(g, k, w)
      {
        assert forall w :: OutputsName(g, k + 1, w) <==> OutputsName(g, k, w) || OutputWindow(g, k, w);
        var s := Declare(WholePort(g, g.outputs[k].port));
      }
    }

    /** A slot per window some node or output names, before any node is lowered. */
    method DeclareAll()
      requires SlotsOk() && slots == map[]
      modifies `slots, `windows
      ensures SlotsOk() && forall w :: w in slots <==> Declared(g, w)
    {
      DeclareNodes();
      DeclareOutputs();
      forall w
        ensures Declared(g, w) <==> NodesName(g, |g.nodes|, w) || OutputsName(g, |g.outputs|, w)
      {
        NamedIsDeclared(g, w);
      }
    }

    // ---- one operator ----

    /** The tables at the start of an operator, which only its end changes. */
    ghost predicate Since(tb: Tables)
      reads `windows, `views, `wroteSlot
    {
      tb.windows == windows && tb.views == views && tb.wrote == wroteSlot
    }

    ghost predicate SlotsDeclared()
      reads `slots, `windows
    {
      SlotsOk() && forall w :: w in slots <==> Declared(g, w)
    }

    /** Resolves an operand: a port by its slot, a value by the transient or the slot its producer wrote. */
    method Operand(i: nat, t: Tensor, ghost tb: Tables, ghost places: seq<Place>) returns (p: Option<Place>)
      requires AllPrepared(g, tb, commands, transients, i, places) && TensorOk(g, i, t) && Since(tb) && SlotsDeclared()
      ensures p.Some? <==> (t.port.Some? ==> forall w :: IsNamed(g, t, w) ==> Declared(g, w))
      ensures p.Some? && t.port.Some? ==>
                p.value.base.Bound? && 1 <= p.value.base.slot <= |windows| && p.value.at == 0
                && IsNamed(g, t, windows[p.value.base.slot - 1])
      ensures p.Some? ==> BoundTo(g, tb, i, t, p.value)
    {
      if t.port.Some? {
        var w := WindowOf(g, t);
        if w !in slots {
          return None;
        }
        return Some(Place(Bound(slots[w]), 0));
      }
      ProducerRecorded(g, tb, commands, transients, i, places, t);
      if views[t.node].Some? {
        return Some(Place(Scratch(views[t.node].value), 0));
      }
      if wroteSlot[t.node] != 0 {
        return Some(Place(Bound(wroteSlot[t.node]), 0));
      }
      return None;
    }

    /** Records the copies that pack a broadcast operand into a transient. */
    method Materialize(i: nat, j: nat, src: Place, ghost tb: Tables, ghost places: seq<Place>)
      returns (p: Option<Place>)
      requires AllPrepared(g, tb, commands, transients, i, places) && Consumed(g) && Since(tb)
      requires j == |places| < |g.nodes[i].inputs| && TensorOk(g, i, OperandOf(g, i, places)) && g.nodes[i].bcast
      requires BoundTo(g, tb, i, OperandOf(g, i, places), src)
      modifies `commands, `transients
      ensures p.Some? <==>
                var v := OperandOf(g, i, places).view; var want := g.nodes[i].shape;
                Expands(v, want) && exists b :: Modular(v, want, b)
      ensures p.Some? ==> AllPrepared(g, tb, commands, transients, i, places + [p.value])
      ensures old(transients) <= transients
    {
      var n := g.nodes[i];
      var t := n.inputs[j];
      assert OpOk(g, i);
      var block, times, ok := BroadcastRepeats(t.view, n.shape);
      if !ok {
        return None;
      }
      var id := transients;
      CopyingStart(g, tb, commands, id, i, places, src, block);
      for r := 0 to times
        invariant AllCopying(g, tb, commands, id, i, places, src, block, r) && transients == id
      {
        CopyingStep(g, tb, commands, id, i, places, src, block, r);
        RunStartProduct(block, r);
        commands := commands + [Copy(Place(Scratch(id), r * block), Place(src.base, src.at + t.view.offset), block)];
      }
      CopyingEnd(g, tb, commands, id, i, places, src, block, times);
      transients := id + 1;
      p := Some(Place(Scratch(id), 0));
    }

    /** Binds one operand, packing it first if it is a broadcast the kernel cannot index. */
    method LowerOperand(i: nat, j: nat, ghost tb: Tables, places: seq<Place>) returns (p: Option<Place>)
      requires AllPrepared(g, tb, commands, transients, i, places) && Consumed(g) && Since(tb) && SlotsDeclared()
      requires j == |places| < |g.nodes[i].inputs|
      modifies `commands, `transients
      ensures p.Some? <==> OperandLowersAt(g, i, j)
      ensures p.Some? ==> AllPrepared(g, tb, commands, transients, i, places + [p.value])
      ensures old(transients) <= transients
      ensures p.Some? && !g.nodes[i].bcast ==> BoundTo(g, tb, i, g.nodes[i].inputs[j], p.value)
    {
      var n := g.nodes[i];
      var t := n.inputs[j];
      NextOperandOk(g, tb, commands, transients, i, places);
      p := Operand(i, t, tb, places);
      if p.None? {
        return;
      }
      var packed := ContiguousLayout(t.view);
      if !packed && !n.bcast && !n.strided {
        return None;
      }
      if n.bcast && (t.view.shape != n.shape || !packed) {
        p := Materialize(i, j, p.value, tb, places);
        return;
      }
      OperandStep(g, tb, commands, transients, i, places, p.value);
    }

    /** Binds every operand in order. */
    method LowerOperands(i: nat, ghost tb: Tables) returns (places: seq<Place>, ok: bool)
      requires AllPrepared(g, tb, commands, transients, i, []) && Consumed(g) && Since(tb) && SlotsDeclared()
      modifies `commands, `transients
      ensures ok <==> forall j: nat :: j < |g.nodes[i].inputs| ==> OperandLowersAt(g, i, j)
      ensures ok ==> AllPrepared(g, tb, commands, transients, i, places) && |places| == |g.nodes[i].inputs|
      ensures old(transients) <= transients
      ensures ok && !g.nodes[i].bcast && places != [] ==>
                var t := LastInput(g.nodes[i]); TensorOk(g, i, t) && BoundTo(g, tb, i, t, places[|places| - 1])
    {
      places := [];
      for j := 0 to |g.nodes[i].inputs|
        invariant AllPrepared(g, tb, commands, transients, i, places) && |places| == j
        invariant old(transients) <= transients
        invariant forall k: nat :: k < j ==> OperandLowersAt(g, i, k)
        invariant j > 0 && !g.nodes[i].bcast ==>
          TensorOk(g, i, g.nodes[i].inputs[j - 1]) && BoundTo(g, tb, i, g.nodes[i].inputs[j - 1], places[j - 1])
      {
        var p := LowerOperand(i, j, tb, places);
        if p.None? {
          return places, false;
        }
        places := places + [p.value];
      }
      ok := true;
    }

    /** Where a result named by exactly one port, or by a state, goes directly: that window's slot. */
    ghost predicate DirectSlot(i: nat, slot: nat)
      requires WellFormed(g) && i < |g.nodes|
      reads `windows
    {
      && 1 <= slot <= |windows|
      && if g.nodes[i].outPort.Some? then IsTarget(g.nodes[i], windows[slot - 1])
         else NamedBy(g, i, windows[slot - 1]) && NamesOf(g.outputs, i) == [windows[slot - 1].port]
    }

    /** Copies a value into every port of a list. */
    method FanOut(i: nat, id: nat, names: seq<nat>, ghost tb: Tables)
      requires AllRan(g, tb, commands, i, Place(Scratch(id), 0), {}) && Since(tb) && SlotsDeclared()
      requires forall p :: p in names ==> PortNamed(g, i, p)
      modifies `commands
      ensures AllRan(g, tb, commands, i, Place(Scratch(id), 0), SetOf(names))
    {
      for k := 0 to |names|
        invariant AllRan(g, tb, commands, i, Place(Scratch(id), 0), SetOf(names[..k]))
      {
        CopyOut(i, id, names[k], SetOf(names[..k]), tb);
        SetOfMore(names[..k], names[k]);
        assert names[..k + 1] == names[..k] + [names[k]];
      }
      assert names[..|names|] == names;
    }

    /** Copies a value into one port that names it. */
    method CopyOut(i: nat, id: nat, port: nat, ghost done: set<nat>, ghost tb: Tables)
      requires AllRan(g, tb, commands, i, Place(Scratch(id), 0), done) && Since(tb) && SlotsDeclared()
      requires PortNamed(g, i, port)
      modifies `commands
      ensures AllRan(g, tb, commands, i, Place(Scratch(id), 0), done + {port})
    {
      ghost var o :| o in g.outputs && o.source == Result(i) && o.port == port;
      assert Declared(g, WholePort(g, o.port));
      var slot := slots[WholePort(g, port)];
      CopyOutAll(g, tb, commands, i, Place(Scratch(id), 0), done, Place(Bound(slot), 0));
      commands := commands + [Copy(Place(Bound(slot), 0), Place(Scratch(id), 0), Elements(g.nodes[i].shape))];
    }

    /** Moves the operand an in-place kernel rewrites into scratch. */
    method ToScratch(i: nat, places: seq<Place>, ghost tb: Tables) returns (id: nat, moved: seq<Place>)
      requires AllPrepared(g, tb, commands, transients, i, places) && |places| == |g.nodes[i].inputs| > 0
      requires g.nodes[i].inPlace
      modifies `commands, `transients
      ensures id >= tb.next && transients == id + 1 && |moved| == |places|
      ensures moved[|moved| - 1] == Place(Scratch(id), 0)
      ensures AllPrepared(g, tb, commands, transients, i, moved)
    {
      var n := |places| - 1;
      assert places == places[..n] + [places[n]];
      PreparedPrefix(g, tb, commands, transients, i, places[..n], places[n]);
      InPlaceStep(g, tb, commands, transients, i, places[..n], places[n]);
      id := transients;
      transients := id + 1;
      commands := commands + [Copy(Place(Scratch(id), 0), places[n], Elements(g.nodes[i].shape))];
      moved := places[..n] + [Place(Scratch(id), 0)];
    }

    /** Records the dispatch. */
    method Emit(i: nat, places: seq<Place>, result: Place, ghost tb: Tables)
      requires AllPrepared(g, tb, commands, transients, i, places) && |places| == |g.nodes[i].inputs|
      requires ResultPlace(g, tb, i, tb.next, result) && AdvancePlace(g, tb, i, places)
      modifies `commands
      ensures AllRan(g, tb, commands, i, result, {})
    {
      DispatchAll(g, tb, commands, transients, i, places, result);
      commands := commands + [Dispatch(i, places, result)];
    }

    /** The state an advancing operator rewrites is what its last operand is bound to. */
    lemma AdvanceBound(i: nat, places: seq<Place>, tb: Tables)
      requires Fits(g, tb) && i < |g.nodes| && OpOk(g, i) && |places| == |g.nodes[i].inputs|
      requires g.nodes[i].advances ==>
                 var t := LastInput(g.nodes[i]); TensorOk(g, i, t) && BoundTo(g, tb, i, t, places[|places| - 1])
      ensures AdvancePlace(g, tb, i, places)
    {
    }

    /** Writes down where node i's value is. */
    method Note(i: nat, view: Option<nat>, slot: nat)
      requires i < |views| == |wroteSlot|
      modifies `views, `wroteSlot
      ensures views == old(views)[i := view] && wroteSlot == old(wroteSlot)[i := slot]
    {
      views, wroteSlot := views[i := view], wroteSlot[i := slot];
    }

    /** An operator whose kernel writes a result of its own. */
    method LowerPlain(i: nat, places: seq<Place>, view: Option<nat>, slot: nat, names: seq<nat>, ghost tb: Tables)
      requires AllPrepared(g, tb, commands, transients, i, places) && |places| == |g.nodes[i].inputs| && Since(tb)
      requires SlotsDeclared()
      requires AdvancePlace(g, tb, i, places) && names == NamesOf(g.outputs, i)
      requires if view.Some? then tb.next <= view.value < transients && g.nodes[i].outPort.None? && |names| != 1
               else DirectSlot(i, slot)
      modifies `commands, `views, `wroteSlot
      ensures AllGood(g, Tb(), i + 1)
    {
      var result := if view.Some? then Place(Scratch(view.value), 0) else Place(Bound(slot), 0);
      Emit(i, places, result, tb);
      ghost var done: set<nat> := {};
      if view.Some? {
        FanOut(i, view.value, names, tb);
        done := SetOf(names);
      } else if g.nodes[i].outPort.None? {
        DirectOutput(g, tb, commands, i, result);
        done := {windows[slot - 1].port};
      }
      Note(i, view, slot);
      assert forall p: nat :: PortNamed(g, i, p) ==> p in names;
      Finish(i, result, done, tb);
    }

    lemma Finish(i: nat, result: Place, done: set<nat>, tb: Tables)
      requires AllRan(g, tb, commands, i, result, done) && Recorded(g, tb, Tb(), i, result)
      requires forall p: nat :: PortNamed(g, i, p) ==> p in done
      ensures AllGood(g, Tb(), i + 1)
    {
      FinishAll(g, tb, Tb(), i, result, done);
    }

    /** An operator whose kernel rewrites its last operand: in scratch, and out to every port naming it. */
    method LowerInPlace(i: nat, places: seq<Place>, names: seq<nat>, ghost tb: Tables)
      requires AllPrepared(g, tb, commands, transients, i, places) && |places| == |g.nodes[i].inputs| > 0 && Since(tb)
      requires SlotsDeclared()
      requires g.nodes[i].inPlace && names == NamesOf(g.outputs, i) && OpOk(g, i)
      modifies `commands, `views, `wroteSlot, `transients
      ensures AllGood(g, Tb(), i + 1)
    {
      var id, moved := ToScratch(i, places, tb);
      var result := Place(Scratch(id), 0);
      Emit(i, moved, result, tb);
      FanOut(i, id, names, tb);
      var slot := 0;
      if |names| == 1 {
        assert PortNamed(g, i, names[0]);
        ghost var o :| o in g.outputs && o.source == Result(i) && o.port == names[0];
        slot := slots[WholePort(g, names[0])];
      }
      Note(i, Some(id), slot);
      Finish(i, result, SetOf(names), tb);
    }

    /** Where the result goes: a state's window, the one port naming it, or a transient. */
    method PickResult(i: nat, names: seq<nat>) returns (view: Option<nat>, slot: nat)
      requires WellFormed(g) && i < |g.nodes| && SlotsDeclared() && names == NamesOf(g.outputs, i)
      modifies `transients
      ensures g.nodes[i].inPlace ==> transients == old(transients)
      ensures transients >= old(transients)
      ensures !g.nodes[i].inPlace ==>
                if view.Some?
                then old(transients) == view.value < transients && g.nodes[i].outPort.None? && |names| != 1
                else DirectSlot(i, slot)
    {
      var n := g.nodes[i];
      view, slot := None, 0;
      if n.outPort.Some? {
        assert NodeWindow(g, i, OutWindow(n));
        slot := slots[OutWindow(n)];
      } else if |names| == 1 {
        assert names[0] in names;
        ghost var o :| o in g.outputs && o.source == Result(i) && o.port == names[0];
        assert Declared(g, WholePort(g, names[0]));
        slot := slots[WholePort(g, names[0])];
      } else if !n.inPlace {
        view := Some(transients);
        transients := transients + 1;
      }
    }

    /** Lowers one operator: its operands, its dispatch, and the copies around it. */
    method LowerNode(i: nat) returns (ok: bool)
      requires AllGood(g, Tb(), i) && i < |g.nodes| && Consumed(g) && SlotsDeclared()
      modifies `commands, `views, `wroteSlot, `transients
      ensures ok <==> NodeLowers(g, i)
      ensures ok ==> AllGood(g, Tb(), i + 1)
    {
      ghost var tb := Tb();
      var n := g.nodes[i];
      assert OpOk(g, i);
      var names := NamesOf(g.outputs, i);
      var view, slot := PickResult(i, names);
      PrepareStart(g, tb, transients, i);
      var places, good := LowerOperands(i, tb);
      if !good || (n.inPlace && |places| < 1) {
        return false;
      }
      if n.inPlace {
        LowerInPlace(i, places, names, tb);
      } else {
        AdvanceBound(i, places, tb);
        LowerPlain(i, places, view, slot, names, tb);
      }
      ok := true;
    }

    // ---- the whole graph ----

    method Clear()
      modifies `views, `wroteSlot
      ensures |views| == |wroteSlot| == |g.nodes|
    {
      views := seq(|g.nodes|, _ => None);
      wroteSlot := seq(|g.nodes|, _ => 0);
    }

    /** Records a well-formed graph whose states are consumed in time; true exactly when every operator
        lowers and every output names a computed value. */
    method LowerInto() returns (ok: bool)
      requires WellFormed(g) && Consumed(g) && slots == map[] && windows == [] && commands == []
      modifies this
      ensures ok <==> Compiles(g)
      ensures ok ==> AllGood(g, Tb(), |g.nodes|)
    {
      DeclareAll();
      Clear();
      StartGood(g, Tb());
      for i := 0 to |g.nodes|
        invariant AllGood(g, Tb(), i) && SlotsDeclared() && forall k: nat :: k < i ==> NodeLowers(g, k)
      {
        var lowered := LowerNode(i);
        if !lowered {
          return false;
        }
      }
      for k := 0 to |g.outputs|
        invariant forall j :: 0 <= j < k ==> g.outputs[j].source.Result?
      {
        if !g.outputs[k].source.Result? {
          assert g.outputs[k] in g.outputs;
          return false;
        }
      }
      ok := true;
    }
  }

  lemma StartGood(g: TensorGraph, tb: Tables)
    requires Fits(g, tb) && tb.commands == []
    ensures AllGood(g, tb, 0)
  {
    forall w: World | w.g == g
      ensures GoodNow(w, tb, 0)
    {
      forall p: nat, x: nat | p < |g.ports| && g.ports[p].kind != OutputPort
        ensures PortHeld(w, w.start, 0, p, x)
      {
      }
    }
  }

  /** What running a compiled plan leaves behind, whatever the kernels compute and whatever memory held:
      every output port holds the value of the tensor it names, and every other port its last version. */
  lemma PlanComputes(g: TensorGraph, tb: Tables, w: World)
    requires Compiles(g) && AllGood(g, tb, |g.nodes|) && w.g == g
    ensures forall o :: o in g.outputs ==>
              forall x: nat :: x < g.ports[o.port].count ==>
                After(w, tb.windows, tb.commands)(InPort(o.port, x)) == ValueAt(g, w.ks, InitOf(w), o.source.node, x)
    ensures forall p: nat, x: nat :: p < |g.ports| && g.ports[p].kind != OutputPort ==>
              After(w, tb.windows, tb.commands)(InPort(p, x)) == PortAfter(g, w.ks, InitOf(w), |g.nodes|, p, x)
  {
    assert GoodNow(w, tb, |g.nodes|);
    var m := After(w, tb.windows, tb.commands);
    forall o | o in g.outputs
      ensures forall x: nat :: x < g.ports[o.port].count ==>
              m(InPort(o.port, x)) == ValueAt(g, w.ks, InitOf(w), o.source.node, x)
    {
      assert OutputOk(g, o);
      forall x: nat | x < g.ports[o.port].count
        ensures m(InPort(o.port, x)) == ValueAt(g, w.ks, InitOf(w), o.source.node, x)
      {
        assert OutputHeld(w, m, o.source.node, o.port);
        assert ElementHeld(w, m, o.source.node, InPort(o.port, x), x);
      }
    }
    forall p: nat, x: nat | p < |g.ports| && g.ports[p].kind != OutputPort
      ensures m(InPort(p, x)) == PortAfter(g, w.ks, InitOf(w), |g.nodes|, p, x)
    {
      assert PortHeld(w, m, |g.nodes|, p, x);
    }
  }
}
