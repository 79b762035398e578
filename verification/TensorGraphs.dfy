/** Recorded tensor graphs and what they mean: every operator's value from its operands' values, and
    the contents every state port has after each operator. Kernels are arbitrary. */
module TensorGraphs {
  import opened Broadcasts
  import opened Options
  import opened Shapes
  import opened Versions
  import opened Views

  type Elem = int

  /** An operand: a view of a port (of the version some node made, or the initial one) or of a node's
      own result. */
  datatype Tensor = Tensor(view: View, node: int, port: Option<nat>, win: Option<Window>)

  datatype PortKind = InputPort | WeightPort | StatePort | OutputPort

  datatype Port = Port(kind: PortKind, count: nat)

  /** One operator. `outPort` is where in a state its result goes, if it goes there; `advances` says it
      also rewrites its last operand, a state, beside its result. */
  datatype Op = Op(inputs: seq<Tensor>, shape: Shape, outPort: Option<(nat, nat)>,
                   bcast: bool, strided: bool, inPlace: bool, advances: bool)

  /** What an output names: a node's own result, an input or weight, or a state. */
  datatype Source = Result(node: nat) | External | StateValue

  datatype Output = Output(port: nat, source: Source)

  datatype TensorGraph = TensorGraph(nodes: seq<Op>, ports: seq<Port>, outputs: seq<Output>)

  function WholePort(g: TensorGraph, p: nat): Window {
    Window(p, 0, if p < |g.ports| then g.ports[p].count else 0)
  }

  function WindowOf(g: TensorGraph, t: Tensor): Window
    requires t.port.Some?
  {
    if t.win.Some? then t.win.value else WholePort(g, t.port.value)
  }

  function OutWindow(n: Op): Window
    requires n.outPort.Some?
  {
    Window(n.outPort.value.0, n.outPort.value.1, Elements(n.shape))
  }

  /** w is port p from its first element to its last. */
  ghost predicate IsWhole(g: TensorGraph, p: nat, w: Window) {
    w.port == p && w.off == 0 && w.count == if p < |g.ports| then g.ports[p].count else 0
  }

  /** w is the part of its port an operand names: a layer's own, or all of it. */
  ghost predicate IsNamed(g: TensorGraph, t: Tensor, w: Window) {
    t.port.Some? && if t.win.Some? then w == t.win.value else IsWhole(g, t.port.value, w)
  }

  /** w is where in a state an operator leaves its result. */
  ghost predicate IsTarget(n: Op, w: Window) {
    n.outPort.Some? && w.port == n.outPort.value.0 && w.off == n.outPort.value.1 && w.count == Elements(n.shape)
  }

  function LastInput(n: Op): Tensor
    requires n.inputs != []
  {
    n.inputs[|n.inputs| - 1]
  }

  // ---- what the builder guarantees ----

  /** How many elements the storage behind an operand has. */
  ghost function StorageOf(g: TensorGraph, t: Tensor): nat
    requires t.port.Some? || 0 <= t.node < |g.nodes|
  {
    if t.port.Some? then WindowOf(g, t).count else Elements(g.nodes[t.node].shape)
  }

  ghost predicate TensorOk(g: TensorGraph, i: nat, t: Tensor) {
    && t.view.Ok() && Positive(t.view.shape) && t.node < i <= |g.nodes|
    && (t.port.None? ==> t.node >= 0 && g.nodes[t.node].outPort.None?)
    && (t.port.Some? ==>
          && t.port.value < |g.ports| && g.ports[t.port.value].kind != OutputPort
          && WindowOf(g, t).port == t.port.value)
    && InBounds(t.view, StorageOf(g, t))
  }

  ghost predicate OpOk(g: TensorGraph, i: nat)
    requires i < |g.nodes|
  {
    var n := g.nodes[i];
    && Positive(n.shape) && (forall j: nat :: j < |n.inputs| ==> TensorOk(g, i, n.inputs[j]))
    && (n.outPort.Some? ==>
          && n.outPort.value.0 < |g.ports| && g.ports[n.outPort.value.0].kind == StatePort
          && !n.inPlace && !n.advances)
    && (n.inPlace && n.inputs != [] ==>
        !n.bcast && !n.strided && !n.advances && Elements(LastInput(n).view.shape) == Elements(n.shape))
    && (n.advances ==> !n.bcast && n.inputs != [] && AdvancesState(g, LastInput(n)))
  }

  /** The state an operator rewrites is read whole, as one window. */
  ghost predicate AdvancesState(g: TensorGraph, t: Tensor) {
    && t.port.Some? && t.port.value < |g.ports| && g.ports[t.port.value].kind == StatePort
    && WindowOf(g, t).count == Elements(t.view.shape)
  }

  ghost predicate OutputOk(g: TensorGraph, o: Output) {
    && o.port < |g.ports| && g.ports[o.port].kind == OutputPort
    && (o.source.Result? ==>
          && o.source.node < |g.nodes| && g.nodes[o.source.node].outPort.None?
          && g.ports[o.port].count == Elements(g.nodes[o.source.node].shape))
  }

  ghost predicate WellFormed(g: TensorGraph) {
    && (forall i: nat :: i < |g.nodes| ==> OpOk(g, i))
    && (forall o :: o in g.outputs ==> OutputOk(g, o))
    && (forall a: nat, b: nat :: a < b < |g.outputs| ==> g.outputs[a].port != g.outputs[b].port)
  }

  // ---- what a graph means ----

  /** What each operator computes, and what it makes of the state it advances, element by element. */
  datatype Kernels = Kernels(compute: (nat, seq<seq<Elem>>, nat) -> Elem, advance: (nat, seq<seq<Elem>>, nat) -> Elem)

  type Contents = (nat, nat) -> Elem

  ghost predicate Covers(w: Window, p: nat, x: nat) {
    w.port == p && w.off <= x < w.off + w.count
  }

  ghost predicate Advances(g: TensorGraph, n: Op, p: nat, x: nat) {
    n.advances && n.inputs != [] && LastInput(n).port.Some? && Covers(WindowOf(g, LastInput(n)), p, x)
  }

  /** The contents of port p at x once the nodes before i have run: each version is what the write that
      made it left there. */
  ghost function PortAfter(g: TensorGraph, ks: Kernels, init: Contents, i: nat, p: nat, x: nat): Elem
    requires WellFormed(g) && i <= |g.nodes|
    decreases i, 0
  {
    if i == 0 then init(p, x)
    else
      var n := g.nodes[i - 1];
      if n.outPort.Some? && Covers(OutWindow(n), p, x) then
        ks.compute(i - 1, Operands(g, ks, init, i - 1), x - OutWindow(n).off)
      else if Advances(g, n, p, x) then
        ks.advance(i - 1, Operands(g, ks, init, i - 1), x - WindowOf(g, LastInput(n)).off)
      else
        PortAfter(g, ks, init, i - 1, p, x)
  }

  /** Element x of the storage behind an operand of node i. */
  ghost function Stored(g: TensorGraph, ks: Kernels, init: Contents, i: nat, t: Tensor, x: nat): Elem
    requires WellFormed(g) && i <= |g.nodes| && TensorOk(g, i, t)
    decreases i, 1
  {
    if t.port.Some? then
      PortAfter(g, ks, init, if t.node < 0 then 0 else t.node + 1, t.port.value, WindowOf(g, t).off + x)
    else
      ks.compute(t.node, Operands(g, ks, init, t.node), x)
  }

  /** The elements of operand j of node i, in row-major order of the extent the kernel sees. */
  ghost function OperandValue(g: TensorGraph, ks: Kernels, init: Contents, i: nat, j: nat): seq<Elem>
    requires WellFormed(g) && i < |g.nodes| && j < |g.nodes[i].inputs| && TensorOk(g, i, g.nodes[i].inputs[j])
    decreases i, 2
  {
    var n := g.nodes[i];
    var t := n.inputs[j];
    if n.bcast then
      seq(Elements(n.shape), k requires 0 <= k < Elements(n.shape) =>
        Stored(g, ks, init, i, t, BroadcastAt(t.view, n.shape, k)))
    else
      seq(Elements(t.view.shape), k requires 0 <= k < Elements(t.view.shape) =>
        Stored(g, ks, init, i, t, Addr(t.view, Coord(t.view.shape, k))))
  }

  /** The storage element a broadcast operand reads at row-major position k of the result. */
  ghost function BroadcastAt(v: View, want: Shape, k: nat): nat
    requires v.Ok() && k < Elements(want)
  {
    if |v.shape| <= |want| then v.offset + Pattern(v, want, Coord(want, k)) else 0
  }

  /** Everything a kernel reads; a write into a state also sees what the state held. */
  ghost function Operands(g: TensorGraph, ks: Kernels, init: Contents, i: nat): seq<seq<Elem>>
    requires WellFormed(g) && i < |g.nodes|
    decreases i, 3
  {
    var n := g.nodes[i];
    assert OpOk(g, i);
    seq(|n.inputs|, j requires 0 <= j < |n.inputs| && OpOk(g, i) =>
      assert TensorOk(g, i, n.inputs[j]); OperandValue(g, ks, init, i, j))
    + (if n.outPort.Some? then [PortRange(g, ks, init, i, OutWindow(n))] else [])
  }

  /** The contents of a window before node i. */
  ghost function PortRange(g: TensorGraph, ks: Kernels, init: Contents, i: nat, w: Window): seq<Elem>
    requires WellFormed(g) && i <= |g.nodes|
    decreases i, 1
  {
    seq(w.count, k requires 0 <= k < w.count => PortAfter(g, ks, init, i, w.port, w.off + k))
  }

  /** Element x of the result of node i. */
  ghost function ValueAt(g: TensorGraph, ks: Kernels, init: Contents, i: nat, x: nat): Elem
    requires WellFormed(g) && i < |g.nodes|
  {
    ks.compute(i, Operands(g, ks, init, i), x)
  }

  // ---- versions ----

  /** Node k writes into window w. */
  ghost predicate WritesOver(g: TensorGraph, n: Op, w: Window) {
    || (n.outPort.Some? && OutWindow(n).Overlaps(w))
    || (n.advances && n.inputs != [] && LastInput(n).port.Some? && WindowOf(g, LastInput(n)).Overlaps(w))
  }

  /** No node between the one that made t's version and node i writes over it. */
  ghost predicate FreshAt(g: TensorGraph, i: nat, t: Tensor)
    requires i <= |g.nodes|
  {
    t.port.Some? ==> forall k: nat :: k < i && ReadBefore(t, k) ==> !WritesOver(g, g.nodes[k], WindowOf(g, t))
  }

  /** A state is consumed before anything overlapping it is written again: what the builder's stale
      check enforces when the read is taken, kept until the operator that uses it is recorded. */
  ghost predicate Consumed(g: TensorGraph) {
    forall i: nat, j: nat :: i < |g.nodes| && j < |g.nodes[i].inputs| ==> FreshAt(g, i, g.nodes[i].inputs[j])
  }

  ghost predicate ReadBefore(t: Tensor, k: nat) {
    t.port.Some? && t.node < k
  }

  /** With nothing overlapping written since, a version is what the port holds. */
  lemma {:induction false} VersionHeld(g: TensorGraph, ks: Kernels, init: Contents, i: nat, i': nat, w: Window, x: nat)
    requires WellFormed(g) && i <= i' <= |g.nodes| && x < w.count
    requires forall k: nat :: i <= k < i' ==> !WritesOver(g, g.nodes[k], w)
    ensures PortAfter(g, ks, init, i', w.port, w.off + x) == PortAfter(g, ks, init, i, w.port, w.off + x)
  {
    if i < i' {
      VersionHeld(g, ks, init, i, i' - 1, w, x);
      assert !WritesOver(g, g.nodes[i' - 1], w);
    }
  }

  /** What an operand of node i stores is what its port holds when node i runs. */
  lemma StoredIsHeld(g: TensorGraph, ks: Kernels, init: Contents, i: nat, j: nat, x: nat)
    requires WellFormed(g) && i < |g.nodes| && j < |g.nodes[i].inputs| && FreshAt(g, i, g.nodes[i].inputs[j])
    requires TensorOk(g, i, g.nodes[i].inputs[j]) && g.nodes[i].inputs[j].port.Some?
    requires x < WindowOf(g, g.nodes[i].inputs[j]).count
    ensures var t := g.nodes[i].inputs[j];
            Stored(g, ks, init, i, t, x) == PortAfter(g, ks, init, i, t.port.value, WindowOf(g, t).off + x)
  {
    var t := g.nodes[i].inputs[j];
    var from := if t.node < 0 then 0 else t.node + 1;
    assert FreshAt(g, i, t);
    forall k: nat | from <= k < i
      ensures !WritesOver(g, g.nodes[k], WindowOf(g, t))
    {
      assert ReadBefore(t, k);
    }
    VersionHeld(g, ks, init, from, i, WindowOf(g, t), x);
  }
}
