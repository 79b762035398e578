/** What a tensor graph's operands and writes name, element by element: which element of which port an
    operand holds, and which elements an operator changes. */
module Meanings {
  import opened Options
  import opened Shapes
  import opened TensorGraphs
  import opened Versions

  /** Port q at y is one of `count` elements of port p from `off` on. */
  ghost predicate Inside(p: nat, off: nat, count: nat, q: nat, y: nat) {
    q == p && off <= y < off + count
  }

  /** How many nodes have run when the version an operand names is made. */
  ghost function MadeAfter(t: Tensor): nat {
    if t.node < 0 then 0 else t.node + 1
  }

  /** An operand that names a layer holds that layer of its port's version, and one that names none holds
      the port from its first element on. */
  lemma OperandElement(g: TensorGraph, ks: Kernels, init: Contents, i: nat, t: Tensor, x: nat)
    requires WellFormed(g) && i <= |g.nodes| && TensorOk(g, i, t) && t.port.Some?
    ensures t.win.Some? ==>
              t.win.value.port == t.port.value &&
              Stored(g, ks, init, i, t, x) == PortAfter(g, ks, init, MadeAfter(t), t.port.value, t.win.value.off + x)
    ensures t.win.None? ==> Stored(g, ks, init, i, t, x) == PortAfter(g, ks, init, MadeAfter(t), t.port.value, x)
    ensures StorageOf(g, t) == if t.win.Some? then t.win.value.count else g.ports[t.port.value].count
  {
  }

  /** An operator whose result goes into a state leaves its element x at off + x of that port, and changes
      nothing else. */
  lemma ResultElements(g: TensorGraph, ks: Kernels, init: Contents, i: nat, p: nat, off: nat)
    requires WellFormed(g) && i < |g.nodes| && g.nodes[i].outPort == Some((p, off))
    ensures forall x: nat :: x < Elements(g.nodes[i].shape) ==>
              PortAfter(g, ks, init, i + 1, p, off + x) == ValueAt(g, ks, init, i, x)
    ensures forall q: nat, y: nat :: !Inside(p, off, Elements(g.nodes[i].shape), q, y) ==>
              PortAfter(g, ks, init, i + 1, q, y) == PortAfter(g, ks, init, i, q, y)
  {
    assert OpOk(g, i);
  }

  /** An operator that advances a state rewrites exactly the elements its last operand names. */
  lemma AdvancedElements(g: TensorGraph, ks: Kernels, init: Contents, i: nat, p: nat, off: nat, count: nat)
    requires WellFormed(g) && i < |g.nodes| && g.nodes[i].advances
    requires var n := g.nodes[i]; n.inputs != [] && IsNamed(g, n.inputs[|n.inputs| - 1], Window(p, off, count))
    ensures forall x: nat :: x < count ==>
              PortAfter(g, ks, init, i + 1, p, off + x) == ks.advance(i, Operands(g, ks, init, i), x)
    ensures forall q: nat, y: nat :: !Inside(p, off, count, q, y) ==>
              PortAfter(g, ks, init, i + 1, q, y) == PortAfter(g, ks, init, i, q, y)
  {
    assert OpOk(g, i);
  }

  /** Any other operator changes no port. */
  lemma OtherElements(g: TensorGraph, ks: Kernels, init: Contents, i: nat, q: nat, y: nat)
    requires WellFormed(g) && i < |g.nodes| && g.nodes[i].outPort.None? && !g.nodes[i].advances
    ensures PortAfter(g, ks, init, i + 1, q, y) == PortAfter(g, ks, init, i, q, y)
    ensures PortAfter(g, ks, init, 0, q, y) == init(q, y)
  {
  }
}
