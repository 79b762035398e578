/** Naming a tensor as an output: a view of a node's result is resolved to the node itself, which is
    right exactly when the view reads the whole result in its own order. */
module Outputs {
  import opened Broadcasts
  import opened Lowering
  import opened LoweringSteps
  import opened Machine
  import opened Options
  import opened Shapes
  import opened TensorGraphs
  import opened TensorPlans
  import opened Views

  /** Reading the view in row-major order reads its storage in order, from the start. */
  ghost predicate ReadsInOrder(v: View)
    requires v.Ok()
  {
    forall c :: Within(c, v.shape) ==> Addr(v, c) == Linear(v.shape, c)
  }

  ghost predicate ReadsWhole(g: TensorGraph, x: Tensor)
    requires TensorOk(g, |g.nodes|, x) && x.port.None?
  {
    ReadsInOrder(x.view) && Elements(x.view.shape) == Elements(g.nodes[x.node].shape)
  }

  /** What an output naming x stands for, or nothing where it is refused: a strided or partial view
      of a node's result. */
  method SourceOf(g: TensorGraph, x: Tensor) returns (r: Option<Source>)
    requires TensorOk(g, |g.nodes|, x)
    ensures x.port.Some? ==> r == Some(if g.ports[x.port.value].kind == StatePort then StateValue else External)
    ensures x.port.None? ==>
              (r.Some? <==> Contiguously(x.view) && Elements(x.view.shape) == Elements(g.nodes[x.node].shape))
    ensures x.port.None? && r.Some? ==> r.value == Result(x.node) && ReadsWhole(g, x)
  {
    if x.port.Some? {
      return Some(if g.ports[x.port.value].kind == StatePort then StateValue else External);
    }
    var contiguous := ContiguousLayout(x.view);
    if !contiguous || Elements(x.view.shape) != Elements(g.nodes[x.node].shape) {
      return None;
    }
    ContiguousInOrder(x.view);
    r := Some(Result(x.node));
  }

  /** A refused view of as many elements reads its node's whole result in order all the same exactly when
      it starts at the first element and differs from the packed strides on axes of one element only. */
  lemma RefusedYetWhole(g: TensorGraph, x: Tensor)
    requires TensorOk(g, |g.nodes|, x) && x.port.None?
    requires Elements(x.view.shape) == Elements(g.nodes[x.node].shape) && !Contiguously(x.view)
    ensures ReadsWhole(g, x) <==> x.view.offset == 0 && PackedWhereRead(x.view)
  {
    InOrderExactly(x.view);
  }

  /** Packed strides on every axis longer than one: the others' are never used. */
  ghost predicate PackedWhereRead(v: View)
    requires v.Ok()
  {
    forall i :: 0 <= i < |v.shape| && v.shape[i] > 1 ==> v.strides[i] == Packed(v.shape)[i]
  }

  lemma ContiguousInOrder(v: View)
    requires v.Ok() && Contiguously(v)
    ensures ReadsInOrder(v)
  {
    forall c | Within(c, v.shape)
      ensures Addr(v, c) == Linear(v.shape, c)
    {
      PackedIsLinear(v.shape, c);
    }
  }

  /** The coordinate one step along axis i. */
  function Step(n: nat, i: nat): (c: seq<nat>)
    ensures |c| == n
  {
    seq(n, k requires 0 <= k < n => if k == i then 1 else 0)
  }

  lemma {:induction false} DotStep(n: nat, i: nat, st: seq<nat>)
    requires |st| == n
    ensures Dot(Step(n, i), st) == if i < n then st[i] else 0
  {
    if n > 0 {
      var rest := if i == 0 then n else i - 1;
      assert Step(n, i)[1..] == Step(n - 1, rest);
      DotStep(n - 1, rest, st[1..]);
    }
  }

  lemma {:induction false} DotSame(c: seq<nat>, st: seq<nat>, st': seq<nat>)
    requires |c| == |st| == |st'| && forall i :: 0 <= i < |c| ==> c[i] == 0 || st[i] == st'[i]
    ensures Dot(c, st) == Dot(c, st')
  {
    if c != [] {
      DotSame(c[1..], st[1..], st'[1..]);
    }
  }

  /** A view reads in order exactly when it starts at the first element with packed strides wherever an
      axis has more than one. */
  lemma InOrderExactly(v: View)
    requires v.Ok() && Positive(v.shape)
    ensures ReadsInOrder(v) <==> v.offset == 0 && PackedWhereRead(v)
  {
    if ReadsInOrder(v) {
      var origin := Step(|v.shape|, |v.shape|);
      assert Within(origin, v.shape);
      StepAddr(v, |v.shape|);
      forall i | 0 <= i < |v.shape| && v.shape[i] > 1
        ensures v.strides[i] == Packed(v.shape)[i]
      {
        assert Within(Step(|v.shape|, i), v.shape);
        StepAddr(v, i);
      }
    }
    if v.offset == 0 && PackedWhereRead(v) {
      forall c | Within(c, v.shape)
        ensures Addr(v, c) == Linear(v.shape, c)
      {
        DotSame(c, v.strides, Packed(v.shape));
        PackedIsLinear(v.shape, c);
      }
    }
  }

  lemma StepAddr(v: View, i: nat)
    requires v.Ok()
    ensures Addr(v, Step(|v.shape|, i)) == v.offset + if i < |v.shape| then v.strides[i] else 0
    ensures Linear(v.shape, Step(|v.shape|, i)) == if i < |v.shape| then Packed(v.shape)[i] else 0
  {
    DotStep(|v.shape|, i, v.strides);
    DotStep(|v.shape|, i, Packed(v.shape));
    PackedIsLinear(v.shape, Step(|v.shape|, i));
  }

  /** An output port naming a tensor holds, after the plan runs, that tensor's own elements in its own
      row-major order, though the port was bound to the node the tensor is a view of. */
  lemma OutputHoldsTensor(g: TensorGraph, tb: Tables, w: World, o: Output, x: Tensor, c: seq<nat>)
    requires Compiles(g) && AllGood(g, tb, |g.nodes|) && w.g == g && o in g.outputs
    requires TensorOk(g, |g.nodes|, x) && x.port.None? && o.source == Result(x.node)
    requires ReadsWhole(g, x) && Within(c, x.view.shape)
    ensures After(w, tb.windows, tb.commands)(InPort(o.port, Linear(x.view.shape, c)))
         == Stored(g, w.ks, InitOf(w), |g.nodes|, x, Addr(x.view, c))
  {
    PlanComputes(g, tb, w);
    assert OutputOk(g, o);
    LinearBelow(x.view.shape, c);
  }
}
