/** What lowering keeps true of memory while it records one operator after another. */
module Lowering {
  import opened Broadcasts
  import opened Machine
  import opened Options
  import opened Shapes
  import opened TensorGraphs
  import opened Versions
  import opened Views

  /** The tables a lowering fills: the windows slots bind, where each node's value went, how many
      transients there are, and the commands so far. */
  datatype Tables = Tables(windows: seq<Window>, views: seq<Option<nat>>, wrote: seq<nat>, next: nat,
      commands: seq<Command>)

  /** A graph, what its kernels compute, and the memory a submission starts from. */
  datatype World = World(g: TensorGraph, ks: Kernels, start: Mem)

  ghost function InitOf(w: World): Contents {
    (p: nat, x: nat) => w.start(InPort(p, x))
  }

  /** What a port other than an output holds after the nodes before i. */
  ghost predicate PortHeld(w: World, m: Mem, i: nat, p: nat, x: nat)
    requires WellFormed(w.g) && i <= |w.g.nodes|
  {
    m(InPort(p, x)) == PortAfter(w.g, w.ks, InitOf(w), i, p, x)
  }

  ghost predicate PortsHeld(w: World, m: Mem, i: nat)
    requires WellFormed(w.g) && i <= |w.g.nodes|
  {
    forall p: nat, x: nat :: p < |w.g.ports| && w.g.ports[p].kind != OutputPort ==> PortHeld(w, m, i, p, x)
  }

  ghost predicate NamedBy(g: TensorGraph, k: nat, window: Window) {
    exists o :: o in g.outputs && o.source == Result(k) && window == WholePort(g, o.port)
  }

  ghost predicate ElementHeld(w: World, m: Mem, k: nat, l: Loc, x: nat)
    requires WellFormed(w.g) && k < |w.g.nodes|
  {
    m(l) == ValueAt(w.g, w.ks, InitOf(w), k, x)
  }

  ghost predicate ScratchHeld(w: World, m: Mem, k: nat, id: nat)
    requires WellFormed(w.g) && k < |w.g.nodes|
  {
    forall x: nat :: x < Elements(w.g.nodes[k].shape) ==> ElementHeld(w, m, k, InScratch(id, x), x)
  }

  ghost predicate OutputHeld(w: World, m: Mem, k: nat, p: nat)
    requires WellFormed(w.g) && k < |w.g.nodes|
  {
    forall x: nat :: x < Elements(w.g.nodes[k].shape) ==> ElementHeld(w, m, k, InPort(p, x), x)
  }

  /** The value of node k is where its consumers will look for it. */
  ghost predicate ValueHeld(w: World, tb: Tables, m: Mem, k: nat)
    requires WellFormed(w.g) && k < |w.g.nodes| == |tb.views| == |tb.wrote|
  {
    if tb.views[k].Some? then tb.views[k].value < tb.next && ScratchHeld(w, m, k, tb.views[k].value)
    else
      1 <= tb.wrote[k] <= |tb.windows| && NamedBy(w.g, k, tb.windows[tb.wrote[k] - 1])
      && OutputHeld(w, m, k, tb.windows[tb.wrote[k] - 1].port)
  }

  ghost predicate ValuesHeld(w: World, tb: Tables, m: Mem, i: nat)
    requires WellFormed(w.g) && i <= |w.g.nodes| == |tb.views| == |tb.wrote|
  {
    forall k: nat :: k < i && w.g.nodes[k].outPort.None? ==> ValueHeld(w, tb, m, k)
  }

  ghost predicate OutputsHeld(w: World, m: Mem, i: nat)
    requires WellFormed(w.g)
  {
    forall o :: o in w.g.outputs && o.source.Result? && o.source.node < i ==> OutputHeld(w, m, o.source.node, o.port)
  }

  ghost predicate Fits(g: TensorGraph, tb: Tables) {
    WellFormed(g) && |tb.views| == |tb.wrote| == |g.nodes|
  }

  /** Everything lowering keeps: ports, values and outputs as the graph means them, up to node i. */
  ghost predicate Good(w: World, tb: Tables, m: Mem, i: nat)
    requires Fits(w.g, tb) && i <= |w.g.nodes|
  {
    PortsHeld(w, m, i) && ValuesHeld(w, tb, m, i) && OutputsHeld(w, m, i)
  }

  // ---- memory the past does not depend on ----

  /** m' differs from m at most in transients numbered from `next` on. */
  ghost predicate SameOld(m: Mem, m': Mem, next: nat) {
    forall l: Loc :: (l.InScratch? ==> l.id < next) ==> m'(l) == m(l)
  }

  lemma GoodSurvives(w: World, tb: Tables, tb': Tables, m: Mem, m': Mem, i: nat)
    requires Fits(w.g, tb) && Fits(w.g, tb') && i <= |w.g.nodes| && Good(w, tb, m, i) && SameOld(m, m', tb.next)
    requires tb'.windows == tb.windows && tb'.views == tb.views && tb'.wrote == tb.wrote && tb.next <= tb'.next
    ensures Good(w, tb', m', i)
  {
    forall p: nat, x: nat | p < |w.g.ports| && w.g.ports[p].kind != OutputPort
      ensures PortHeld(w, m', i, p, x)
    {
      assert PortHeld(w, m, i, p, x);
    }
    forall k: nat | k < i && w.g.nodes[k].outPort.None?
      ensures ValueHeld(w, tb', m', k)
    {
      assert ValueHeld(w, tb, m, k);
      HeldSurvives(w, m, m', k, tb.next);
    }
    forall o | o in w.g.outputs && o.source.Result? && o.source.node < i
      ensures OutputHeld(w, m', o.source.node, o.port)
    {
      HeldSurvives(w, m, m', o.source.node, tb.next);
    }
  }

  lemma HeldSurvives(w: World, m: Mem, m': Mem, k: nat, next: nat)
    requires WellFormed(w.g) && k < |w.g.nodes| && SameOld(m, m', next)
    ensures forall id: nat :: id < next && ScratchHeld(w, m, k, id) ==> ScratchHeld(w, m', k, id)
    ensures forall p: nat :: OutputHeld(w, m, k, p) ==> OutputHeld(w, m', k, p)
  {
    forall id: nat, x: nat | id < next && ScratchHeld(w, m, k, id) && x < Elements(w.g.nodes[k].shape)
      ensures ElementHeld(w, m', k, InScratch(id, x), x)
    {
      assert ElementHeld(w, m, k, InScratch(id, x), x);
    }
    forall p: nat, x: nat | OutputHeld(w, m, k, p) && x < Elements(w.g.nodes[k].shape)
      ensures ElementHeld(w, m', k, InPort(p, x), x)
    {
      assert ElementHeld(w, m, k, InPort(p, x), x);
    }
  }

  // ---- operands ----

  ghost predicate ElementStored(w: World, windows: seq<Window>, m: Mem, i: nat, t: Tensor, p: Place, x: nat)
    requires WellFormed(w.g) && i <= |w.g.nodes| && TensorOk(w.g, i, t) && Placed(windows, p)
  {
    Fetch(windows, p, m, x) == Stored(w.g, w.ks, InitOf(w), i, t, x)
  }

  /** The place holds the storage behind an operand. */
  ghost predicate StorageHeld(w: World, windows: seq<Window>, m: Mem, i: nat, t: Tensor, p: Place)
    requires WellFormed(w.g) && i <= |w.g.nodes| && TensorOk(w.g, i, t) && Placed(windows, p)
  {
    forall x: nat :: x < StorageOf(w.g, t) ==> ElementStored(w, windows, m, i, t, p, x)
  }

  /** Where an operand of node i is bound, given the tables. */
  ghost predicate BoundTo(g: TensorGraph, tb: Tables, i: nat, t: Tensor, p: Place)
    requires Fits(g, tb) && i <= |g.nodes| && TensorOk(g, i, t)
  {
    && p.at == 0 && Placed(tb.windows, p)
    && if t.port.Some? then p.base.Bound? && tb.windows[p.base.slot - 1] == WindowOf(g, t)
       else if tb.views[t.node].Some? then p.base == Scratch(tb.views[t.node].value)
       else p.base == Bound(tb.wrote[t.node])
  }

  /** An operand is bound to its own storage. */
  lemma BoundHolds(w: World, tb: Tables, m: Mem, i: nat, j: nat, p: Place)
    requires Fits(w.g, tb) && Consumed(w.g) && i < |w.g.nodes| && j < |w.g.nodes[i].inputs| && Good(w, tb, m, i)
    requires TensorOk(w.g, i, w.g.nodes[i].inputs[j]) && BoundTo(w.g, tb, i, w.g.nodes[i].inputs[j], p)
    ensures StorageHeld(w, tb.windows, m, i, w.g.nodes[i].inputs[j], p)
    ensures p.base.Scratch? ==> p.base.id < tb.next
  {
    var t := w.g.nodes[i].inputs[j];
    if t.port.None? {
      assert ValueHeld(w, tb, m, t.node);
    }
    forall x: nat | x < StorageOf(w.g, t)
      ensures ElementStored(w, tb.windows, m, i, t, p, x)
    {
      if t.port.Some? {
        StoredIsHeld(w.g, w.ks, InitOf(w), i, j, x);
        assert PortHeld(w, m, i, t.port.value, WindowOf(w.g, t).off + x);
      } else if tb.views[t.node].Some? {
        assert ElementHeld(w, m, t.node, InScratch(tb.views[t.node].value, x), x);
      } else {
        assert ElementHeld(w, m, t.node, InPort(tb.windows[tb.wrote[t.node] - 1].port, x), x);
      }
    }
  }

  /** A kernel reading place p sees the value of operand j of node i. */
  ghost predicate OperandHeld(w: World, windows: seq<Window>, next: nat, m: Mem, i: nat, j: nat, p: Place)
    requires WellFormed(w.g) && i < |w.g.nodes| && j < |w.g.nodes[i].inputs| && TensorOk(w.g, i, w.g.nodes[i].inputs[j])
  {
    && Placed(windows, p) && (p.base.Scratch? ==> p.base.id < next)
    && ReadOperand(windows, w.g.nodes[i], j, p, m) == OperandValue(w.g, w.ks, InitOf(w), i, j)
  }

  lemma OperandSurvives(w: World, windows: seq<Window>, next: nat, next': nat, m: Mem, m': Mem, i: nat, j: nat,
      p: Place)
    requires WellFormed(w.g) && i < |w.g.nodes| && j < |w.g.nodes[i].inputs| && TensorOk(w.g, i, w.g.nodes[i].inputs[j])
    requires OperandHeld(w, windows, next, m, i, j, p) && SameOld(m, m', next) && next <= next'
    ensures OperandHeld(w, windows, next', m', i, j, p)
  {
    var n := w.g.nodes[i];
    assert forall k: nat :: Fetch(windows, p, m', k) == Fetch(windows, p, m, k);
    assert ReadOperand(windows, n, j, p, m') == ReadOperand(windows, n, j, p, m);
  }

  /** A kernel that indexes contiguously may be given a packed operand as it stands. */
  lemma PackedOperand(w: World, windows: seq<Window>, next: nat, m: Mem, i: nat, j: nat, p: Place)
    requires WellFormed(w.g) && i < |w.g.nodes| && j < |w.g.nodes[i].inputs| && TensorOk(w.g, i, w.g.nodes[i].inputs[j])
    requires Placed(windows, p) && (p.base.Scratch? ==> p.base.id < next)
    requires StorageHeld(w, windows, m, i, w.g.nodes[i].inputs[j], p)
    requires !w.g.nodes[i].bcast && (w.g.nodes[i].strided || Contiguously(w.g.nodes[i].inputs[j].view))
    ensures OperandHeld(w, windows, next, m, i, j, p)
  {
    var n := w.g.nodes[i];
    var t := n.inputs[j];
    forall k: nat | k < Elements(t.view.shape)
      ensures ReadOperand(windows, n, j, p, m)[k] == OperandValue(w.g, w.ks, InitOf(w), i, j)[k]
    {
      var c := Coord(t.view.shape, k);
      if Contiguously(t.view) {
        ContiguousAddr(t.view, c);
      }
      assert ElementStored(w, windows, m, i, t, p, Addr(t.view, c));
    }
  }

  // ---- broadcasts ----

  /** Every storage element a broadcast reads is one the operand itself reads. */
  lemma {:induction false} EffectiveDot(v: View, want: Shape, c: seq<nat>, i: nat)
    requires v.Ok() && Expands(v, want) && Within(c, want) && i <= |want|
    ensures var off := |want| - |v.shape|;
            Dot(c[i..], EffectiveFrom(v, want, i)) ==
            Dot(Shrunk(c, v.shape)[if i < off then 0 else i - off..], v.strides[if i < off then 0 else i - off..])
    decreases |want| - i
  {
    var off := |want| - |v.shape|;
    if i < |want| {
      EffectiveDot(v, want, c, i + 1);
      AxisProduct(v, want, c, i);
      assert c[i..][1..] == c[i + 1..];
      if i >= off {
        var d := Shrunk(c, v.shape);
        assert d[i - off..][1..] == d[i + 1 - off..] && v.strides[i - off..][1..] == v.strides[i + 1 - off..];
      }
    }
  }

  /** One axis of a broadcast contributes what the view's own axis does. */
  lemma AxisProduct(v: View, want: Shape, c: seq<nat>, i: nat)
    requires v.Ok() && Expands(v, want) && Within(c, want) && i < |want|
    ensures var off := |want| - |v.shape|;
            c[i] * EffectiveAt(v, want, i) == if i < off then 0 else Shrunk(c, v.shape)[i - off] * v.strides[i - off]
  {
    assert AxisExpands(v, want, i);
    if i >= |want| - |v.shape| && EffectiveAt(v, want, i) != 0 {
      assert want[i] == 1 ==> c[i] == 0;
    }
  }

  /** A coordinate of an extent, cut down to a view that expands to it, is one of the view's own. */
  lemma ShrunkWithin(v: View, want: Shape, c: seq<nat>)
    requires v.Ok() && Expands(v, want) && Positive(v.shape) && Within(c, want)
    ensures Within(Shrunk(c, v.shape), v.shape)
  {
    var d := Shrunk(c, v.shape);
    forall a | 0 <= a < |v.shape|
      ensures d[a] < v.shape[a]
    {
      assert AxisExpands(v, want, |want| - |v.shape| + a);
    }
  }

  lemma BroadcastInside(v: View, want: Shape, k: nat, storage: nat)
    requires v.Ok() && Expands(v, want) && Positive(v.shape) && k < Elements(want) && InBounds(v, storage)
    ensures BroadcastAt(v, want, k) < storage
  {
    var c := Coord(want, k);
    var d := Shrunk(c, v.shape);
    EffectiveDot(v, want, c, 0);
    ShrunkWithin(v, want, c);
    assert c[0..] == c && d[0..] == d && v.strides[0..] == v.strides;
    assert Within(d, v.shape) && Addr(v, d) == BroadcastAt(v, want, k);
  }

  /** A packed operand of the result's own extent is its own broadcast. */
  lemma OwnBroadcast(v: View, k: nat)
    requires v.Ok() && Contiguously(v) && k < Elements(v.shape)
    ensures BroadcastAt(v, v.shape, k) == k
  {
    OwnStrides(v, 0);
    assert v.strides[0..] == v.strides;
    ContiguousAddr(v, Coord(v.shape, k));
  }

  lemma {:induction false} OwnStrides(v: View, i: nat)
    requires v.Ok() && i <= |v.shape|
    ensures EffectiveFrom(v, v.shape, i) == v.strides[i..]
    decreases |v.shape| - i
  {
    if i < |v.shape| {
      OwnStrides(v, i + 1);
    }
  }

  lemma OwnOperand(w: World, windows: seq<Window>, next: nat, m: Mem, i: nat, j: nat, p: Place)
    requires WellFormed(w.g) && i < |w.g.nodes| && j < |w.g.nodes[i].inputs| && TensorOk(w.g, i, w.g.nodes[i].inputs[j])
    requires Placed(windows, p) && (p.base.Scratch? ==> p.base.id < next)
    requires StorageHeld(w, windows, m, i, w.g.nodes[i].inputs[j], p) && w.g.nodes[i].bcast
    requires w.g.nodes[i].inputs[j].view.shape == w.g.nodes[i].shape && Contiguously(w.g.nodes[i].inputs[j].view)
    ensures OperandHeld(w, windows, next, m, i, j, p)
  {
    var n := w.g.nodes[i];
    var t := n.inputs[j];
    forall k: nat | k < Elements(n.shape)
      ensures ReadOperand(windows, n, j, p, m)[k] == OperandValue(w.g, w.ks, InitOf(w), i, j)[k]
    {
      var c := Coord(t.view.shape, k);
      OwnBroadcast(t.view, k);
      ContiguousAddr(t.view, c);
      assert ElementStored(w, windows, m, i, t, p, Addr(t.view, c));
    }
  }

  /** Where copy r of a run starts: r runs in. */
  ghost function RunStart(block: nat, r: nat): nat {
    if r == 0 then 0 else RunStart(block, r - 1) + block
  }

  lemma {:induction false} RunStartProduct(block: nat, r: nat)
    ensures RunStart(block, r) == r * block
  {
    if r > 0 {
      RunStartProduct(block, r - 1);
    }
  }

  lemma {:induction false} EarlierRun(block: nat, q: nat, r: nat)
    requires q < r
    ensures RunStart(block, q) + block <= RunStart(block, r)
  {
    if q < r - 1 {
      EarlierRun(block, q, r - 1);
    }
  }

  /** The first r copies of the run are in the transient. */
  ghost predicate RunCopied(windows: seq<Window>, m: Mem, src: Place, offset: nat, id: nat, block: nat, r: nat, k: nat)
    requires Placed(windows, src)
  {
    m(InScratch(id, RunStart(block, r) + k)) == Fetch(windows, src, m, offset + k)
  }

  ghost predicate RunsCopied(windows: seq<Window>, m: Mem, src: Place, offset: nat, id: nat, block: nat, times: nat)
    requires Placed(windows, src)
  {
    forall r: nat, k: nat :: r < times && k < block ==> RunCopied(windows, m, src, offset, id, block, r, k)
  }

  /** A transient filled with the repeated run holds the broadcast operand. */
  lemma MaterializedOperand(w: World, windows: seq<Window>, next: nat, m: Mem, i: nat, j: nat, src: Place, id: nat,
      block: nat, times: nat)
    requires WellFormed(w.g) && i < |w.g.nodes| && j < |w.g.nodes[i].inputs| && TensorOk(w.g, i, w.g.nodes[i].inputs[j])
    requires Placed(windows, src) && StorageHeld(w, windows, m, i, w.g.nodes[i].inputs[j], src) && w.g.nodes[i].bcast
    requires var v := w.g.nodes[i].inputs[j].view; var want := w.g.nodes[i].shape;
             && Positive(v.shape) && Expands(v, want) && Modular(v, want, block) && block * times == Elements(want)
             && RunsCopied(windows, m, src, v.offset, id, block, times)
    requires id < next
    ensures OperandHeld(w, windows, next, m, i, j, Place(Scratch(id), 0))
  {
    var n := w.g.nodes[i];
    var t := n.inputs[j];
    var p := Place(Scratch(id), 0);
    forall k: nat | k < Elements(n.shape)
      ensures ReadOperand(windows, n, j, p, m)[k] == OperandValue(w.g, w.ks, InitOf(w), i, j)[k]
    {
      BroadcastInside(t.view, n.shape, k, StorageOf(w.g, t));
      RunElement(windows, m, src, t.view, n.shape, id, block, times, k);
      assert ElementStored(w, windows, m, i, t, src, BroadcastAt(t.view, n.shape, k));
    }
  }

  lemma RunElement(windows: seq<Window>, m: Mem, src: Place, v: View, want: Shape, id: nat, block: nat, times: nat,
      k: nat)
    requires Placed(windows, src) && v.Ok() && Expands(v, want) && Modular(v, want, block)
    requires block * times == Elements(want)
    requires RunsCopied(windows, m, src, v.offset, id, block, times) && k < Elements(want)
    ensures m(InScratch(id, k)) == Fetch(windows, src, m, BroadcastAt(v, want, k))
  {
    var run, rest := RunParts(v, want, block, times, k);
    assert RunCopied(windows, m, src, v.offset, id, block, run, rest);
  }

  /** Position k of a repeated run: which repetition, and which element of the run. */
  lemma RunParts(v: View, want: Shape, block: nat, times: nat, k: nat) returns (run: nat, rest: nat)
    requires v.Ok() && Expands(v, want) && Modular(v, want, block) && block * times == Elements(want)
    requires k < Elements(want)
    ensures run < times && rest < block && k == RunStart(block, run) + rest
    ensures v.offset + rest == BroadcastAt(v, want, k)
  {
    run, rest := k / block, k % block;
    CopiesBroadcast(v, want, block, times, Coord(want, k));
    RunStartProduct(block, run);
  }

  // ---- the dispatch ----

  /** Where node i's result may be written: its own state window, a transient newer than every value, or
      an output port that names it. */
  ghost predicate ResultPlace(g: TensorGraph, tb: Tables, i: nat, prior: nat, p: Place)
    requires WellFormed(g) && i < |g.nodes|
  {
    && p.at == 0 && Placed(tb.windows, p)
    && if g.nodes[i].outPort.Some? then p.base.Bound? && tb.windows[p.base.slot - 1] == OutWindow(g.nodes[i])
       else if p.base.Scratch? then p.base.id >= prior
       else NamedBy(g, i, tb.windows[p.base.slot - 1])
  }

  /** The state an advancing operator rewrites is bound as its last operand. */
  ghost predicate AdvancePlace(g: TensorGraph, tb: Tables, i: nat, operands: seq<Place>)
    requires WellFormed(g) && i < |g.nodes|
  {
    var n := g.nodes[i];
    n.advances && operands != [] && |operands| == |n.inputs| ==>
      var p := operands[|operands| - 1];
      && LastInput(n).port.Some? && p.at == 0 && p.base.Bound? && Placed(tb.windows, p)
      && tb.windows[p.base.slot - 1] == WindowOf(g, LastInput(n))
  }

  /** All the operands of a dispatch of node i are bound to their values. */
  ghost predicate OperandsHeld(w: World, windows: seq<Window>, next: nat, m: Mem, i: nat, operands: seq<Place>)
    requires WellFormed(w.g) && i < |w.g.nodes|
  {
    |operands| <= |w.g.nodes[i].inputs|
    && OpOk(w.g, i)
    && forall j: nat :: j < |operands| ==>
         TensorOk(w.g, i, w.g.nodes[i].inputs[j]) && OperandHeld(w, windows, next, m, i, j, operands[j])
  }

  /** What the kernel reads is what the graph says it reads. */
  lemma ReadsOperands(w: World, tb: Tables, m: Mem, i: nat, prior: nat, next: nat, operands: seq<Place>, result: Place)
    requires Fits(w.g, tb) && i < |w.g.nodes| && Good(w, tb, m, i)
    requires OperandsHeld(w, tb.windows, next, m, i, operands) && |operands| == |w.g.nodes[i].inputs|
    requires ResultPlace(w.g, tb, i, prior, result)
    ensures CommandOk(w.g, tb.windows, Dispatch(i, operands, result))
    ensures ReadAll(w.g, tb.windows, i, operands, result, m) == Operands(w.g, w.ks, InitOf(w), i)
  {
    var n := w.g.nodes[i];
    forall j: nat | j < |operands|
      ensures Placed(tb.windows, operands[j]) && n.inputs[j].view.Ok()
    {
      assert OperandHeld(w, tb.windows, next, m, i, j, operands[j]);
    }
    var a := ReadAll(w.g, tb.windows, i, operands, result, m);
    var b := Operands(w.g, w.ks, InitOf(w), i);
    forall j: nat | j < |operands|
      ensures a[j] == b[j]
    {
      assert OperandHeld(w, tb.windows, next, m, i, j, operands[j]);
    }
    if n.outPort.Some? {
      PriorRead(w, tb, m, i, OutWindow(n), result);
      assert a[|operands|] == b[|operands|];
    }
  }

  lemma PriorRead(w: World, tb: Tables, m: Mem, i: nat, window: Window, p: Place)
    requires Fits(w.g, tb) && i < |w.g.nodes| && Good(w, tb, m, i)
    requires window.port < |w.g.ports| && w.g.ports[window.port].kind != OutputPort
    requires p.at == 0 && p.base.Bound? && Placed(tb.windows, p) && tb.windows[p.base.slot - 1] == window
    ensures FetchAll(tb.windows, p, m, window.count) == PortRange(w.g, w.ks, InitOf(w), i, window)
  {
    forall k: nat | k < window.count
      ensures Fetch(tb.windows, p, m, k) == PortAfter(w.g, w.ks, InitOf(w), i, window.port, window.off + k)
    {
      assert PortHeld(w, m, i, window.port, window.off + k);
    }
  }

  /** A memory in which node i has run but its output ports may still be behind. */
  ghost predicate Mid(w: World, tb: Tables, m: Mem, i: nat)
    requires Fits(w.g, tb) && i < |w.g.nodes|
  {
    PortsHeld(w, m, i + 1) && ValuesHeld(w, tb, m, i) && OutputsHeld(w, m, i)
  }

  ghost predicate ResultHeld(w: World, windows: seq<Window>, m: Mem, i: nat, p: Place)
    requires WellFormed(w.g) && i < |w.g.nodes| && Placed(windows, p)
  {
    forall x: nat :: x < Elements(w.g.nodes[i].shape) ==> ElementHeld(w, m, i, Locate(windows, p, x), x)
  }

  lemma DispatchPorts(w: World, tb: Tables, m: Mem, m': Mem, i: nat, prior: nat, operands: seq<Place>, result: Place,
      p: nat, x: nat)
    requires Fits(w.g, tb) && i < |w.g.nodes| && OpOk(w.g, i) && PortHeld(w, m, i, p, x)
    requires p < |w.g.ports| && w.g.ports[p].kind != OutputPort
    requires ResultPlace(w.g, tb, i, prior, result) && AdvancePlace(w.g, tb, i, operands)
    requires CommandOk(w.g, tb.windows, Dispatch(i, operands, result))
    requires ReadAll(w.g, tb.windows, i, operands, result, m) == Operands(w.g, w.ks, InitOf(w), i)
    requires m' == RunOne(w.g, w.ks, tb.windows, Dispatch(i, operands, result), m)
    ensures PortHeld(w, m', i + 1, p, x)
  {
    var n := w.g.nodes[i];
    var l := InPort(p, x);
    var k := IndexIn(tb.windows, result, l);
    if n.outPort.None? && result.base.Bound? {
      var o :| o in w.g.outputs && o.source == Result(i) && tb.windows[result.base.slot - 1] == WholePort(w.g, o.port);
      assert OutputOk(w.g, o);
    }
  }

  /** Values already held stay held: the dispatch writes none of their places. */
  lemma DispatchKeeps(w: World, tb: Tables, m: Mem, m': Mem, i: nat, operands: seq<Place>, result: Place, l: Loc)
    requires Fits(w.g, tb) && i < |w.g.nodes| && OpOk(w.g, i)
    requires ResultPlace(w.g, tb, i, tb.next, result) && AdvancePlace(w.g, tb, i, operands)
    requires CommandOk(w.g, tb.windows, Dispatch(i, operands, result))
    requires m' == RunOne(w.g, w.ks, tb.windows, Dispatch(i, operands, result), m)
    requires if l.InScratch? then l.id < tb.next
             else l.port < |w.g.ports| && w.g.ports[l.port].kind == OutputPort && !PortNamed(w.g, i, l.port)
    ensures m'(l) == m(l)
  {
    var n := w.g.nodes[i];
    if l.InPort? && n.outPort.None? && result.base.Bound? {
      var o :| o in w.g.outputs && o.source == Result(i) && tb.windows[result.base.slot - 1] == WholePort(w.g, o.port);
      assert PortNamed(w.g, i, o.port);
    }
  }

  /** Output port p names node k. */
  ghost predicate PortNamed(g: TensorGraph, k: nat, p: nat) {
    exists o :: o in g.outputs && o.source == Result(k) && o.port == p
  }

  lemma OneName(g: TensorGraph, k: nat, i: nat, p: nat)
    requires WellFormed(g) && PortNamed(g, k, p) && PortNamed(g, i, p)
    ensures k == i
  {
    var o :| o in g.outputs && o.source == Result(k) && o.port == p;
    var q :| q in g.outputs && q.source == Result(i) && q.port == p;
    var a: nat :| a < |g.outputs| && g.outputs[a] == o;
    var b: nat :| b < |g.outputs| && g.outputs[b] == q;
  }

  /** m' keeps every value and output of the nodes before i. */
  ghost predicate KeepsPast(g: TensorGraph, m: Mem, m': Mem, i: nat, next: nat) {
    forall l: Loc :: PastLoc(g, i, next, l) ==> m'(l) == m(l)
  }

  ghost predicate PastLoc(g: TensorGraph, i: nat, next: nat, l: Loc) {
    if l.InScratch? then l.id < next
    else l.port < |g.ports| && g.ports[l.port].kind == OutputPort && !PortNamed(g, i, l.port)
  }

  lemma PastSurvives(w: World, tb: Tables, tb': Tables, m: Mem, m': Mem, i: nat)
    requires Fits(w.g, tb) && Fits(w.g, tb') && i < |w.g.nodes| && KeepsPast(w.g, m, m', i, tb.next)
    requires ValuesHeld(w, tb, m, i) && OutputsHeld(w, m, i)
    requires tb'.windows == tb.windows && tb'.views[..i] == tb.views[..i] && tb'.wrote[..i] == tb.wrote[..i]
    requires tb.next <= tb'.next
    ensures ValuesHeld(w, tb', m', i) && OutputsHeld(w, m', i)
  {
    forall k: nat | k < i && w.g.nodes[k].outPort.None?
      ensures ValueHeld(w, tb', m', k)
    {
      assert ValueHeld(w, tb, m, k);
      assert tb'.views[k] == tb'.views[..i][k] == tb.views[..i][k] &&
             tb'.wrote[k] == tb'.wrote[..i][k] == tb.wrote[..i][k];
      PastValue(w, tb, m, m', i, k);
    }
    forall o | o in w.g.outputs && o.source.Result? && o.source.node < i
      ensures OutputHeld(w, m', o.source.node, o.port)
    {
      assert PortNamed(w.g, o.source.node, o.port);
      PastOutput(w, m, m', i, tb.next, o.source.node, o.port);
    }
  }

  lemma PastOutput(w: World, m: Mem, m': Mem, i: nat, next: nat, k: nat, p: nat)
    requires WellFormed(w.g) && k < i < |w.g.nodes| && KeepsPast(w.g, m, m', i, next) && PortNamed(w.g, k, p)
    requires OutputHeld(w, m, k, p)
    ensures OutputHeld(w, m', k, p)
  {
    var o :| o in w.g.outputs && o.source == Result(k) && o.port == p;
    assert OutputOk(w.g, o);
    if PortNamed(w.g, i, p) {
      OneName(w.g, k, i, p);
    }
    forall x: nat | x < Elements(w.g.nodes[k].shape)
      ensures ElementHeld(w, m', k, InPort(p, x), x)
    {
      assert ElementHeld(w, m, k, InPort(p, x), x);
      assert PastLoc(w.g, i, next, InPort(p, x));
    }
  }

  lemma PastValue(w: World, tb: Tables, m: Mem, m': Mem, i: nat, k: nat)
    requires Fits(w.g, tb) && k < i < |w.g.nodes| && KeepsPast(w.g, m, m', i, tb.next) && ValueHeld(w, tb, m, k)
    ensures ValueHeld(w, tb, m', k)
  {
    if tb.views[k].Some? {
      var id := tb.views[k].value;
      forall x: nat | x < Elements(w.g.nodes[k].shape)
        ensures ElementHeld(w, m', k, InScratch(id, x), x)
      {
        assert ElementHeld(w, m, k, InScratch(id, x), x);
        assert PastLoc(w.g, i, tb.next, InScratch(id, x));
      }
    } else {
      var win := tb.windows[tb.wrote[k] - 1];
      var o :| o in w.g.outputs && o.source == Result(k) && win == WholePort(w.g, o.port);
      assert PortNamed(w.g, k, win.port);
      PastOutput(w, m, m', i, tb.next, k, win.port);
    }
  }

  /** One dispatch takes memory past node i. */
  lemma DispatchStep(w: World, tb: Tables, m: Mem, i: nat, next: nat, operands: seq<Place>, result: Place)
    requires Fits(w.g, tb) && i < |w.g.nodes| && Good(w, tb, m, i)
    requires OperandsHeld(w, tb.windows, next, m, i, operands) && |operands| == |w.g.nodes[i].inputs|
    requires ResultPlace(w.g, tb, i, tb.next, result) && AdvancePlace(w.g, tb, i, operands)
    ensures CommandOk(w.g, tb.windows, Dispatch(i, operands, result))
    ensures var m' := RunOne(w.g, w.ks, tb.windows, Dispatch(i, operands, result), m);
            Mid(w, tb, m', i) && ResultHeld(w, tb.windows, m', i, result)
  {
    ReadsOperands(w, tb, m, i, tb.next, next, operands, result);
    var m' := RunOne(w.g, w.ks, tb.windows, Dispatch(i, operands, result), m);
    var i' := i + 1;
    forall p: nat, x: nat | p < |w.g.ports| && w.g.ports[p].kind != OutputPort
      ensures PortHeld(w, m', i', p, x)
    {
      assert PortHeld(w, m, i, p, x);
      DispatchPorts(w, tb, m, m', i, tb.next, operands, result, p, x);
    }
    forall l: Loc | PastLoc(w.g, i, tb.next, l)
      ensures m'(l) == m(l)
    {
      DispatchKeeps(w, tb, m, m', i, operands, result, l);
    }
    PastSurvives(w, tb, tb, m, m', i);
  }

  // ---- copies around a dispatch ----

  /** Copying a packed operand into a fresh transient binds it there. */
  lemma ScratchOperand(w: World, windows: seq<Window>, next: nat, m: Mem, i: nat, j: nat, src: Place, id: nat)
    requires WellFormed(w.g) && i < |w.g.nodes| && j < |w.g.nodes[i].inputs| && TensorOk(w.g, i, w.g.nodes[i].inputs[j])
    requires OperandHeld(w, windows, next, m, i, j, src) && !w.g.nodes[i].bcast && !w.g.nodes[i].strided
    requires id >= next
    ensures var n := w.g.nodes[i]; var dst := Place(Scratch(id), 0);
            var c := Copy(dst, src, Elements(n.inputs[j].view.shape));
            && CommandOk(w.g, windows, c)
            && OperandHeld(w, windows, id + 1, RunOne(w.g, w.ks, windows, c, m), i, j, dst)
            && SameOld(m, RunOne(w.g, w.ks, windows, c, m), next)
  {
    var n := w.g.nodes[i];
    var v := n.inputs[j].view;
    var dst := Place(Scratch(id), 0);
    var m' := RunOne(w.g, w.ks, windows, Copy(dst, src, Elements(v.shape)), m);
    assert ReadOperand(windows, n, j, dst, m') == ReadOperand(windows, n, j, src, m);
  }

  /** Copying the result out to a port that names it fills that port and disturbs nothing else. */
  lemma CopyOutStep(w: World, tb: Tables, m: Mem, i: nat, src: Place, dst: Place)
    requires Fits(w.g, tb) && i < |w.g.nodes| && Mid(w, tb, m, i)
    requires src.base.Scratch? && Placed(tb.windows, src) && ResultHeld(w, tb.windows, m, i, src)
    requires dst.at == 0 && dst.base.Bound? && Placed(tb.windows, dst) && NamedBy(w.g, i, tb.windows[dst.base.slot - 1])
    ensures var c := Copy(dst, src, Elements(w.g.nodes[i].shape)); var m' := RunOne(w.g, w.ks, tb.windows, c, m);
            && CommandOk(w.g, tb.windows, c) && Mid(w, tb, m', i) && ResultHeld(w, tb.windows, m', i, src)
            && OutputHeld(w, m', i, tb.windows[dst.base.slot - 1].port)
            && (forall p: nat :: OutputHeld(w, m, i, p) ==> OutputHeld(w, m', i, p))
  {
    var n := w.g.nodes[i];
    var c := Copy(dst, src, Elements(n.shape));
    var m' := RunOne(w.g, w.ks, tb.windows, c, m);
    var win := tb.windows[dst.base.slot - 1];
    var o :| o in w.g.outputs && o.source == Result(i) && win == WholePort(w.g, o.port);
    assert OutputOk(w.g, o) && PortNamed(w.g, i, win.port);
    var i' := i + 1;
    forall p: nat, x: nat | p < |w.g.ports| && w.g.ports[p].kind != OutputPort
      ensures PortHeld(w, m', i', p, x)
    {
      assert PortHeld(w, m, i', p, x);
    }
    PastSurvives(w, tb, tb, m, m', i);
    forall x: nat | x < Elements(n.shape)
      ensures ElementHeld(w, m', i, InPort(win.port, x), x)
      ensures ElementHeld(w, m', i, Locate(tb.windows, src, x), x)
    {
      assert ElementHeld(w, m, i, Locate(tb.windows, src, x), x);
    }
    CopyOutKeeps(w, m, m', i, win.port);
  }

  lemma CopyOutKeeps(w: World, m: Mem, m': Mem, i: nat, q: nat)
    requires WellFormed(w.g) && i < |w.g.nodes| && OutputHeld(w, m', i, q)
    requires forall l: Loc :: l.InPort? && l.port != q ==> m'(l) == m(l)
    ensures forall p: nat :: OutputHeld(w, m, i, p) ==> OutputHeld(w, m', i, p)
  {
    forall p: nat, x: nat | OutputHeld(w, m, i, p) && p != q && x < Elements(w.g.nodes[i].shape)
      ensures ElementHeld(w, m', i, InPort(p, x), x)
    {
      assert ElementHeld(w, m, i, InPort(p, x), x);
    }
  }

  /** Node i is done once its value is on record and every port naming it holds it. */
  lemma FinishStep(w: World, tb: Tables, tb': Tables, m: Mem, i: nat)
    requires Fits(w.g, tb) && Fits(w.g, tb') && i < |w.g.nodes| && Mid(w, tb, m, i)
    requires tb'.windows == tb.windows && tb'.views[..i] == tb.views[..i] && tb'.wrote[..i] == tb.wrote[..i]
    requires tb.next <= tb'.next
    requires w.g.nodes[i].outPort.None? ==> ValueHeld(w, tb', m, i)
    requires forall p: nat :: PortNamed(w.g, i, p) ==> OutputHeld(w, m, i, p)
    ensures Good(w, tb', m, i + 1)
  {
    PastSurvives(w, tb, tb', m, m, i);
    forall o | o in w.g.outputs && o.source.Result? && o.source.node < i + 1
      ensures OutputHeld(w, m, o.source.node, o.port)
    {
      if o.source.node == i {
        assert PortNamed(w.g, i, o.port);
      }
    }
  }
}
