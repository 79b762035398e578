/** The commands a lowering records, and what running them does to memory. */
module Machine {
  import opened Shapes
  import opened TensorGraphs
  import opened Versions
  import opened Views

  /** A transient the recorder owns, or a slot bound to a window of a port. Slot 0 is none. */
  datatype Base = Scratch(id: nat) | Bound(slot: nat)

  /** A binding, from an element of it on. */
  datatype Place = Place(base: Base, at: nat)

  datatype Command = Dispatch(node: nat, operands: seq<Place>, result: Place) | Copy(dst: Place, src: Place, count: nat)

  datatype Loc = InScratch(id: nat, at: nat) | InPort(port: nat, at: nat)

  type Mem = Loc -> Elem

  ghost predicate Placed(windows: seq<Window>, p: Place) {
    p.base.Bound? ==> 1 <= p.base.slot <= |windows|
  }

  /** Element k of a place. */
  ghost function Locate(windows: seq<Window>, p: Place, k: nat): Loc
    requires Placed(windows, p)
  {
    match p.base
    case Scratch(id) => InScratch(id, p.at + k)
    case Bound(s) => InPort(windows[s - 1].port, windows[s - 1].off + p.at + k)
  }

  /** Which element of a place a location is; -1 if none. */
  ghost function IndexIn(windows: seq<Window>, p: Place, l: Loc): (k: int)
    requires Placed(windows, p)
    ensures k >= 0 ==> Locate(windows, p, k) == l
    ensures forall x: nat :: Locate(windows, p, x) == l ==> k == x
  {
    match p.base
    case Scratch(id) => if l.InScratch? && l.id == id && l.at >= p.at then l.at - p.at else -1
    case Bound(s) =>
      var start := windows[s - 1].off + p.at;
      if l.InPort? && l.port == windows[s - 1].port && l.at >= start then l.at - start else -1
  }

  ghost function Fetch(windows: seq<Window>, p: Place, m: Mem, k: nat): Elem
    requires Placed(windows, p)
  {
    m(Locate(windows, p, k))
  }

  ghost function FetchAll(windows: seq<Window>, p: Place, m: Mem, count: nat): seq<Elem>
    requires Placed(windows, p)
  {
    seq(count, k requires 0 <= k < count => Fetch(windows, p, m, k))
  }

  /** What a kernel reads of operand j: a broadcast operand at the result's extent and a packed one at
      its own, both from element zero on; a strided one through its view. */
  ghost function ReadOperand(windows: seq<Window>, n: Op, j: nat, p: Place, m: Mem): seq<Elem>
    requires Placed(windows, p) && j < |n.inputs| && n.inputs[j].view.Ok()
  {
    var v := n.inputs[j].view;
    if n.bcast then seq(Elements(n.shape), k requires 0 <= k < Elements(n.shape) => Fetch(windows, p, m, k))
    else if n.strided then
      seq(Elements(v.shape), k requires 0 <= k < Elements(v.shape) => Fetch(windows, p, m, Addr(v, Coord(v.shape, k))))
    else seq(Elements(v.shape), k requires 0 <= k < Elements(v.shape) => Fetch(windows, p, m, k))
  }

  ghost predicate CommandOk(g: TensorGraph, windows: seq<Window>, c: Command) {
    match c
    case Dispatch(i, operands, result) =>
      && i < |g.nodes| && |operands| == |g.nodes[i].inputs| && Placed(windows, result)
      && (forall j: nat :: j < |operands| ==> Placed(windows, operands[j]) && g.nodes[i].inputs[j].view.Ok())
    case Copy(dst, src, _) => Placed(windows, dst) && Placed(windows, src)
  }

  ghost function ReadAll(g: TensorGraph, windows: seq<Window>, i: nat, operands: seq<Place>, result: Place,
      m: Mem): seq<seq<Elem>>
    requires CommandOk(g, windows, Dispatch(i, operands, result))
  {
    var n := g.nodes[i];
    seq(|operands|, j requires 0 <= j < |operands| => ReadOperand(windows, n, j, operands[j], m))
    + (if n.outPort.Some? then [FetchAll(windows, result, m, Elements(n.shape))] else [])
  }

  /** The element a dispatch leaves at location l. */
  ghost function Dispatched(g: TensorGraph, ks: Kernels, windows: seq<Window>, i: nat, operands: seq<Place>,
      result: Place, m: Mem, l: Loc): Elem
    requires CommandOk(g, windows, Dispatch(i, operands, result))
  {
    var n := g.nodes[i];
    var ops := ReadAll(g, windows, i, operands, result, m);
    var k := IndexIn(windows, result, l);
    var k' := if n.advances && operands != [] then IndexIn(windows, operands[|operands| - 1], l) else -1;
    if 0 <= k < Elements(n.shape) then ks.compute(i, ops, k)
    else if 0 <= k' && k' < Elements(LastInput(n).view.shape) then ks.advance(i, ops, k')
    else m(l)
  }

  ghost function Copied(windows: seq<Window>, dst: Place, src: Place, count: nat, m: Mem, l: Loc): Elem
    requires Placed(windows, dst) && Placed(windows, src)
  {
    var k := IndexIn(windows, dst, l);
    if 0 <= k < count then Fetch(windows, src, m, k) else m(l)
  }

  ghost function RunOne(g: TensorGraph, ks: Kernels, windows: seq<Window>, c: Command, m: Mem): Mem
    requires CommandOk(g, windows, c)
  {
    match c
    case Dispatch(i, operands, result) => (l: Loc) => Dispatched(g, ks, windows, i, operands, result, m, l)
    case Copy(dst, src, count) => (l: Loc) => Copied(windows, dst, src, count, m, l)
  }

  ghost predicate CommandsOk(g: TensorGraph, windows: seq<Window>, cs: seq<Command>) {
    forall c :: c in cs ==> CommandOk(g, windows, c)
  }

  /** Memory after the commands, in order. */
  ghost function RunAll(g: TensorGraph, ks: Kernels, windows: seq<Window>, cs: seq<Command>, m: Mem): Mem
    requires CommandsOk(g, windows, cs)
  {
    if cs == [] then m
    else RunOne(g, ks, windows, cs[|cs| - 1], RunAll(g, ks, windows, cs[..|cs| - 1], m))
  }

  lemma RunMore(g: TensorGraph, ks: Kernels, windows: seq<Window>, cs: seq<Command>, c: Command, m: Mem)
    requires CommandsOk(g, windows, cs) && CommandOk(g, windows, c)
    ensures CommandsOk(g, windows, cs + [c])
    ensures RunAll(g, ks, windows, cs + [c], m) == RunOne(g, ks, windows, c, RunAll(g, ks, windows, cs, m))
  {
    assert (cs + [c])[..|cs|] == cs;
  }
}
