/** Reads that outlive their version. The stale check runs when a state is read, not when what was read
    is consumed, so a write recorded in between reaches the consumer. */
module StaleReads {
  import opened Broadcasts
  import opened Options
  import opened Shapes
  import opened TensorGraphs
  import opened Versions
  import opened Views

  /** Operand j of node i finds element x of the version it names in its port when node i runs. */
  ghost predicate FindsVersion(g: TensorGraph, ks: Kernels, init: Contents, i: nat, j: nat, x: nat)
    requires WellFormed(g) && i < |g.nodes| && j < |g.nodes[i].inputs|
    requires TensorOk(g, i, g.nodes[i].inputs[j]) && g.nodes[i].inputs[j].port.Some?
  {
    var t := g.nodes[i].inputs[j];
    Stored(g, ks, init, i, t, x) == PortAfter(g, ks, init, i, t.port.value, WindowOf(g, t).off + x)
  }

  /** Operand j of node i reads its version, whatever the kernels compute and the ports held. */
  ghost predicate ReadsVersion(g: TensorGraph, i: nat, j: nat)
    requires WellFormed(g) && i < |g.nodes| && j < |g.nodes[i].inputs|
  {
    var t := g.nodes[i].inputs[j];
    assert OpOk(g, i);
    t.port.Some? ==>
      forall ks: Kernels, init: Contents, x: nat :: x < WindowOf(g, t).count ==> FindsVersion(g, ks, init, i, j, x)
  }

  /** An operand always reads its version exactly when nothing writes over it between the version and
      the operator. */
  lemma ReadsVersionExactly(g: TensorGraph, i: nat, j: nat)
    requires WellFormed(g) && i < |g.nodes| && j < |g.nodes[i].inputs|
    ensures ReadsVersion(g, i, j) <==> FreshAt(g, i, g.nodes[i].inputs[j])
  {
    var t := g.nodes[i].inputs[j];
    assert OpOk(g, i) && TensorOk(g, i, t);
    if t.port.Some? {
      if FreshAt(g, i, t) {
        forall ks: Kernels, init: Contents, x: nat | x < WindowOf(g, t).count
          ensures FindsVersion(g, ks, init, i, j, x)
        {
          StoredIsHeld(g, ks, init, i, j, x);
        }
      } else {
        var k: nat :| k < i && ReadBefore(t, k) && WritesOver(g, g.nodes[k], WindowOf(g, t));
        OverwriteShows(g, i, j, k);
      }
    }
  }

  /** So a graph reads every version it names exactly when it consumes them all in time. */
  lemma VersionsReadExactly(g: TensorGraph)
    requires WellFormed(g)
    ensures Consumed(g) <==>
            forall i: nat, j: nat :: i < |g.nodes| && j < |g.nodes[i].inputs| ==> ReadsVersion(g, i, j)
  {
    forall i: nat, j: nat | i < |g.nodes| && j < |g.nodes[i].inputs|
      ensures ReadsVersion(g, i, j) <==> FreshAt(g, i, g.nodes[i].inputs[j])
    {
      ReadsVersionExactly(g, i, j);
    }
  }

  // ---- kernels that sign what they write ----

  /** Every element node i writes is i + 1. */
  ghost const SIGNING := Kernels(SIGN, SIGN)

  ghost const SIGN := (i: nat, operands: seq<seq<Elem>>, x: nat) => i + 1

  ghost const BLANK: Contents := (p: nat, x: nat) => 0

  lemma {:induction false} SignedBy(g: TensorGraph, i: nat, p: nat, x: nat)
    requires WellFormed(g) && i <= |g.nodes|
    ensures 0 <= PortAfter(g, SIGNING, BLANK, i, p, x) <= i
  {
    if i > 0 {
      SignedBy(g, i - 1, p, x);
    }
  }

  ghost predicate WritesAt(g: TensorGraph, n: Op, p: nat, x: nat) {
    (n.outPort.Some? && Covers(OutWindow(n), p, x)) || Advances(g, n, p, x)
  }

  lemma {:induction false} SignedSince(g: TensorGraph, k: nat, i: nat, p: nat, x: nat)
    requires WellFormed(g) && k < i <= |g.nodes| && WritesAt(g, g.nodes[k], p, x)
    ensures PortAfter(g, SIGNING, BLANK, i, p, x) > k
  {
    if i > k + 1 {
      SignedSince(g, k, i - 1, p, x);
    }
  }

  lemma StorageSome(g: TensorGraph, i: nat, t: Tensor)
    requires TensorOk(g, i, t)
    ensures StorageOf(g, t) > 0
  {
    var origin := seq(|t.view.shape|, a => 0);
    assert Within(origin, t.view.shape);
    assert Addr(t.view, origin) < StorageOf(g, t);
  }

  /** A write over a window covers some element of it. */
  lemma WriteTouches(g: TensorGraph, k: nat, w: Window) returns (x: nat)
    requires WellFormed(g) && k < |g.nodes| && w.count > 0 && WritesOver(g, g.nodes[k], w)
    ensures x < w.count && WritesAt(g, g.nodes[k], w.port, w.off + x)
  {
    var n := g.nodes[k];
    assert OpOk(g, k);
    var o: Window;
    if n.outPort.Some? && OutWindow(n).Overlaps(w) {
      o := OutWindow(n);
      ElementsPositive(n.shape);
    } else {
      o := WindowOf(g, LastInput(n));
      assert TensorOk(g, k, n.inputs[|n.inputs| - 1]);
      StorageSome(g, k, LastInput(n));
    }
    x := if o.off > w.off then o.off - w.off else 0;
    assert Covers(o, w.port, w.off + x);
  }

  /** Kernels that sign their writes give the overwrite away. */
  lemma OverwriteShows(g: TensorGraph, i: nat, j: nat, k: nat)
    requires WellFormed(g) && i < |g.nodes| && j < |g.nodes[i].inputs|
    requires g.nodes[i].inputs[j].port.Some? && k < i && ReadBefore(g.nodes[i].inputs[j], k)
    requires WritesOver(g, g.nodes[k], WindowOf(g, g.nodes[i].inputs[j]))
    ensures !ReadsVersion(g, i, j)
  {
    var t := g.nodes[i].inputs[j];
    assert OpOk(g, i) && TensorOk(g, i, t);
    StorageSome(g, i, t);
    var w := WindowOf(g, t);
    var x := WriteTouches(g, k, w);
    SignedBy(g, if t.node < 0 then 0 else t.node + 1, w.port, w.off + x);
    SignedSince(g, k, i, w.port, w.off + x);
    assert !FindsVersion(g, SIGNING, BLANK, i, j, x);
  }

  // ---- an input ----

  /** Nothing stops a caller who holds a read from recording a write over it: from then on the read names
      a version that is gone. */
  method ReadThenWrite(b: Builder, s: State) returns (read: Option<Window>, next: Option<State>)
    requires b.Valid() && Made(b.log, s) && !WrittenSince(b.log, s)
    modifies b
    ensures b.Valid() && read == Some(s.Range()) && next.Some? && WrittenSince(b.log, s)
  {
    read := b.ReadState(s);
    next := b.Advance(s, true);
  }

  /** One state of one element: node 0 rewrites it, and node 1 uses what was read before that. */
  const OVERWRITTEN := TensorGraph([WRITE, USE], [Port(StatePort, 1)], [])

  const WRITE := Op([], [1], Some((0, 0)), false, false, false, false)

  const USE := Op([READ], [1], None, false, false, false, false)

  const READ := Tensor(Whole([1]), -1, Some(0), None)

  lemma OverwrittenRead()
    ensures WellFormed(OVERWRITTEN) && !ReadsVersion(OVERWRITTEN, 1, 0)
  {
    var g := OVERWRITTEN;
    assert Elements([1]) == 1;
    WholeInBounds([1]);
    assert OpOk(g, 0) && OpOk(g, 1);
    OverwriteShows(g, 1, 0, 0);
  }
}
