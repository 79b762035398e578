/** Slots: what a batch of bindings may resolve to, so that hazards inferred against slots still
    hold of the buffers behind them. */
module Binding {
  import opened Accesses
  import opened Options
  import opened Recording

  /** A byte range of one buffer. */
  datatype View = View(buf: nat, off: nat, size: nat)

  /** One requested binding. `admissible` stands for the checks that look only at the resource
      itself: its kind, element type, usage, device and being open. */
  datatype SlotBinding = SlotBinding(slot: nat, view: Option<View>, admissible: bool)

  /** Bytes lo up to hi of a buffer, with whether some node writes there under this name. */
  datatype ByteSpan = ByteSpan(buf: nat, lo: int, hi: int, write: bool)

  type Bindings = seq<Option<View>>

  /** The two share a stretch of one buffer, and not both only read it. */
  predicate SpansConflict(a: ByteSpan, b: ByteSpan) {
    a.buf == b.buf && (a.write || b.write) && a.lo < b.hi && b.lo < a.hi
  }

  predicate SlotWritten(nodes: seq<Node>, s: SlotId) {
    exists i: nat :: i < |nodes| && exists a :: a in nodes[i].accesses && a.res == SlotRef(s) && a.Writes()
  }

  ghost predicate NodeSpan(n: Node, c: ByteSpan) {
    exists a :: a in n.accesses && SpanOfAccess(a, c)
  }

  ghost predicate ConcreteSpan(nodes: seq<Node>, c: ByteSpan) {
    exists i: nat :: i < |nodes| && NodeSpan(nodes[i], c)
  }

  ghost predicate SpanOfAccess(a: Access, c: ByteSpan) {
    a.res.Buf? && c == ByteSpan(a.res.id, a.off, a.off + a.size, a.Writes())
  }

  function SlotSpan(v: View, write: bool): ByteSpan {
    ByteSpan(v.buf, v.off, v.off + v.size, write)
  }

  ghost function SlotSpanAt(nodes: seq<Node>, bound: Bindings, s: nat): ByteSpan
    requires s < |bound| && bound[s].Some?
  {
    SlotSpan(bound[s].value, SlotWritten(nodes, s + 1))
  }

  /** Slot s conflicts with no later slot and with no range the graph names directly. */
  ghost predicate SlotClear(nodes: seq<Node>, bound: Bindings, s: nat)
    requires s < |bound|
  {
    bound[s].Some? ==>
      && (forall r: nat :: s < r < |bound| && bound[r].Some? ==>
            !SpansConflict(SlotSpanAt(nodes, bound, s), SlotSpanAt(nodes, bound, r)))
      && (forall c :: ConcreteSpan(nodes, c) ==> !SpansConflict(SlotSpanAt(nodes, bound, s), c))
  }

  /** No bound slot overlaps another, or a range the graph names directly, unless neither writes. */
  ghost predicate BindingsSafe(nodes: seq<Node>, bound: Bindings) {
    forall s: nat :: s < |bound| ==> SlotClear(nodes, bound, s)
  }

  /** Some node does more than read through slot s + 1. */
  ghost predicate WrittenThrough(nodes: seq<Node>, s: nat) {
    exists i: nat, a :: i < |nodes| && a in nodes[i].accesses && a.res == SlotRef(s + 1) && a.mode != Read
  }

  /** The buffers behind two slots, unless nobody writes through either, are different or used apart. */
  ghost predicate SlotsApart(nodes: seq<Node>, bound: Bindings, s: nat, r: nat)
    requires s < |bound| && r < |bound| && bound[s].Some? && bound[r].Some?
  {
    var v, u := bound[s].value, bound[r].value;
    v.buf == u.buf && (WrittenThrough(nodes, s) || WrittenThrough(nodes, r)) ==>
      v.off + v.size <= u.off || u.off + u.size <= v.off
  }

  /** The same of a slot and a range some node names directly. */
  ghost predicate SlotAndRangeApart(nodes: seq<Node>, bound: Bindings, s: nat, a: Access)
    requires s < |bound| && bound[s].Some?
  {
    var v := bound[s].value;
    a.res == Buf(v.buf) && (WrittenThrough(nodes, s) || a.mode != Read) ==>
      v.off + v.size <= a.off || a.off + a.size <= v.off
  }

  /** Slot s + 1 is apart from every later bound slot and from every range named directly. */
  ghost predicate SlotFree(nodes: seq<Node>, bound: Bindings, s: nat)
    requires s < |bound| && bound[s].Some?
  {
    && (forall r: nat :: s < r < |bound| && bound[r].Some? ==> SlotsApart(nodes, bound, s, r))
    && (forall i: nat, a :: i < |nodes| && a in nodes[i].accesses ==> SlotAndRangeApart(nodes, bound, s, a))
  }

  /** What the overlap check accepts, from the bound views and the declared accesses alone. */
  lemma SafeExactly(nodes: seq<Node>, bound: Bindings)
    ensures BindingsSafe(nodes, bound) <==>
            forall s: nat :: s < |bound| && bound[s].Some? ==> SlotFree(nodes, bound, s)
  {
    forall s: nat | s < |bound| && bound[s].Some?
      ensures SlotClear(nodes, bound, s) <==> SlotFree(nodes, bound, s)
    {
      SlotExactly(nodes, bound, s);
    }
  }

  lemma SlotExactly(nodes: seq<Node>, bound: Bindings, s: nat)
    requires s < |bound| && bound[s].Some?
    ensures SlotClear(nodes, bound, s) <==> SlotFree(nodes, bound, s)
  {
    RangesExactly(nodes, bound, s);
    forall r: nat | s < r < |bound| && bound[r].Some?
      ensures SlotsApart(nodes, bound, s, r) <==>
              !SpansConflict(SlotSpanAt(nodes, bound, s), SlotSpanAt(nodes, bound, r))
    {
      WrittenExactly(nodes, s);
      WrittenExactly(nodes, r);
    }
  }

  lemma WrittenExactly(nodes: seq<Node>, s: nat)
    ensures SlotWritten(nodes, s + 1) <==> WrittenThrough(nodes, s)
  {
    if SlotWritten(nodes, s + 1) {
      var i: nat :| i < |nodes| && exists a :: a in nodes[i].accesses && a.res == SlotRef(s + 1) && a.Writes();
      var a :| a in nodes[i].accesses && a.res == SlotRef(s + 1) && a.Writes();
      assert a.mode != Read;
    }
    if WrittenThrough(nodes, s) {
      var i: nat, a :| i < |nodes| && a in nodes[i].accesses && a.res == SlotRef(s + 1) && a.mode != Read;
      assert a.Writes();
    }
  }

  lemma RangesExactly(nodes: seq<Node>, bound: Bindings, s: nat)
    requires s < |bound| && bound[s].Some?
    ensures (forall c :: ConcreteSpan(nodes, c) ==> !SpansConflict(SlotSpanAt(nodes, bound, s), c)) <==>
            forall i: nat, a :: i < |nodes| && a in nodes[i].accesses ==> SlotAndRangeApart(nodes, bound, s, a)
  {
    WrittenExactly(nodes, s);
    forall i: nat, a | i < |nodes| && a in nodes[i].accesses && !SlotAndRangeApart(nodes, bound, s, a)
      ensures exists c :: ConcreteSpan(nodes, c) && SpansConflict(SlotSpanAt(nodes, bound, s), c)
    {
      var c := ByteSpan(a.res.id, a.off, a.off + a.size, a.Writes());
      assert SpanOfAccess(a, c) && NodeSpan(nodes[i], c);
      assert ConcreteSpan(nodes, c) && SpansConflict(SlotSpanAt(nodes, bound, s), c);
    }
    forall c | ConcreteSpan(nodes, c) && SpansConflict(SlotSpanAt(nodes, bound, s), c)
      ensures exists i: nat, a :: i < |nodes| && a in nodes[i].accesses && !SlotAndRangeApart(nodes, bound, s, a)
    {
      var i: nat :| i < |nodes| && NodeSpan(nodes[i], c);
      var a :| a in nodes[i].accesses && SpanOfAccess(a, c);
      assert !SlotAndRangeApart(nodes, bound, s, a);
    }
  }

  /** Every bound view is at least as large as its slot declares. */
  ghost predicate WideEnough(slots: seq<SlotDescriptor>, bound: Bindings) {
    |bound| == |slots| && forall s :: 0 <= s < |bound| && bound[s].Some? ==> slots[s].limit <= bound[s].value.size
  }

  /** The batch, applied in order. */
  function Applied(bound: Bindings, batch: seq<SlotBinding>): (r: Bindings)
    ensures |r| == |bound|
  {
    if batch == [] then bound
    else
      var b := batch[|batch| - 1];
      var before := Applied(bound, batch[..|batch| - 1]);
      if 1 <= b.slot <= |bound| then before[b.slot - 1 := b.view] else before
  }

  predicate Acceptable(slots: seq<SlotDescriptor>, b: SlotBinding) {
    && 1 <= b.slot <= |slots|
    && b.view.Some? && b.admissible
    && b.view.value.size >= slots[b.slot - 1].limit
  }

  /** The last binding of the batch that names slot s + 1 (slots count from one). */
  ghost predicate LastFor(batch: seq<SlotBinding>, s: nat, j: nat) {
    j < |batch| && batch[j].slot == s + 1 && forall k :: j < k < |batch| ==> batch[k].slot != s + 1
  }

  /** Slot s + 1 has what the last binding naming it gives, or what it had when none does. */
  ghost predicate Rebound(before: Bindings, batch: seq<SlotBinding>, after: Bindings, s: nat)
    requires s < |before| == |after|
  {
    && (forall j: nat :: LastFor(batch, s, j) ==> after[s] == batch[j].view)
    && ((forall j :: 0 <= j < |batch| ==> batch[j].slot != s + 1) ==> after[s] == before[s])
  }

  lemma {:induction false} AppliedRebinds(bound: Bindings, batch: seq<SlotBinding>, s: nat)
    requires s < |bound|
    ensures Rebound(bound, batch, Applied(bound, batch), s)
  {
    if batch != [] {
      var init := batch[..|batch| - 1];
      AppliedRebinds(bound, init, s);
      assert forall j :: 0 <= j < |init| ==> init[j] == batch[j];
      assert forall j: nat :: LastFor(batch, s, j) && j < |init| ==> LastFor(init, s, j);
    }
  }

  lemma {:induction false} AppliedWide(slots: seq<SlotDescriptor>, bound: Bindings, batch: seq<SlotBinding>)
    requires WideEnough(slots, bound) && forall b :: b in batch ==> Acceptable(slots, b)
    ensures WideEnough(slots, Applied(bound, batch))
  {
    if batch != [] {
      AppliedWide(slots, bound, batch[..|batch| - 1]);
      assert batch[|batch| - 1] in batch;
    }
  }

  /** Every byte range the graph names through a buffer it already holds. */
  method ConcreteSpans(nodes: seq<Node>) returns (out: seq<ByteSpan>)
    ensures forall c :: c in out <==> ConcreteSpan(nodes, c)
  {
    out := [];
    for i := 0 to |nodes|
      invariant forall c :: c in out <==> ConcreteSpan(nodes[..i], c)
    {
      var more := SpansOfNode(nodes[i]);
      ConcreteMore(nodes, i);
      out := out + more;
    }
    assert nodes[..|nodes|] == nodes;
  }

  method SpansOfNode(n: Node) returns (out: seq<ByteSpan>)
    ensures forall c :: c in out <==> NodeSpan(n, c)
  {
    out := [];
    for k := 0 to |n.accesses|
      invariant forall c :: c in out <==> exists j :: 0 <= j < k && SpanOfAccess(n.accesses[j], c)
    {
      var a := n.accesses[k];
      if a.res.Buf? {
        out := out + [ByteSpan(a.res.id, a.off, a.off + a.size, a.Writes())];
      }
    }
    forall c: ByteSpan
      ensures c in out <==> NodeSpan(n, c)
    {
      if NodeSpan(n, c) {
        var a :| a in n.accesses && SpanOfAccess(a, c);
        var j :| 0 <= j < |n.accesses| && n.accesses[j] == a;
      }
    }
  }

  lemma ConcreteMore(nodes: seq<Node>, i: nat)
    requires i < |nodes|
    ensures forall c :: ConcreteSpan(nodes[..i + 1], c) <==> ConcreteSpan(nodes[..i], c) || NodeSpan(nodes[i], c)
  {
    forall c: ByteSpan
      ensures ConcreteSpan(nodes[..i + 1], c) <==> ConcreteSpan(nodes[..i], c) || NodeSpan(nodes[i], c)
    {
      if ConcreteSpan(nodes[..i], c) {
        var j: nat :| j < i && NodeSpan(nodes[..i][j], c);
        assert NodeSpan(nodes[..i + 1][j], c);
      }
      if NodeSpan(nodes[i], c) {
        assert NodeSpan(nodes[..i + 1][i], c);
      }
      if ConcreteSpan(nodes[..i + 1], c) {
        var j: nat :| j < i + 1 && NodeSpan(nodes[..i + 1][j], c);
        assert j < i ==> NodeSpan(nodes[..i][j], c);
      }
    }
  }

  /** One slot of the overlap check, against the later slots and the concrete ranges. */
  method CheckSlot(nodes: seq<Node>, bound: Bindings, writer: seq<bool>, concrete: seq<ByteSpan>, s: nat)
    returns (clear: bool)
    requires |writer| == |bound| && forall x: nat :: x < |bound| ==> writer[x] == SlotWritten(nodes, x + 1)
    requires forall c :: c in concrete <==> ConcreteSpan(nodes, c)
    requires s < |bound| && bound[s].Some?
    ensures clear <==> SlotClear(nodes, bound, s)
  {
    var mine := SlotSpan(bound[s].value, writer[s]);
    for r := s + 1 to |bound|
      invariant forall x: nat :: s < x < r && bound[x].Some? ==> !SpansConflict(mine, SlotSpanAt(nodes, bound, x))
    {
      if bound[r].Some? && SpansConflict(mine, SlotSpan(bound[r].value, writer[r])) {
        return false;
      }
    }
    for j := 0 to |concrete|
      invariant forall k :: 0 <= k < j ==> !SpansConflict(mine, concrete[k])
    {
      if SpansConflict(mine, concrete[j]) {
        assert ConcreteSpan(nodes, concrete[j]);
        return false;
      }
    }
    return true;
  }

  /** The overlap check over a prospective binding set. */
  method CheckOverlaps(nodes: seq<Node>, bound: Bindings, writer: seq<bool>, concrete: seq<ByteSpan>) returns (ok: bool)
    requires |writer| == |bound| && forall x: nat :: x < |bound| ==> writer[x] == SlotWritten(nodes, x + 1)
    requires forall c :: c in concrete <==> ConcreteSpan(nodes, c)
    ensures ok <==> BindingsSafe(nodes, bound)
  {
    for s := 0 to |bound|
      invariant forall x: nat :: x < s ==> SlotClear(nodes, bound, x)
    {
      if bound[s].Some? {
        var clear := CheckSlot(nodes, bound, writer, concrete, s);
        if !clear {
          return false;
        }
      }
    }
    return true;
  }
}
