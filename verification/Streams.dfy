/** Queues as serial streams: units of work chained in the order they were put on their queue, fences
    that signal them, and submissions that wait for other queues' fences. */
module Streams {

  /** A unit not begun; begun, perhaps waiting for other fences; done working; fence signalled; chained
      on. */
  datatype Phase = Queued | Begun | Worked | Signalled | Done

  /** One unit: its queue, the host writes it carries, the fences it waits for (units are their own
      fences), the unit before it on its queue or -1, and how it went. */
  datatype Unit = Unit(queue: nat, batch: seq<nat>, after: seq<nat>, prev: int, phase: Phase, failed: bool,
      delivered: bool) {
    predicate Finished() {
      phase == Signalled || phase == Done
    }
  }

  /** A caller between taking a batch and putting its unit on the stream. */
  datatype Hand = Hand(queue: nat, batch: seq<nat>, after: seq<nat>)

  /** Units in the order they were enqueued, the last one of each queue, writes staged but not taken,
      callers in between, and the writes applied through each queue, in order. */
  datatype Streams = Streams(units: seq<Unit>, last: map<nat, nat>, pending: map<nat, seq<nat>>, hands: seq<Hand>,
                             applied: map<nat, seq<nat>>)

  datatype Step =
    | Stage(queue: nat, write: nat)
    | Submit(queue: nat, after: seq<nat>)
    | Flush(queue: nat)
    | Enqueue(hand: nat)
    | Begin(unit: nat)
    | Work(unit: nat, fails: bool)
    | Signal(unit: nat)
    | Close(unit: nat)

  function At(m: map<nat, seq<nat>>, q: nat): seq<nat> {
    if q in m then m[q] else []
  }

  predicate Settled(s: Streams, q: nat) {
    q !in s.last || (s.last[q] < |s.units| && s.units[s.last[q]].phase == Done)
  }

  /** Every fence of the list has signalled. */
  predicate Heard(units: seq<Unit>, after: seq<nat>) {
    forall v :: v in after ==> v < |units| && units[v].Finished()
  }

  predicate WaitsOver(s: Streams, u: nat)
    requires u < |s.units|
  {
    Heard(s.units, s.units[u].after)
  }

  /** Waiting in order, the unit comes to a fence that failed. */
  predicate WaitFailed(s: Streams, u: nat)
    requires u < |s.units|
  {
    exists k :: 0 <= k < |s.units[u].after| && FailsAt(s.units, s.units[u].after, k)
  }

  predicate FailsAt(units: seq<Unit>, after: seq<nat>, k: nat)
    requires k < |after|
  {
    Heard(units, after[..k + 1]) && after[k] < |units| && units[after[k]].failed
  }

  function Take(s: Streams, q: nat, after: seq<nat>): Streams {
    s.(pending := s.pending[q := []], hands := s.hands + [Hand(q, At(s.pending, q), after)])
  }

  function Chained(s: Streams, h: Hand): Unit {
    Unit(h.queue, h.batch, h.after, if h.queue in s.last then s.last[h.queue] else -1, Queued, false, false)
  }

  function Phased(s: Streams, u: nat, x: Unit): Streams
    requires u < |s.units|
  {
    s.(units := s.units[u := x])
  }

  predicate CanBegin(s: Streams, u: nat)
    requires u < |s.units|
  {
    var p := s.units[u].prev;
    s.units[u].phase == Queued && (p < 0 || (p < |s.units| && s.units[p].phase == Done))
  }

  /** A step that is not enabled changes nothing. */
  function Apply(s: Streams, step: Step): Streams {
    match step
    case Stage(q, w) => s.(pending := s.pending[q := At(s.pending, q) + [w]])
    case Submit(q, after) => if forall v :: v in after ==> v < |s.units| then Take(s, q, after) else s
    case Flush(q) => if At(s.pending, q) == [] && Settled(s, q) then s else Take(s, q, [])
    case Enqueue(k) =>
      if k < |s.hands| then
        var h := s.hands[k];
        s.(units := s.units + [Chained(s, h)], last := s.last[h.queue := |s.units|],
           hands := s.hands[..k] + s.hands[k + 1..])
      else s
    case Begin(u) => if u < |s.units| && CanBegin(s, u) then Phased(s, u, s.units[u].(phase := Begun)) else s
    case Work(u, fails) =>
      if u < |s.units| && s.units[u].phase == Begun && (WaitsOver(s, u) || WaitFailed(s, u)) then
        var x := s.units[u];
        if WaitFailed(s, u) then Phased(s, u, x.(phase := Worked, failed := true))
        else
          Phased(s, u, x.(phase := Worked, failed := fails, delivered := true))
          .(applied := s.applied[x.queue := At(s.applied, x.queue) + x.batch])
      else s
    case Signal(u) =>
      if u < |s.units| && s.units[u].phase == Worked then Phased(s, u, s.units[u].(phase := Signalled)) else s
    case Close(u) =>
      if u < |s.units| && s.units[u].phase == Signalled then Phased(s, u, s.units[u].(phase := Done)) else s
  }

  function RunSteps(s: Streams, steps: seq<Step>): Streams {
    if steps == [] then s else Apply(RunSteps(s, steps[..|steps| - 1]), steps[|steps| - 1])
  }

  function Start(): Streams {
    Streams([], map[], map[], [], map[])
  }

  // ---- what every interleaving keeps ----

  /** p is the last unit of queue q below n, or -1. */
  ghost predicate LastBelow(units: seq<Unit>, q: nat, n: nat, p: int)
    requires n <= |units|
  {
    && -1 <= p < n && (p >= 0 ==> units[p].queue == q)
    && (forall v: nat :: p < v < n ==> units[v].queue != q)
  }

  /** The writes of the delivered units of queue q among the first n, in order. */
  ghost function DeliveredBelow(units: seq<Unit>, q: nat, n: nat): seq<nat>
    requires n <= |units|
  {
    if n == 0 then []
    else
      DeliveredBelow(units, q, n - 1) + (if units[n - 1].queue == q && units[n - 1].delivered then units[n - 1].batch
                                         else [])
  }

  ghost predicate NoneFailed(units: seq<Unit>, after: seq<nat>) {
    forall v :: v in after ==> v < |units| && !units[v].failed
  }

  /** Some fence of the list has signalled a failure. */
  ghost predicate SomeFailed(units: seq<Unit>, after: seq<nat>) {
    exists v :: v in after && v < |units| && units[v].Finished() && units[v].failed
  }

  ghost predicate UnitOk(s: Streams, u: nat)
    requires u < |s.units|
  {
    var x := s.units[u];
    && LastBelow(s.units, x.queue, u, x.prev)
    && (forall v :: v in x.after ==> v < u)
    && (x.delivered ==> Heard(s.units, x.after) && NoneFailed(s.units, x.after))
    && (!x.delivered && x.phase != Queued && x.phase != Begun ==> SomeFailed(s.units, x.after))
    && (x.phase != Queued && x.prev >= 0 ==> s.units[x.prev].phase == Done)
    && (x.delivered ==> x.phase != Queued && x.phase != Begun)
    && (x.after == [] && x.phase != Queued && x.phase != Begun ==> x.delivered)
    && (!x.delivered && x.phase != Queued && x.phase != Begun ==> x.failed)
  }

  ghost predicate QueueOk(s: Streams, q: nat) {
    && LastBelow(s.units, q, |s.units|, if q in s.last then s.last[q] else -1)
    && At(s.applied, q) == DeliveredBelow(s.units, q, |s.units|)
  }

  ghost predicate HandOk(s: Streams, k: nat)
    requires k < |s.hands|
  {
    forall v :: v in s.hands[k].after ==> v < |s.units|
  }

  ghost predicate Invariant(s: Streams) {
    && (forall u: nat :: u < |s.units| ==> UnitOk(s, u))
    && (forall q: nat :: QueueOk(s, q))
    && (forall k: nat :: k < |s.hands| ==> HandOk(s, k))
  }

  lemma {:induction false} DeliveredSame(a: seq<Unit>, b: seq<Unit>, q: nat, n: nat)
    requires n <= |a| && n <= |b|
    requires forall v :: 0 <= v < n ==>
             a[v].queue == b[v].queue && a[v].batch == b[v].batch && a[v].delivered == b[v].delivered
    ensures DeliveredBelow(a, q, n) == DeliveredBelow(b, q, n)
  {
    if n > 0 {
      DeliveredSame(a, b, q, n - 1);
    }
  }

  /** Once a unit has begun, every earlier unit of its queue is done. */
  lemma {:induction false} EarlierDone(s: Streams, v: nat, u: nat)
    requires Invariant(s) && v < u < |s.units| && s.units[v].queue == s.units[u].queue && s.units[u].phase != Queued
    ensures s.units[v].phase == Done
    decreases u
  {
    assert UnitOk(s, u);
    var p := s.units[u].prev;
    assert p >= v;
    if p != v {
      EarlierDone(s, v, p);
    }
  }

  /** Units of the same queue after one that is not done have not begun. */
  lemma LaterQueued(s: Streams, u: nat, w: nat)
    requires Invariant(s) && u < w < |s.units| && s.units[u].queue == s.units[w].queue && s.units[u].phase != Done
    ensures s.units[w].phase == Queued && !s.units[w].delivered
  {
    if s.units[w].phase != Queued {
      EarlierDone(s, u, w);
    }
    assert UnitOk(s, w);
  }

  lemma {:induction false} DeliveredUpTo(units: seq<Unit>, q: nat, u: nat, n: nat)
    requires u <= n <= |units| && forall w :: u <= w < n && units[w].queue == q ==> !units[w].delivered
    ensures DeliveredBelow(units, q, n) == DeliveredBelow(units, q, u)
  {
    if u < n {
      DeliveredUpTo(units, q, u, n - 1);
    }
  }

  /** Units keep what they are and only move on. */
  ghost predicate MovesOn(a: seq<Unit>, b: seq<Unit>) {
    && |a| <= |b|
    && forall v: nat :: v < |a| ==> UnitMoves(a, b, v)
  }

  ghost predicate UnitMoves(a: seq<Unit>, b: seq<Unit>, v: nat)
    requires v < |a| <= |b|
  {
    && b[v].queue == a[v].queue && b[v].batch == a[v].batch && b[v].after == a[v].after && b[v].prev == a[v].prev
    && (a[v].Finished() ==> b[v].Finished() && b[v].failed == a[v].failed)
    && (a[v].phase == Done ==> b[v].phase == Done)
  }

  /** A unit nothing happened to is still in order. */
  lemma UnitKept(s: Streams, t: Streams, v: nat)
    requires MovesOn(s.units, t.units) && v < |s.units| && UnitOk(s, v) && t.units[v] == s.units[v]
    ensures UnitOk(t, v)
  {
    var x := s.units[v];
    assert UnitMoves(s.units, t.units, v);
    forall w: nat | x.prev < w < v
      ensures t.units[w].queue != x.queue
    {
      assert UnitMoves(s.units, t.units, w);
    }
    if x.prev >= 0 {
      assert UnitMoves(s.units, t.units, x.prev);
    }
    forall w | w in x.after && w < |s.units| && s.units[w].Finished()
      ensures t.units[w].Finished() && t.units[w].failed == s.units[w].failed
    {
      assert UnitMoves(s.units, t.units, w);
    }
  }

  /** A phase change that delivers nothing, made when the phase before allowed it. */
  lemma PhaseKeeps(s: Streams, u: nat, x: Unit)
    requires Invariant(s) && u < |s.units|
    requires var y := s.units[u];
             && x.queue == y.queue && x.batch == y.batch && x.after == y.after && x.prev == y.prev
             && x.delivered == y.delivered && (y.phase == Done ==> x.phase == Done)
             && (y.Finished() ==> x.Finished() && x.failed == y.failed)
    requires UnitOk(Phased(s, u, x), u)
    ensures Invariant(Phased(s, u, x))
  {
    var t := Phased(s, u, x);
    forall v: nat | v < |t.units|
      ensures UnitOk(t, v)
    {
      assert UnitOk(s, v);
      if v != u {
        UnitKept(s, t, v);
      }
    }
    forall q: nat
      ensures QueueOk(t, q)
    {
      assert QueueOk(s, q);
      DeliveredSame(s.units, t.units, q, |s.units|);
    }
    forall k: nat | k < |t.hands|
      ensures HandOk(t, k)
    {
      assert HandOk(s, k);
    }
  }

  lemma HeardUpTo(units: seq<Unit>, after: seq<nat>, k: nat)
    requires k < |after| && Heard(units, after)
    ensures Heard(units, after[..k + 1])
  {
    var upTo := after[..k + 1];
    assert forall j :: 0 <= j < |upTo| ==> upTo[j] == after[j] && after[j] in after;
    assert forall v :: v in upTo ==> v in after;
    assert Heard(units, upTo);
  }

  /** A wait in order ends at the first failed fence, if any failed, and otherwise after the last one. */
  lemma WaitMeans(s: Streams, u: nat)
    requires u < |s.units|
    ensures WaitFailed(s, u) ==> SomeFailed(s.units, s.units[u].after)
    ensures WaitsOver(s, u) && !WaitFailed(s, u) ==> NoneFailed(s.units, s.units[u].after)
  {
    var after := s.units[u].after;
    if WaitFailed(s, u) {
      var k: nat :| k < |after| && FailsAt(s.units, after, k);
      assert after[k] in after[..k + 1];
    } else if WaitsOver(s, u) {
      forall v | v in after
        ensures v < |s.units| && !s.units[v].failed
      {
        var k :| 0 <= k < |after| && after[k] == v;
        HeardUpTo(s.units, after, k);
        assert !FailsAt(s.units, after, k);
      }
    }
  }

  lemma FailKeeps(s: Streams, u: nat, fails: bool)
    requires Invariant(s) && u < |s.units| && s.units[u].phase == Begun && WaitFailed(s, u)
    ensures Invariant(Apply(s, Work(u, fails)))
  {
    var x := s.units[u].(phase := Worked, failed := true);
    var t := Phased(s, u, x);
    assert UnitOk(s, u);
    WaitMeans(s, u);
    assert forall v :: v in s.units[u].after ==> t.units[v] == s.units[v];
    PhaseKeeps(s, u, x);
  }

  lemma WorkKeeps(s: Streams, u: nat, fails: bool)
    requires Invariant(s)
    ensures Invariant(Apply(s, Work(u, fails)))
  {
    var t := Apply(s, Work(u, fails));
    if u < |s.units| && s.units[u].phase == Begun && WaitFailed(s, u) {
      FailKeeps(s, u, fails);
    } else if Delivers(s, u) {
      forall v: nat | v < |t.units|
        ensures UnitOk(t, v)
      {
        DeliverUnit(s, u, fails, v);
      }
      forall q: nat
        ensures QueueOk(t, q)
      {
        DeliverQueue(s, u, fails, q);
      }
      forall k: nat | k < |t.hands|
        ensures HandOk(t, k)
      {
        assert HandOk(s, k);
      }
    }
  }

  ghost predicate Delivers(s: Streams, u: nat) {
    u < |s.units| && s.units[u].phase == Begun && WaitsOver(s, u) && !WaitFailed(s, u)
  }

  lemma DeliverUnit(s: Streams, u: nat, fails: bool, v: nat)
    requires Invariant(s) && Delivers(s, u) && v < |s.units|
    ensures UnitOk(Apply(s, Work(u, fails)), v)
  {
    var t := Apply(s, Work(u, fails));
    assert UnitOk(s, v) && UnitOk(s, u);
    if v != u {
      UnitKept(s, t, v);
    } else {
      WaitMeans(s, u);
      assert forall w :: w in s.units[u].after ==> t.units[w] == s.units[w];
    }
  }

  lemma DeliverQueue(s: Streams, u: nat, fails: bool, q: nat)
    requires Invariant(s) && Delivers(s, u)
    ensures QueueOk(Apply(s, Work(u, fails)), q)
  {
    assert QueueOk(s, q);
    DeliverStep(s, Apply(s, Work(u, fails)), u, q);
  }

  /** Delivering unit u appends its batch to its own queue's log and to no other. */
  lemma DeliverStep(s: Streams, t: Streams, u: nat, q: nat)
    requires Invariant(s) && u < |s.units| && s.units[u].phase == Begun
    requires |t.units| == |s.units| && t.units == s.units[u := t.units[u]]
    requires t.units[u].queue == s.units[u].queue && t.units[u].batch == s.units[u].batch && t.units[u].delivered
    ensures DeliveredBelow(t.units, q, |t.units|) ==
            DeliveredBelow(s.units, q, |s.units|) + (if q == s.units[u].queue then s.units[u].batch else [])
  {
    var n := |s.units|;
    assert UnitOk(s, u);
    DeliveredSame(s.units, t.units, q, u);
    if q == s.units[u].queue {
      forall w | u < w < n && s.units[w].queue == q
        ensures !s.units[w].delivered && !t.units[w].delivered
      {
        LaterQueued(s, u, w);
      }
      DeliveredUpTo(s.units, q, u, n);
      DeliveredUpTo(t.units, q, u + 1, n);
    } else {
      DeliveredOther(s.units, t.units, q, u, n);
    }
  }

  lemma {:induction false} DeliveredOther(a: seq<Unit>, b: seq<Unit>, q: nat, u: nat, n: nat)
    requires n <= |a| == |b| && u < |a| && b == a[u := b[u]] && a[u].queue != q && b[u].queue != q
    ensures DeliveredBelow(a, q, n) == DeliveredBelow(b, q, n)
  {
    if n > 0 {
      DeliveredOther(a, b, q, u, n - 1);
    }
  }

  lemma EnqueueUnit(s: Streams, t: Streams, h: Hand, v: nat)
    requires Invariant(s) && t.units == s.units + [Chained(s, h)] && v < |t.units|
    requires forall w :: w in h.after ==> w < |s.units|
    ensures UnitOk(t, v)
  {
    var n := |s.units|;
    if v < n {
      assert UnitOk(s, v);
      forall w: nat | w < n
        ensures UnitMoves(s.units, t.units, w)
      {
        assert t.units[w] == s.units[w];
      }
      UnitKept(s, t, v);
    } else {
      assert QueueOk(s, h.queue);
      assert t.units[n] == Chained(s, h);
      assert forall w: nat :: w < n ==> t.units[w] == s.units[w];
    }
  }

  lemma EnqueueQueue(s: Streams, t: Streams, h: Hand, q: nat)
    requires Invariant(s) && t.units == s.units + [Chained(s, h)] && t.applied == s.applied
    requires t.last == s.last[h.queue := |s.units|]
    ensures QueueOk(t, q)
  {
    var n := |s.units|;
    assert QueueOk(s, q);
    assert t.units[n] == Chained(s, h) && forall w: nat :: w < n ==> t.units[w] == s.units[w];
    DeliveredSame(s.units, t.units, q, n);
    assert DeliveredBelow(t.units, q, n + 1) == DeliveredBelow(t.units, q, n) + [];
  }

  lemma EnqueueKeeps(s: Streams, k: nat)
    requires Invariant(s)
    ensures Invariant(Apply(s, Enqueue(k)))
  {
    var t := Apply(s, Enqueue(k));
    if k < |s.hands| {
      var h := s.hands[k];
      assert HandOk(s, k);
      forall v: nat | v < |t.units|
        ensures UnitOk(t, v)
      {
        EnqueueUnit(s, t, h, v);
      }
      forall q: nat
        ensures QueueOk(t, q)
      {
        EnqueueQueue(s, t, h, q);
      }
      EnqueueHands(s, t, k);
    }
  }

  lemma EnqueueHands(s: Streams, t: Streams, k: nat)
    requires Invariant(s) && k < |s.hands| && t.hands == s.hands[..k] + s.hands[k + 1..] && |s.units| <= |t.units|
    ensures forall j: nat :: j < |t.hands| ==> HandOk(t, j)
  {
    forall j: nat | j < |t.hands|
      ensures HandOk(t, j)
    {
      var i := if j < k then j else j + 1;
      assert t.hands[j] == s.hands[i] && HandOk(s, i);
    }
  }

  lemma TakeKeeps(s: Streams, q: nat, after: seq<nat>)
    requires Invariant(s) && forall v :: v in after ==> v < |s.units|
    ensures Invariant(Take(s, q, after))
  {
    var t := Take(s, q, after);
    forall u: nat | u < |t.units|
      ensures UnitOk(t, u)
    {
      assert UnitOk(s, u);
      UnitKept(s, t, u);
    }
    forall p: nat
      ensures QueueOk(t, p)
    {
      assert QueueOk(s, p);
    }
    forall k: nat | k < |t.hands|
      ensures HandOk(t, k)
    {
      assert k < |s.hands| ==> HandOk(s, k);
    }
  }

  lemma StageKeeps(s: Streams, q: nat, w: nat)
    requires Invariant(s)
    ensures Invariant(Apply(s, Stage(q, w)))
  {
    var t := Apply(s, Stage(q, w));
    forall u: nat | u < |t.units|
      ensures UnitOk(t, u)
    {
      assert UnitOk(s, u);
      UnitKept(s, t, u);
    }
    forall p: nat
      ensures QueueOk(t, p)
    {
      assert QueueOk(s, p);
    }
    forall k: nat | k < |t.hands|
      ensures HandOk(t, k)
    {
      assert HandOk(s, k);
    }
  }

  lemma StepKeeps(s: Streams, step: Step)
    requires Invariant(s)
    ensures Invariant(Apply(s, step))
  {
    var t := Apply(s, step);
    match step
    case Stage(q, w) => StageKeeps(s, q, w);
    case Submit(q, after) => if t != s { TakeKeeps(s, q, after); }
    case Flush(q) => if t != s { TakeKeeps(s, q, []); }
    case Enqueue(k) => EnqueueKeeps(s, k);
    case Work(u, fails) => WorkKeeps(s, u, fails);
    case Begin(u) => MoveKeeps(s, step, u);
    case Signal(u) => MoveKeeps(s, step, u);
    case Close(u) => MoveKeeps(s, step, u);
  }

  lemma MoveKeeps(s: Streams, step: Step, u: nat)
    requires Invariant(s) && (step == Begin(u) || step == Signal(u) || step == Close(u))
    ensures Invariant(Apply(s, step))
  {
    var t := Apply(s, step);
    if t != s {
      assert UnitOk(s, u);
      PhaseKeeps(s, u, t.units[u]);
    }
  }

  lemma {:induction false} RunKeeps(steps: seq<Step>)
    ensures Invariant(RunSteps(Start(), steps))
  {
    if steps == [] {
      assert RunSteps(Start(), steps) == Start();
    } else {
      RunKeeps(steps[..|steps| - 1]);
      StepKeeps(RunSteps(Start(), steps[..|steps| - 1]), steps[|steps| - 1]);
    }
  }

  // ---- the promises ----

  /** One unit of a queue at a time, in the order they were put on it: whatever has begun, all before it
      on its queue is done, and all after it has not begun unless it is done itself. */
  lemma OneAtATime(steps: seq<Step>, v: nat, u: nat)
    requires var s := RunSteps(Start(), steps); v < u < |s.units| && s.units[v].queue == s.units[u].queue
    ensures var s := RunSteps(Start(), steps); s.units[v].phase == Done || s.units[u].phase == Queued
  {
    RunKeeps(steps);
    var s := RunSteps(Start(), steps);
    if s.units[u].phase != Queued {
      EarlierDone(s, v, u);
    }
  }

  /** A signalled fence: its unit has done its work, and so has every earlier unit of its queue. A unit
      that waited for no fence has applied its writes; one that did has applied them or failed. */
  lemma FencePromise(steps: seq<Step>, u: nat)
    requires var s := RunSteps(Start(), steps); u < |s.units| && s.units[u].Finished()
    ensures var s := RunSteps(Start(), steps);
            && (forall v: nat :: v < u && s.units[v].queue == s.units[u].queue ==> s.units[v].phase == Done)
            && (s.units[u].after == [] ==> s.units[u].delivered) && (!s.units[u].delivered ==> s.units[u].failed)
            && (s.units[u].delivered ==> forall v :: v in s.units[u].after ==> v < u && s.units[v].Finished())
            && (s.units[u].delivered <==> forall v :: v in s.units[u].after ==> v < u && !s.units[v].failed)
  {
    RunKeeps(steps);
    var s := RunSteps(Start(), steps);
    assert UnitOk(s, u);
    forall v: nat | v < u && s.units[v].queue == s.units[u].queue
      ensures s.units[v].phase == Done
    {
      EarlierDone(s, v, u);
    }
  }

  /** The last unit of a queue is done exactly when every unit of it is. */
  lemma SettledMeans(s: Streams, q: nat)
    requires Invariant(s)
    ensures Settled(s, q) <==> forall u: nat :: u < |s.units| && s.units[u].queue == q ==> s.units[u].phase == Done
  {
    assert QueueOk(s, q);
    if Settled(s, q) && q in s.last {
      forall u: nat | u < |s.units| && s.units[u].queue == q
        ensures s.units[u].phase == Done
      {
        if u < s.last[q] {
          EarlierDone(s, u, s.last[q]);
        }
      }
    }
  }

  /** Flushing does nothing exactly when nothing is staged and every unit of the queue is done, which is when
      the signalled fence it then returns tells the truth. */
  lemma FlushPromise(steps: seq<Step>, q: nat)
    ensures var s := RunSteps(Start(), steps);
            Apply(s, Flush(q)) == s <==>
            && At(s.pending, q) == []
            && forall u: nat :: u < |s.units| && s.units[u].queue == q ==> s.units[u].phase == Done
  {
    RunKeeps(steps);
    var s := RunSteps(Start(), steps);
    SettledMeans(s, q);
    assert |Take(s, q, []).hands| == |s.hands| + 1;
  }

  ghost predicate SignalledAlready(s: Streams, v: nat) {
    v < |s.units| && (s.units[v].phase == Signalled || s.units[v].phase == Done)
  }

  /** The k-th fence of the list has failed, and it and those before it have signalled. */
  ghost predicate FirstFailure(s: Streams, after: seq<nat>, k: nat)
    requires k < |after|
  {
    (forall j :: 0 <= j <= k ==> SignalledAlready(s, after[j])) && s.units[after[k]].failed
  }

  lemma FailsExactly(s: Streams, after: seq<nat>, k: nat)
    requires k < |after|
    ensures FailsAt(s.units, after, k) <==> FirstFailure(s, after, k)
  {
    var upTo := after[..k + 1];
    assert forall j :: 0 <= j <= k ==> upTo[j] == after[j];
    if forall j :: 0 <= j <= k ==> SignalledAlready(s, after[j]) {
      forall v | v in upTo
        ensures v < |s.units| && s.units[v].Finished()
      {
        var j :| 0 <= j < |upTo| && upTo[j] == v;
        assert SignalledAlready(s, after[j]);
      }
    }
    if Heard(s.units, upTo) {
      forall j | 0 <= j <= k
        ensures SignalledAlready(s, after[j])
      {
        assert upTo[j] in upTo;
      }
    }
  }

  /** A begun unit is released as soon as every fence it waits for has signalled, whether or not their queues
      have moved on, or a failed one has and those listed before it. */
  lemma ReleasedExactly(s: Streams, u: nat, fails: bool)
    requires u < |s.units| && s.units[u].phase == Begun
    ensures var after := s.units[u].after;
            Enabled(s, Work(u, fails)) <==>
            || (forall v :: v in after ==> SignalledAlready(s, v))
            || (exists k: nat :: k < |after| && FirstFailure(s, after, k))
  {
    var after := s.units[u].after;
    forall k: nat | k < |after|
      ensures FailsAt(s.units, after, k) <==> FirstFailure(s, after, k)
    {
      FailsExactly(s, after, k);
    }
    WorkEnabled(s, u, fails);
  }

  lemma WorkEnabled(s: Streams, u: nat, fails: bool)
    requires u < |s.units| && s.units[u].phase == Begun
    ensures Enabled(s, Work(u, fails)) <==> WaitsOver(s, u) || WaitFailed(s, u)
  {
    if WaitsOver(s, u) || WaitFailed(s, u) {
      assert Apply(s, Work(u, fails)).units[u].phase == Worked;
    }
  }

  ghost predicate PastWork(s: Streams, u: nat) {
    u < |s.units| && s.units[u].phase != Queued && s.units[u].phase != Begun
  }

  lemma OutcomeStep(s: Streams, step: Step, u: nat)
    requires PastWork(Apply(s, step), u)
    ensures var x := Apply(s, step).units[u];
            if PastWork(s, u) then x.delivered == s.units[u].delivered && x.failed == s.units[u].failed
            else step.Work? && step.unit == u && if x.delivered then x.failed == step.fails || s.units[u].delivered
                 else x.failed
  {
    match step
    case Stage(q, w) =>
    case Submit(q, after) =>
    case Flush(q) =>
    case Enqueue(k) =>
    case Begin(v) =>
    case Work(v, fails) =>
    case Signal(v) =>
    case Close(v) =>
  }

  /** How a unit ended was said by the step that worked it: it did its work and that failed or not, unless a
      fence it waited for had failed. */
  lemma {:induction false} OutcomeSaid(steps: seq<Step>, u: nat)
    requires PastWork(RunSteps(Start(), steps), u)
    ensures var x := RunSteps(Start(), steps).units[u];
            if x.delivered then Work(u, x.failed) in steps
            else x.failed && (Work(u, true) in steps || Work(u, false) in steps)
  {
    if steps != [] {
      var init, step := steps[..|steps| - 1], steps[|steps| - 1];
      var s := RunSteps(Start(), init);
      RunKeeps(init);
      OutcomeStep(s, step, u);
      if PastWork(s, u) {
        OutcomeSaid(init, u);
        assert forall a :: a in init ==> a in steps;
      } else {
        assert UnitOk(s, u);
      }
    }
  }

  /** Host writes reach the device in queue order: exactly the batches of the delivered units. */
  lemma WritesInOrder(steps: seq<Step>, q: nat)
    ensures var s := RunSteps(Start(), steps); At(s.applied, q) == DeliveredBelow(s.units, q, |s.units|)
  {
    RunKeeps(steps);
    assert QueueOk(RunSteps(Start(), steps), q);
  }

  ghost predicate Enabled(s: Streams, step: Step) {
    (step.Begin? || step.Work? || step.Signal? || step.Close?) && Apply(s, step) != s
  }

  /** No deadlock, with any fences between any queues: while some unit is not done, some unit can move. */
  lemma NoDeadlock(steps: seq<Step>, u: nat) returns (next: Step)
    requires var s := RunSteps(Start(), steps); u < |s.units| && s.units[u].phase != Done
    ensures Enabled(RunSteps(Start(), steps), next)
  {
    RunKeeps(steps);
    var s := RunSteps(Start(), steps);
    var v := FirstUndone(s, u);
    next := FirstCanMove(s, v);
  }

  /** Everything the first undone unit waits for was enqueued before it, and so is done. */
  lemma FirstCanMove(s: Streams, v: nat) returns (next: Step)
    requires Invariant(s) && v < |s.units| && s.units[v].phase != Done
    requires forall w :: 0 <= w < v ==> s.units[w].phase == Done
    ensures Enabled(s, next)
  {
    assert UnitOk(s, v);
    next := match s.units[v].phase
      case Queued => Begin(v)
      case Begun => Work(v, false)
      case Worked => Signal(v)
      case _ => Close(v);
    assert Apply(s, next).units[v] != s.units[v];
  }

  lemma {:induction false} FirstUndone(s: Streams, u: nat) returns (v: nat)
    requires u < |s.units| && s.units[u].phase != Done
    ensures v <= u && s.units[v].phase != Done && forall w :: 0 <= w < v ==> s.units[w].phase == Done
  {
    if w: nat :| w < u && s.units[w].phase != Done {
      v := FirstUndone(s, w);
    } else {
      v := u;
    }
  }

  /** How many moves the units still have to make. */
  ghost function Remaining(units: seq<Unit>): nat {
    if units == [] then 0
    else
      Remaining(units[..|units| - 1]) +
      match units[|units| - 1].phase
      case Queued => 4 case Begun => 3 case Worked => 2 case Signalled => 1 case Done => 0
  }

  /** Every move brings the end nearer, so with no deadlock everything enqueued is eventually done. */
  lemma MovesEnd(s: Streams, step: Step)
    requires Enabled(s, step)
    ensures Remaining(Apply(s, step).units) == Remaining(s.units) - 1
  {
    var u := step.unit;
    RemainingAt(s.units, u, Apply(s, step).units[u]);
  }

  lemma {:induction false} RemainingAt(units: seq<Unit>, u: nat, x: Unit)
    requires u < |units|
    requires match units[u].phase
             case Queued => x.phase == Begun case Begun => x.phase == Worked case Worked => x.phase == Signalled
             case Signalled => x.phase == Done case Done => false
    ensures Remaining(units[u := x]) == Remaining(units) - 1
  {
    var n := |units| - 1;
    if u == n {
      assert units[u := x][..n] == units[..n];
    } else {
      assert units[u := x][..n] == units[..n][u := x];
      RemainingAt(units[..n], u, x);
    }
  }
}
