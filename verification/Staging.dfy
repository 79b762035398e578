/** Host writes between the call that stages them and the unit that applies them. */
module Staging {
  import opened Streams

  /** The writes staged on queue q, as the steps name them, in order. */
  ghost function Staged(steps: seq<Step>, q: nat): seq<nat> {
    if steps == [] then []
    else
      var last := steps[|steps| - 1];
      Staged(steps[..|steps| - 1], q) + (if last.Stage? && last.queue == q then [last.write] else [])
  }

  /** What a unit was enqueued with. */
  ghost function Carried(u: Unit): Hand {
    Hand(u.queue, u.batch, u.after)
  }

  ghost function AllCarried(units: seq<Unit>): (r: seq<Hand>)
    ensures |r| == |units| && forall i :: 0 <= i < |r| ==> r[i] == Carried(units[i])
  {
    seq(|units|, i requires 0 <= i < |units| => Carried(units[i]))
  }

  /** The batches of queue q, end to end. */
  ghost function Writes(taken: seq<Hand>, q: nat): seq<nat> {
    if taken == [] then []
    else
      var last := taken[|taken| - 1];
      Writes(taken[..|taken| - 1], q) + (if last.queue == q then last.batch else [])
  }

  /** A submission or a flush of this queue asked for it, with these fences to wait for. */
  ghost predicate AskedFor(steps: seq<Step>, h: Hand) {
    Submit(h.queue, h.after) in steps || (h.after == [] && Flush(h.queue) in steps)
  }

  // ---- one step ----

  lemma WritesMore(taken: seq<Hand>, h: Hand, q: nat)
    ensures Writes(taken + [h], q) == Writes(taken, q) + (if h.queue == q then h.batch else [])
  {
    assert (taken + [h])[..|taken|] == taken;
  }

  lemma CarriedMore(units: seq<Unit>, u: Unit)
    ensures AllCarried(units + [u]) == AllCarried(units) + [Carried(u)]
  {
  }

  /** What a step takes off a queue's staged writes, if anything. */
  ghost predicate Takes(s: Streams, step: Step) {
    || (step.Submit? && forall v :: v in step.after ==> v < |s.units|)
    || (step.Flush? && !(At(s.pending, step.queue) == [] && Settled(s, step.queue)))
  }

  /** The batch a taking step takes: everything staged on its queue. */
  ghost function TakenBy(s: Streams, step: Step): Hand
    requires Takes(s, step)
  {
    Hand(step.queue, At(s.pending, step.queue), if step.Submit? then step.after else [])
  }

  lemma TakeMoves(s: Streams, step: Step)
    requires Takes(s, step)
    ensures var t := Apply(s, step);
            && t.hands == s.hands + [TakenBy(s, step)] && t.units == s.units
            && forall q: nat :: At(t.pending, q) == if q == step.queue then [] else At(s.pending, q)
  {
  }

  lemma EnqueueMoves(s: Streams, k: nat)
    requires k < |s.hands|
    ensures var t := Apply(s, Enqueue(k));
            && t.hands == s.hands[..k] + s.hands[k + 1..] && t.pending == s.pending
            && AllCarried(t.units) == AllCarried(s.units) + [s.hands[k]]
  {
    CarriedMore(s.units, Chained(s, s.hands[k]));
  }

  lemma OtherMoves(s: Streams, step: Step)
    requires !Takes(s, step) && !(step.Enqueue? && step.hand < |s.hands|)
    ensures var t := Apply(s, step);
            && t.hands == s.hands && AllCarried(t.units) == AllCarried(s.units)
            && forall q: nat :: At(t.pending, q) ==
                 At(s.pending, q) + (if step.Stage? && step.queue == q then [step.write] else [])
  {
    match step
    case Stage(q, w) =>
    case Submit(q, after) =>
    case Flush(q) =>
    case Enqueue(k) =>
    case Begin(v) =>
    case Work(v, fails) =>
    case Signal(v) =>
    case Close(v) =>
  }

  // ---- conservation ----

  /** What was staged on q is what was taken, in order, and then what is pending. */
  ghost predicate StagedIs(staged: seq<nat>, pending: seq<nat>, taken: seq<Hand>, q: nat) {
    Writes(taken, q) + pending == staged
  }

  /** The batches taken so far, in the order they were taken. */
  ghost predicate Accounts(steps: seq<Step>, taken: seq<Hand>) {
    var s := RunSteps(Start(), steps);
    && multiset(taken) == multiset(AllCarried(s.units)) + multiset(s.hands)
    && (forall q: nat :: StagedIs(Staged(steps, q), At(s.pending, q), taken, q))
    && (forall h :: h in taken ==> AskedFor(steps, h))
  }

  /** Nothing staged is lost, repeated or reordered before it is taken: the batches taken, in the order they
      were taken, and then what is still pending, are exactly what was staged; and the batches taken are
      exactly those that callers hold and units carry, each with the fences its call named. */
  lemma {:induction false} Conserved(steps: seq<Step>) returns (taken: seq<Hand>)
    ensures Accounts(steps, taken)
  {
    taken := [];
    if steps != [] {
      var init, step := steps[..|steps| - 1], steps[|steps| - 1];
      var s := RunSteps(Start(), init);
      taken := Conserved(init);
      assert init + [step] == steps;
      if Takes(s, step) {
        TakeAccounts(init, step, taken);
        taken := taken + [TakenBy(s, step)];
      } else if step.Enqueue? && step.hand < |s.hands| {
        EnqueueAccounts(init, step.hand, taken);
      } else {
        OtherAccounts(init, step, taken);
      }
    }
  }

  lemma StagedMore(steps: seq<Step>, step: Step, q: nat)
    ensures RunSteps(Start(), steps + [step]) == Apply(RunSteps(Start(), steps), step)
    ensures Staged(steps + [step], q) ==
            Staged(steps, q) + (if step.Stage? && step.queue == q then [step.write] else [])
  {
    assert (steps + [step])[..|steps|] == steps;
  }

  lemma StillAskedFor(steps: seq<Step>, step: Step, taken: seq<Hand>)
    requires forall h :: h in taken ==> AskedFor(steps, h)
    ensures forall h :: h in taken ==> AskedFor(steps + [step], h)
  {
  }

  /** Taking a queue's staged writes moves them from what is pending to what was taken. */
  lemma TakeStaged(staged: seq<nat>, pending: seq<nat>, taken: seq<Hand>, h: Hand, q: nat)
    requires StagedIs(staged, pending, taken, q) && (h.queue == q ==> h.batch == pending)
    ensures StagedIs(staged, if h.queue == q then [] else pending, taken + [h], q)
  {
    WritesMore(taken, h, q);
  }

  lemma TakeAccounts(steps: seq<Step>, step: Step, taken: seq<Hand>)
    requires Accounts(steps, taken) && Takes(RunSteps(Start(), steps), step)
    ensures Accounts(steps + [step], taken + [TakenBy(RunSteps(Start(), steps), step)])
  {
    var s := RunSteps(Start(), steps);
    var h := TakenBy(s, step);
    TakeMoves(s, step);
    StagedMore(steps, step, 0);
    StillAskedFor(steps, step, taken);
    assert AskedFor(steps + [step], h);
    forall q: nat
      ensures StagedIs(Staged(steps + [step], q), At(Apply(s, step).pending, q), taken + [h], q)
    {
      StagedMore(steps, step, q);
      TakeStaged(Staged(steps, q), At(s.pending, q), taken, h, q);
    }
  }

  lemma EnqueueHolds(carried: seq<Hand>, hands: seq<Hand>, k: nat)
    requires k < |hands|
    ensures multiset(carried + [hands[k]]) + multiset(hands[..k] + hands[k + 1..]) ==
            multiset(carried) + multiset(hands)
  {
    var left, h, right := hands[..k], hands[k], hands[k + 1..];
    Around(hands, k);
    assert multiset(left + [h] + right) == multiset(left) + multiset{h} + multiset(right);
  }

  lemma EnqueueAccounts(steps: seq<Step>, k: nat, taken: seq<Hand>)
    requires Accounts(steps, taken) && k < |RunSteps(Start(), steps).hands|
    ensures Accounts(steps + [Enqueue(k)], taken)
  {
    var s := RunSteps(Start(), steps);
    EnqueueMoves(s, k);
    StagedMore(steps, Enqueue(k), 0);
    StillAskedFor(steps, Enqueue(k), taken);
    EnqueueHolds(AllCarried(s.units), s.hands, k);
    forall q: nat
      ensures StagedIs(Staged(steps + [Enqueue(k)], q), At(Apply(s, Enqueue(k)).pending, q), taken, q)
    {
      StagedMore(steps, Enqueue(k), q);
      assert StagedIs(Staged(steps, q), At(s.pending, q), taken, q);
    }
  }

  lemma StageStaged(staged: seq<nat>, pending: seq<nat>, taken: seq<Hand>, more: seq<nat>, q: nat)
    requires StagedIs(staged, pending, taken, q)
    ensures StagedIs(staged + more, pending + more, taken, q)
  {
  }

  lemma OtherAccounts(steps: seq<Step>, step: Step, taken: seq<Hand>)
    requires Accounts(steps, taken)
    requires var s := RunSteps(Start(), steps); !Takes(s, step) && !(step.Enqueue? && step.hand < |s.hands|)
    ensures Accounts(steps + [step], taken)
  {
    var s := RunSteps(Start(), steps);
    OtherMoves(s, step);
    StagedMore(steps, step, 0);
    StillAskedFor(steps, step, taken);
    forall q: nat
      ensures StagedIs(Staged(steps + [step], q), At(Apply(s, step).pending, q), taken, q)
    {
      var more := if step.Stage? && step.queue == q then [step.write] else [];
      StagedMore(steps, step, q);
      StageStaged(Staged(steps, q), At(s.pending, q), taken, more, q);
    }
  }

  lemma Around(s: seq<Hand>, k: nat)
    requires k < |s|
    ensures s == s[..k] + [s[k]] + s[k + 1..]
  {
  }

  // ---- what it says of the writes ----

  lemma {:induction false} WritesSplit(a: seq<Hand>, b: seq<Hand>, q: nat)
    ensures Writes(a + b, q) == Writes(a, q) + Writes(b, q)
  {
    if b == [] {
      assert a + b == a;
    } else {
      var n := |b| - 1;
      assert (a + b)[..|a + b| - 1] == a + b[..n];
      WritesSplit(a, b[..n], q);
    }
  }

  lemma WithoutWrites(a: seq<Hand>, h: Hand, c: seq<Hand>, q: nat)
    ensures multiset(Writes(a + [h] + c, q)) ==
            multiset(Writes(a + c, q)) + multiset(if h.queue == q then h.batch else [])
  {
    WritesSplit(a, c, q);
    WritesSplit(a + [h], c, q);
    WritesMore(a, h, q);
  }

  lemma SameRest(init: seq<Hand>, h: Hand, left: seq<Hand>, right: seq<Hand>)
    requires multiset(init + [h]) == multiset(left + [h] + right)
    ensures multiset(init) == multiset(left + right)
  {
    assert multiset(init) == multiset(init + [h]) - multiset{h};
    assert multiset(left + right) == multiset(left + [h] + right) - multiset{h};
  }

  /** The batches of the same hands, in any order, hold the same writes. */
  lemma {:induction false} SameWrites(a: seq<Hand>, b: seq<Hand>, q: nat)
    requires multiset(a) == multiset(b)
    ensures multiset(Writes(a, q)) == multiset(Writes(b, q))
    decreases |a|
  {
    if a == [] {
      assert |multiset(a)| == |a| && |multiset(b)| == |b|;
    } else {
      var n := |a| - 1;
      var init, h := a[..n], a[n];
      assert a == init + [h];
      assert h in multiset(b);
      var i :| 0 <= i < |b| && b[i] == h;
      var left, right := b[..i], b[i + 1..];
      Around(b, i);
      SameRest(init, h, left, right);
      SameWrites(init, left + right, q);
      WithoutWrites(left, h, right, q);
    }
  }

  /** Every staged write is pending, held or carried, as often as it was staged. */
  lemma WritesConserved(steps: seq<Step>, q: nat)
    ensures var s := RunSteps(Start(), steps);
            multiset(Staged(steps, q)) ==
            multiset(At(s.pending, q)) + multiset(Writes(s.hands, q)) + multiset(Writes(AllCarried(s.units), q))
  {
    var s := RunSteps(Start(), steps);
    var taken := Conserved(steps);
    assert StagedIs(Staged(steps, q), At(s.pending, q), taken, q);
    SameWrites(taken, AllCarried(s.units) + s.hands, q);
    WritesSplit(AllCarried(s.units), s.hands, q);
  }

  /** What is pending was staged last, and every batch, held or carried, was staged in one stretch. */
  lemma BatchIsStretch(steps: seq<Step>, h: Hand) returns (i: nat, j: nat)
    requires var s := RunSteps(Start(), steps); h in s.hands || h in AllCarried(s.units)
    ensures i <= j <= |Staged(steps, h.queue)| && Staged(steps, h.queue)[i..j] == h.batch
    ensures var p := At(RunSteps(Start(), steps).pending, h.queue);
            |p| <= |Staged(steps, h.queue)| && Staged(steps, h.queue)[|Staged(steps, h.queue)| - |p|..] == p
    ensures AskedFor(steps, h)
  {
    var s := RunSteps(Start(), steps);
    var taken := Conserved(steps);
    assert StagedIs(Staged(steps, h.queue), At(s.pending, h.queue), taken, h.queue);
    assert h in multiset(AllCarried(s.units)) + multiset(s.hands);
    assert h in multiset(taken);
    var k :| 0 <= k < |taken| && taken[k] == h;
    i, j := TakenStretch(Staged(steps, h.queue), At(s.pending, h.queue), taken, k);
  }

  lemma TakenStretch(staged: seq<nat>, pending: seq<nat>, taken: seq<Hand>, k: nat) returns (i: nat, j: nat)
    requires k < |taken| && StagedIs(staged, pending, taken, taken[k].queue)
    ensures i <= j <= |staged| && staged[i..j] == taken[k].batch
    ensures |pending| <= |staged| && staged[|staged| - |pending|..] == pending
  {
    var before, h, rest := taken[..k], taken[k], taken[k + 1..];
    Around(taken, k);
    WritesThree(before, h, rest);
    i := |Writes(before, h.queue)|;
    j := i + |h.batch|;
    Stretch(Writes(before, h.queue), h.batch, Writes(rest, h.queue), pending);
  }

  lemma WritesThree(a: seq<Hand>, h: Hand, c: seq<Hand>)
    ensures Writes(a + [h] + c, h.queue) == Writes(a, h.queue) + h.batch + Writes(c, h.queue)
  {
    WritesSplit(a + [h], c, h.queue);
    WritesMore(a, h, h.queue);
  }

  lemma Stretch(a: seq<nat>, b: seq<nat>, c: seq<nat>, d: seq<nat>)
    ensures var s := a + b + c + d; s[|a|..|a| + |b|] == b && s[|s| - |d|..] == d
  {
  }

  // ---- the order batches reach the stream in ----

  /** The caller putting hand k on queue q took its batch before every other that still holds one of q's. */
  ghost predicate Oldest(s: Streams, k: nat, q: nat) {
    k < |s.hands| && s.hands[k].queue == q ==> forall j :: 0 <= j < k ==> s.hands[j].queue != q
  }

  ghost predicate TurnAt(steps: seq<Step>, n: nat, q: nat)
    requires n < |steps|
  {
    steps[n].Enqueue? ==> Oldest(RunSteps(Start(), steps[..n]), steps[n].hand, q)
  }

  /** Callers put units on queue q in the order they took its batches, as one caller alone always does. */
  ghost predicate InTurn(steps: seq<Step>, q: nat) {
    forall n: nat :: n < |steps| ==> TurnAt(steps, n, q)
  }

  lemma InTurnMore(steps: seq<Step>, q: nat)
    requires steps != []
    ensures var n := |steps| - 1; InTurn(steps, q) <==> InTurn(steps[..n], q) && TurnAt(steps, n, q)
  {
    var n := |steps| - 1;
    forall i: nat | i < n
      ensures TurnAt(steps[..n], i, q) <==> TurnAt(steps, i, q)
    {
      assert steps[..n][..i] == steps[..i];
    }
  }

  /** When a batch was taken, counting the takings of all queues, and from which queue. */
  datatype Ticket = Ticket(queue: nat, at: nat)

  /** The tickets of what units carry, in stream order, and of what callers hold. */
  datatype Line = Line(units: seq<Ticket>, hands: seq<Ticket>)

  ghost function Passed(l: Line, k: nat): Line
    requires k < |l.hands|
  {
    Line(l.units + [l.hands[k]], l.hands[..k] + l.hands[k + 1..])
  }

  ghost function LineAfter(s: Streams, l: Line, step: Step): Line {
    if Takes(s, step) then l.(hands := l.hands + [Ticket(step.queue, |l.units| + |l.hands|)])
    else if step.Enqueue? && step.hand < |l.hands| then Passed(l, step.hand)
    else l
  }

  ghost function LineOf(steps: seq<Step>): Line {
    if steps == [] then Line([], [])
    else
      var init, step := steps[..|steps| - 1], steps[|steps| - 1];
      LineAfter(RunSteps(Start(), init), LineOf(init), step)
  }

  /** Every ticket belongs to its unit or hand, and callers' tickets are in the order they were drawn. */
  ghost predicate LineFits(s: Streams, l: Line) {
    && |l.units| == |s.units| && (forall i :: 0 <= i < |l.units| ==> l.units[i].queue == s.units[i].queue)
    && |l.hands| == |s.hands| && (forall k :: 0 <= k < |l.hands| ==> l.hands[k].queue == s.hands[k].queue)
    && (forall j, k :: 0 <= j < k < |l.hands| ==> l.hands[j].at < l.hands[k].at)
    && (forall k :: 0 <= k < |l.hands| ==> l.hands[k].at < |l.units| + |l.hands|)
    && (forall i :: 0 <= i < |l.units| ==> l.units[i].at < |l.units| + |l.hands|)
  }

  lemma {:induction false} LineAlwaysFits(steps: seq<Step>)
    ensures LineFits(RunSteps(Start(), steps), LineOf(steps))
  {
    if steps != [] {
      var init, step := steps[..|steps| - 1], steps[|steps| - 1];
      var s := RunSteps(Start(), init);
      LineAlwaysFits(init);
      if Takes(s, step) {
        TakeMoves(s, step);
      } else if step.Enqueue? && step.hand < |s.hands| {
        PassedFits(s, LineOf(init), step.hand);
      } else {
        OtherMoves(s, step);
        SameUnits(s.units, Apply(s, step).units);
      }
    }
  }

  lemma SameUnits(a: seq<Unit>, b: seq<Unit>)
    requires AllCarried(a) == AllCarried(b)
    ensures |a| == |b| && forall i :: 0 <= i < |a| ==> a[i].queue == b[i].queue
  {
    assert |AllCarried(a)| == |AllCarried(b)|;
    forall i | 0 <= i < |a|
      ensures a[i].queue == b[i].queue
    {
      assert AllCarried(a)[i] == AllCarried(b)[i];
    }
  }

  lemma PassedFits(s: Streams, l: Line, k: nat)
    requires LineFits(s, l) && k < |s.hands|
    ensures LineFits(Apply(s, Enqueue(k)), Passed(l, k))
  {
    var t := Apply(s, Enqueue(k));
    assert t.units == s.units + [Chained(s, s.hands[k])];
  }

  // ---- lines ----

  /** Queue q's batches, those carried first, are in the order they were taken. */
  ghost predicate Kept(l: Line, q: nat) {
    && (forall i, j :: 0 <= i < j < |l.units| && l.units[i].queue == q == l.units[j].queue ==>
          l.units[i].at < l.units[j].at)
    && (forall i, k :: 0 <= i < |l.units| && 0 <= k < |l.hands| && l.units[i].queue == q == l.hands[k].queue ==>
          l.units[i].at < l.hands[k].at)
  }

  ghost predicate FirstHand(l: Line, k: nat, q: nat)
    requires k < |l.hands|
  {
    l.hands[k].queue == q ==> forall j :: 0 <= j < k ==> l.hands[j].queue != q
  }

  ghost predicate Drawn(l: Line) {
    forall j, k :: 0 <= j < k < |l.hands| ==> l.hands[j].at < l.hands[k].at
  }

  /** Passing a hand on keeps the order exactly when it was kept and the hand is the queue's first. */
  lemma PassedKept(l: Line, k: nat, q: nat)
    requires Drawn(l) && k < |l.hands|
    ensures Kept(Passed(l, k), q) <==> Kept(l, q) && FirstHand(l, k, q)
  {
    var p := Passed(l, k);
    var n := |l.units|;
    if Kept(p, q) {
      forall i, x | 0 <= i < n && 0 <= x < |l.hands| && l.units[i].queue == q == l.hands[x].queue
        ensures l.units[i].at < l.hands[x].at
      {
        if x != k {
          assert p.hands[if x < k then x else x - 1] == l.hands[x] && p.units[i] == l.units[i];
        } else {
          assert p.units[n] == l.hands[k] && p.units[i] == l.units[i];
        }
      }
      forall i, j | 0 <= i < j < n && l.units[i].queue == q == l.units[j].queue
        ensures l.units[i].at < l.units[j].at
      {
        assert p.units[i] == l.units[i] && p.units[j] == l.units[j];
      }
      assert p.units[n] == l.hands[k] && forall j :: 0 <= j < k ==> p.hands[j] == l.hands[j];
    }
    if Kept(l, q) && FirstHand(l, k, q) {
      PassedInOrder(l, k, q);
    }
  }

  lemma PassedInOrder(l: Line, k: nat, q: nat)
    requires Drawn(l) && k < |l.hands| && Kept(l, q) && FirstHand(l, k, q)
    ensures Kept(Passed(l, k), q)
  {
    var p := Passed(l, k);
    forall i, x | 0 <= i < |p.units| && 0 <= x < |p.hands| && p.units[i].queue == q == p.hands[x].queue
      ensures p.units[i].at < p.hands[x].at
    {
      var y := if x < k then x else x + 1;
      assert p.hands[x] == l.hands[y];
    }
  }

  /** Drawing a ticket keeps the order exactly when it was kept: the newest is the latest. */
  lemma DrawnKept(l: Line, q: nat, queue: nat, at: nat)
    requires forall i :: 0 <= i < |l.units| ==> l.units[i].at < at
    ensures Kept(l.(hands := l.hands + [Ticket(queue, at)]), q) <==> Kept(l, q)
  {
    var p := l.(hands := l.hands + [Ticket(queue, at)]);
    assert forall k :: 0 <= k < |l.hands| ==> p.hands[k] == l.hands[k];
  }

  /** A queue's units run in the order their batches were taken, and every batch still held comes after them,
      exactly when no caller overtook another between taking a batch and putting it on the stream. */
  lemma {:induction false} OrderExactly(steps: seq<Step>, q: nat)
    ensures Kept(LineOf(steps), q) <==> InTurn(steps, q)
  {
    if steps != [] {
      var n := |steps| - 1;
      var init, step := steps[..n], steps[n];
      var s, l := RunSteps(Start(), init), LineOf(init);
      OrderExactly(init, q);
      InTurnMore(steps, q);
      LineAlwaysFits(init);
      LineStep(s, l, step, q);
      assert TurnAt(steps, n, q) <==> (step.Enqueue? ==> Oldest(s, step.hand, q));
    }
  }

  /** What one step does to the order. */
  lemma LineStep(s: Streams, l: Line, step: Step, q: nat)
    requires LineFits(s, l)
    ensures Kept(LineAfter(s, l, step), q) <==> Kept(l, q) && (step.Enqueue? ==> Oldest(s, step.hand, q))
  {
    if Takes(s, step) {
      DrawnKept(l, q, step.queue, |l.units| + |l.hands|);
    } else if step.Enqueue? && step.hand < |l.hands| {
      PassedKept(l, step.hand, q);
      FirstIsOldest(s, l, step.hand, q);
    }
  }

  lemma FirstIsOldest(s: Streams, l: Line, k: nat, q: nat)
    requires LineFits(s, l) && k < |l.hands|
    ensures FirstHand(l, k, q) <==> Oldest(s, k, q)
  {
  }

  lemma {:induction false} NoneOf(hands: seq<Hand>, q: nat)
    requires forall h :: h in hands ==> h.queue != q
    ensures Writes(hands, q) == []
  {
    if hands != [] {
      assert hands[|hands| - 1] in hands;
      NoneOf(hands[..|hands| - 1], q);
    }
  }

  lemma PassedPieces(carried: seq<Hand>, left: seq<Hand>, h: Hand, right: seq<Hand>, q: nat)
    requires h.queue == q ==> Writes(left, q) == []
    ensures Writes(carried + [h], q) + Writes(left + right, q) == Writes(carried, q) + Writes(left + [h] + right, q)
  {
    WritesMore(carried, h, q);
    WritesSplit(left, right, q);
    WritesSplit(left + [h], right, q);
    WritesMore(left, h, q);
    Regroup(Writes(carried, q), Writes(left, q), if h.queue == q then h.batch else [], Writes(right, q));
  }

  lemma Regroup(a: seq<nat>, l: seq<nat>, b: seq<nat>, r: seq<nat>)
    requires l == [] || b == []
    ensures (a + b) + (l + r) == a + ((l + b) + r)
  {
  }

  /** End to end, what units carry, what callers hold and what is pending. */
  ghost predicate InLine(carried: seq<Hand>, hands: seq<Hand>, pending: seq<nat>, staged: seq<nat>, q: nat) {
    Writes(carried, q) + Writes(hands, q) + pending == staged
  }

  lemma PassedInLine(carried: seq<Hand>, hands: seq<Hand>, k: nat, pending: seq<nat>, staged: seq<nat>, q: nat)
    requires InLine(carried, hands, pending, staged, q) && k < |hands|
    requires hands[k].queue == q ==> forall j :: 0 <= j < k ==> hands[j].queue != q
    ensures InLine(carried + [hands[k]], hands[..k] + hands[k + 1..], pending, staged, q)
  {
    var left, h, right := hands[..k], hands[k], hands[k + 1..];
    Around(hands, k);
    if h.queue == q {
      NoneOf(left, q);
    }
    PassedPieces(carried, left, h, right, q);
  }

  lemma TakenInLine(carried: seq<Hand>, hands: seq<Hand>, h: Hand, pending: seq<nat>, staged: seq<nat>, q: nat)
    requires InLine(carried, hands, pending, staged, q) && (h.queue == q ==> h.batch == pending)
    ensures InLine(carried, hands + [h], if h.queue == q then [] else pending, staged, q)
  {
    WritesMore(hands, h, q);
  }

  ghost predicate RunInLine(steps: seq<Step>, q: nat) {
    var s := RunSteps(Start(), steps);
    InLine(AllCarried(s.units), s.hands, At(s.pending, q), Staged(steps, q), q)
  }

  lemma StepInLine(steps: seq<Step>, step: Step, q: nat)
    requires RunInLine(steps, q)
    requires step.Enqueue? ==> Oldest(RunSteps(Start(), steps), step.hand, q)
    ensures RunInLine(steps + [step], q)
  {
    var s := RunSteps(Start(), steps);
    var carried, pending, staged := AllCarried(s.units), At(s.pending, q), Staged(steps, q);
    StagedMore(steps, step, q);
    if Takes(s, step) {
      TakeMoves(s, step);
      TakenInLine(carried, s.hands, TakenBy(s, step), pending, staged, q);
    } else if step.Enqueue? && step.hand < |s.hands| {
      EnqueueMoves(s, step.hand);
      PassedInLine(carried, s.hands, step.hand, pending, staged, q);
    } else {
      OtherMoves(s, step);
      StagedInLine(carried, s.hands, pending, staged, if step.Stage? && step.queue == q then [step.write] else [], q);
    }
  }

  lemma StagedInLine(carried: seq<Hand>, hands: seq<Hand>, pending: seq<nat>, staged: seq<nat>, more: seq<nat>, q: nat)
    requires InLine(carried, hands, pending, staged, q)
    ensures InLine(carried, hands, pending + more, staged + more, q)
  {
  }

  /** With no caller overtaking another, what units carry, what callers hold and what is pending are, end to
      end, what was staged. */
  lemma {:induction false} StagedInOrder(steps: seq<Step>, q: nat)
    requires InTurn(steps, q)
    ensures RunInLine(steps, q)
  {
    if steps != [] {
      var n := |steps| - 1;
      InTurnMore(steps, q);
      StagedInOrder(steps[..n], q);
      StepInLine(steps[..n], steps[n], q);
      assert steps[..n] + [steps[n]] == steps;
    }
  }

  /** What was applied so far, as long as every worked unit of the queue applied its batch, is a prefix of
      what its units carry. */
  lemma {:induction false} DeliveredPrefix(s: Streams, q: nat, n: nat)
    requires Invariant(s) && n <= |s.units|
    requires forall u: nat :: u < |s.units| && s.units[u].queue == q && PastWork(s, u) ==> s.units[u].delivered
    ensures DeliveredBelow(s.units, q, n) <= Writes(AllCarried(s.units[..n]), q)
    ensures (forall u: nat :: u < n && s.units[u].queue == q ==> s.units[u].delivered) ==>
              DeliveredBelow(s.units, q, n) == Writes(AllCarried(s.units[..n]), q)
  {
    if n > 0 {
      DeliveredPrefix(s, q, n - 1);
      CarriedNext(s.units, q, n - 1);
      var batch := if s.units[n - 1].queue == q then s.units[n - 1].batch else [];
      if s.units[n - 1].queue == q && s.units[n - 1].delivered {
        AllBefore(s, q, n - 1);
      } else {
        StillPrefix(DeliveredBelow(s.units, q, n - 1), Writes(AllCarried(s.units[..n - 1]), q), batch);
      }
    }
  }

  lemma StillPrefix(a: seq<nat>, b: seq<nat>, more: seq<nat>)
    requires a <= b
    ensures a + [] == a <= b + more
  {
  }

  lemma CarriedNext(units: seq<Unit>, q: nat, n: nat)
    requires n < |units|
    ensures Writes(AllCarried(units[..n + 1]), q) ==
            Writes(AllCarried(units[..n]), q) + (if units[n].queue == q then units[n].batch else [])
  {
    assert units[..n + 1] == units[..n] + [units[n]];
    CarriedMore(units[..n], units[n]);
    WritesMore(AllCarried(units[..n]), Carried(units[n]), q);
  }

  lemma AllBefore(s: Streams, q: nat, n: nat)
    requires Invariant(s) && n < |s.units| && s.units[n].queue == q && s.units[n].delivered
    requires forall u: nat :: u < |s.units| && s.units[u].queue == q && PastWork(s, u) ==> s.units[u].delivered
    ensures forall v: nat :: v < n && s.units[v].queue == q ==> s.units[v].delivered
  {
    assert UnitOk(s, n);
    forall v: nat | v < n && s.units[v].queue == q
      ensures s.units[v].delivered
    {
      EarlierDone(s, v, n);
    }
  }

  /** With no caller overtaking another and no unit giving up on a failed fence, writes are applied in the
      order they were staged. */
  lemma AppliedInOrder(steps: seq<Step>, q: nat)
    requires InTurn(steps, q)
    requires var s := RunSteps(Start(), steps);
             forall u: nat :: u < |s.units| && s.units[u].queue == q && PastWork(s, u) ==> s.units[u].delivered
    ensures At(RunSteps(Start(), steps).applied, q) <= Staged(steps, q)
  {
    var s := RunSteps(Start(), steps);
    RunKeeps(steps);
    WritesInOrder(steps, q);
    DeliveredPrefix(s, q, |s.units|);
    StagedInOrder(steps, q);
    assert s.units[..|s.units|] == s.units;
  }

  /** Two callers that cross: the write staged second is carried first. */
  lemma CrossedCallers() returns (steps: seq<Step>)
    ensures Staged(steps, 0) == [1, 2] && !InTurn(steps, 0)
    ensures var s := RunSteps(Start(), steps);
            |s.units| == 2 && s.units[0].batch == [2] && s.units[1].batch == [1]
  {
    var a := [Stage(0, 1)];
    StagedMore([], Stage(0, 1), 0);
    assert [] + a == a;
    assert RunSteps(Start(), a) == Apply(Start(), Stage(0, 1));
    assert At(RunSteps(Start(), a).pending, 0) == [1];
    var b := a + [Flush(0)];
    StagedMore(a, Flush(0), 0);
    assert At(RunSteps(Start(), b).pending, 0) == [];
    var c := b + [Stage(0, 2)];
    StagedMore(b, Stage(0, 2), 0);
    assert At(RunSteps(Start(), c).pending, 0) == [2];
    var d := c + [Flush(0)];
    StagedMore(c, Flush(0), 0);
    var e := d + [Enqueue(1)];
    StagedMore(d, Enqueue(1), 0);
    steps := e + [Enqueue(0)];
    StagedMore(e, Enqueue(0), 0);
    assert RunSteps(Start(), d).hands == [Hand(0, [1], []), Hand(0, [2], [])];
    assert e[..4] == d && steps[..4] == d;
    assert !TurnAt(steps, 4, 0);
  }
}
