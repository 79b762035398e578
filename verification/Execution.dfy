/** Running a recorded graph: record order over private memory as the reference, and any permitted
    order over placed, possibly shared, memory as what a plan does. */
module Execution {
  import opened Closure
  import opened Accesses

  type Byte = b: int | 0 <= b < 256

  /** A byte of a declared resource, and a byte of physical memory. */
  datatype Loc = Loc(res: ResourceRef, at: int)

  datatype Addr = PoolByte(at: int) | BufferByte(buf: nat, at: int) | TextureByte(tex: nat, at: int)
                | UnboundByte(slot: nat, at: int)

  ghost predicate ReadsLoc(n: Node, l: Loc) {
    exists a :: a in n.accesses && a.IsRead() && a.res == l.res && a.Touches(l.at)
  }

  ghost predicate WritesLoc(n: Node, l: Loc) {
    exists a :: a in n.accesses && a.Writes() && a.res == l.res && a.Touches(l.at)
  }

  /** The bytes a node reads and writes, from its declarations alone. */
  lemma ReachExactly(n: Node, l: Loc)
    ensures ReadsLoc(n, l) <==>
            exists a :: a in n.accesses && a.res == l.res && a.mode != Write && a.off <= l.at < a.off + a.size
    ensures WritesLoc(n, l) <==>
            exists a :: a in n.accesses && a.res == l.res && a.mode != Read && a.off <= l.at < a.off + a.size
  {
    forall a: Access
      ensures a.IsRead() <==> a.mode != Write
      ensures a.Writes() <==> a.mode != Read
      ensures a.Touches(l.at) <==> a.off <= l.at < a.off + a.size
    {
    }
  }

  ghost predicate TouchesLoc(n: Node, l: Loc) {
    ReadsLoc(n, l) || WritesLoc(n, l)
  }

  /** A node computes the bytes of its write ranges from the bytes of its read ranges, and from
      nothing else. What it computes is arbitrary. */
  type Kernel = (nat, imap<Loc, Byte>, Loc) -> Byte

  type Memory = Addr -> Byte

  /** A graph with its order relation, where its bytes live, what its nodes compute, the contents
      it starts from (per declared byte, and physically), and the order its nodes run in. */
  datatype Run = Run(nodes: seq<Node>, order: Rel, addr: Loc -> Addr, kernel: Kernel,
                     initial: Loc -> Byte, start: Memory, schedule: seq<nat>)

  // ---- the reference: record order, every resource in its own memory ----

  ghost function ValueBefore(run: Run, i: nat, l: Loc): Byte
    requires i <= |run.nodes|
    decreases i, 0
  {
    if i == 0 then run.initial(l)
    else if WritesLoc(run.nodes[i - 1], l) then run.kernel(i - 1, InputOf(run, i - 1), l)
    else ValueBefore(run, i - 1, l)
  }

  /** The bytes node i reads in record order. */
  ghost function InputOf(run: Run, i: nat): imap<Loc, Byte>
    requires i < |run.nodes|
    decreases i, 1
  {
    imap l | ReadsLoc(run.nodes[i], l) :: ValueBefore(run, i, l)
  }

  // ---- the plan: scheduled order, placed memory ----

  ghost predicate Stores(n: Node, addr: Loc -> Addr, a: Addr) {
    exists l :: WritesLoc(n, l) && addr(l) == a
  }

  ghost function StoredLoc(n: Node, addr: Loc -> Addr, a: Addr): (l: Loc)
    requires Stores(n, addr, a)
    ensures WritesLoc(n, l) && addr(l) == a
  {
    var l :| WritesLoc(n, l) && addr(l) == a;
    l
  }

  ghost function Gather(n: Node, addr: Loc -> Addr, m: Memory): imap<Loc, Byte> {
    imap l | ReadsLoc(n, l) :: m(addr(l))
  }

  ghost function Step(run: Run, i: nat, m: Memory): Memory
    requires i < |run.nodes|
  {
    var n := run.nodes[i];
    (a: Addr) => if Stores(n, run.addr, a) then run.kernel(i, Gather(n, run.addr, m), StoredLoc(n, run.addr, a))
    else m(a)
  }

  ghost predicate Scheduled(run: Run) {
    forall q :: 0 <= q < |run.schedule| ==> run.schedule[q] < |run.nodes|
  }

  /** Physical memory after the first q scheduled nodes. */
  ghost function After(run: Run, q: nat): Memory
    requires Scheduled(run) && q <= |run.schedule|
  {
    if q == 0 then run.start else Step(run, run.schedule[q - 1], After(run, q - 1))
  }

  ghost function NodeAt(run: Run, q: nat): Node
    requires Scheduled(run) && q < |run.schedule|
  {
    run.nodes[run.schedule[q]]
  }

  /** The bytes the q-th scheduled node reads. */
  ghost function InputAt(run: Run, q: nat): imap<Loc, Byte>
    requires Scheduled(run) && q < |run.schedule|
  {
    Gather(NodeAt(run, q), run.addr, After(run, q))
  }

  /** The q-th scheduled node reads the bytes it reads in record order. */
  ghost predicate Agrees(run: Run, q: nat)
    requires Scheduled(run) && q < |run.schedule|
  {
    InputAt(run, q) == InputOf(run, run.schedule[q])
  }

  // ---- what makes a plan safe ----

  /** Every node once, in an order the dependency relation permits. */
  ghost predicate LinearExtension(e: Rel, s: seq<nat>, n: nat) {
    && (forall i: nat :: i < n <==> i in s)
    && (forall q, r :: 0 <= q < r < |s| ==> s[q] != s[r] && !Reach(e, s[r], s[q]))
  }

  /** Conflicting nodes are ordered as recorded. */
  ghost predicate ConflictsOrdered(nodes: seq<Node>, e: Rel) {
    forall i: nat, j: nat :: i < j < |nodes| && NodesConflict(nodes[i], nodes[j]) ==> Reach(e, i, j)
  }

  /** A transient byte is read only after a node ordered before the reader wrote it. */
  ghost predicate ReadsCovered(nodes: seq<Node>, e: Rel) {
    forall i: nat, l: Loc :: i < |nodes| && l.res.Temp? && ReadsLoc(nodes[i], l)
      ==> exists u: nat :: u < i && WritesLoc(nodes[u], l) && Reach(e, u, i)
  }

  /** Node k comes before, or after, every node touching l. */
  ghost predicate Clear(nodes: seq<Node>, e: Rel, k: nat, l: Loc) {
    || (forall i: nat :: i < |nodes| && TouchesLoc(nodes[i], l) ==> Reach(e, k, i))
    || (forall i: nat :: i < |nodes| && TouchesLoc(nodes[i], l) ==> Reach(e, i, k))
  }

  ghost predicate Touched(nodes: seq<Node>, l: Loc) {
    exists i: nat :: i < |nodes| && TouchesLoc(nodes[i], l)
  }

  /** Where two declared bytes share an address: a transient's writer stays clear of the other
      byte's users, and a caller's byte that any node touches is written under one name only. */
  ghost predicate SharingSafe(nodes: seq<Node>, e: Rel, addr: Loc -> Addr) {
    forall k: nat, l, m :: k < |nodes| && l != m && addr(l) == addr(m) && WritesLoc(nodes[k], m)
      ==> if l.res.Temp? then Clear(nodes, e, k, l) else !Touched(nodes, l)
  }

  ghost predicate Safe(run: Run) {
    && ConflictsOrdered(run.nodes, run.order)
    && ReadsCovered(run.nodes, run.order)
    && SharingSafe(run.nodes, run.order, run.addr)
    && LinearExtension(run.order, run.schedule, |run.nodes|)
    && (forall l: Loc :: !l.res.Temp? ==> run.start(run.addr(l)) == run.initial(l))
  }

  // ---- last writers ----

  lemma {:induction false} ValueUnwritten(run: Run, j: nat, i: nat, l: Loc)
    requires j <= i <= |run.nodes|
    requires forall k: nat :: j <= k < i ==> !WritesLoc(run.nodes[k], l)
    ensures ValueBefore(run, i, l) == ValueBefore(run, j, l)
  {
    if j < i {
      ValueUnwritten(run, j, i - 1, l);
    }
  }

  lemma {:induction false} MemoryUnwritten(run: Run, p: nat, q: nat, a: Addr)
    requires Scheduled(run) && p <= q <= |run.schedule|
    requires forall r: nat :: p <= r < q ==> !Stores(NodeAt(run, r), run.addr, a)
    ensures After(run, q)(a) == After(run, p)(a)
  {
    if p < q {
      MemoryUnwritten(run, p, q - 1, a);
      assert !Stores(NodeAt(run, q - 1), run.addr, a);
    }
  }

  lemma ClearOfOwn(nodes: seq<Node>, e: Rel, k: nat, l: Loc)
    requires k < |nodes| && TouchesLoc(nodes[k], l)
    ensures !Clear(nodes, e, k, l)
  {
    assert !Reach(e, k, k);
  }

  /** A node stores at most one byte at each address. */
  lemma StoredUnique(nodes: seq<Node>, e: Rel, addr: Loc -> Addr, i: nat, l: Loc)
    requires i < |nodes| && SharingSafe(nodes, e, addr) && WritesLoc(nodes[i], l)
    ensures Stores(nodes[i], addr, addr(l)) && StoredLoc(nodes[i], addr, addr(l)) == l
  {
    assert Stores(nodes[i], addr, addr(l));
    var m := StoredLoc(nodes[i], addr, addr(l));
    assert TouchesLoc(nodes[i], l);
    ClearOfOwn(nodes, e, i, l);
    assert m != l ==> if l.res.Temp? then Clear(nodes, e, i, l) else !Touched(nodes, l);
  }

  lemma StoredValue(run: Run, p: nat, l: Loc)
    requires Scheduled(run) && p < |run.schedule| && SharingSafe(run.nodes, run.order, run.addr)
    requires WritesLoc(NodeAt(run, p), l)
    ensures After(run, p + 1)(run.addr(l)) == run.kernel(run.schedule[p], InputAt(run, p), l)
  {
    StoredUnique(run.nodes, run.order, run.addr, run.schedule[p], l);
  }

  // ---- the theorem ----

  ghost predicate LastWriter(run: Run, i: nat, l: Loc, j: nat)
    requires i <= |run.nodes|
  {
    j < i && WritesLoc(run.nodes[j], l) && forall k: nat :: j < k < i ==> !WritesLoc(run.nodes[k], l)
  }

  lemma {:induction false} FindLastWriter(run: Run, i: nat, l: Loc) returns (j: nat, none: bool)
    requires i <= |run.nodes|
    ensures none ==> forall k: nat :: k < i ==> !WritesLoc(run.nodes[k], l)
    ensures !none ==> LastWriter(run, i, l, j)
  {
    if i == 0 {
      j, none := 0, true;
    } else if WritesLoc(run.nodes[i - 1], l) {
      j, none := i - 1, false;
    } else {
      j, none := FindLastWriter(run, i - 1, l);
    }
  }

  lemma WritersConflict(m: Node, n: Node, l: Loc)
    requires WritesLoc(m, l) && TouchesLoc(n, l)
    ensures NodesConflict(m, n) && NodesConflict(n, m)
  {
    var a :| a in m.accesses && a.Writes() && a.res == l.res && a.Touches(l.at);
    var b :| b in n.accesses && b.res == l.res && b.Touches(l.at);
    assert ByteConflict(a, b, l.at) && ByteConflict(b, a, l.at);
  }

  /** A node storing at the address of a byte its reader i gets from node j comes before j or after i. */
  lemma StorerSide(run: Run, l: Loc, j: nat, i: nat, k: nat)
    requires ConflictsOrdered(run.nodes, run.order) && SharingSafe(run.nodes, run.order, run.addr)
    requires i < |run.nodes| && k < |run.nodes| && k != i && k != j
    requires ReadsLoc(run.nodes[i], l) && LastWriter(run, i, l, j)
    requires Stores(run.nodes[k], run.addr, run.addr(l))
    ensures Reach(run.order, k, j) || Reach(run.order, i, k)
  {
    var m := StoredLoc(run.nodes[k], run.addr, run.addr(l));
    assert TouchesLoc(run.nodes[i], l) && TouchesLoc(run.nodes[j], l) && Touched(run.nodes, l);
    if m == l {
      WritersConflict(run.nodes[k], run.nodes[i], l);
      WritersConflict(run.nodes[k], run.nodes[j], l);
    } else {
      assert Clear(run.nodes, run.order, k, l);
    }
  }

  /** A node storing at the address of a caller byte that no node before reader i writes comes after i. */
  lemma StorerAfter(run: Run, l: Loc, i: nat, k: nat)
    requires ConflictsOrdered(run.nodes, run.order) && SharingSafe(run.nodes, run.order, run.addr)
    requires i < |run.nodes| && k < |run.nodes| && k != i
    requires ReadsLoc(run.nodes[i], l) && !l.res.Temp?
    requires forall x: nat :: x < i ==> !WritesLoc(run.nodes[x], l)
    requires Stores(run.nodes[k], run.addr, run.addr(l))
    ensures Reach(run.order, i, k)
  {
    var m := StoredLoc(run.nodes[k], run.addr, run.addr(l));
    assert TouchesLoc(run.nodes[i], l) && Touched(run.nodes, l);
    assert m == l;
    WritersConflict(run.nodes[k], run.nodes[i], l);
  }

  /** A node storing at the address of a caller byte last written by j is ordered before j. */
  lemma StorerBefore(run: Run, l: Loc, j: nat, k: nat)
    requires ConflictsOrdered(run.nodes, run.order) && SharingSafe(run.nodes, run.order, run.addr)
    requires k < |run.nodes| && k != j && !l.res.Temp?
    requires LastWriter(run, |run.nodes|, l, j)
    requires Stores(run.nodes[k], run.addr, run.addr(l))
    ensures Reach(run.order, k, j)
  {
    var m := StoredLoc(run.nodes[k], run.addr, run.addr(l));
    assert TouchesLoc(run.nodes[j], l) && Touched(run.nodes, l);
    assert m == l;
    WritersConflict(run.nodes[k], run.nodes[j], l);
  }

  lemma NotBetween(run: Run, l: Loc, j: nat, p: nat, q: nat, r: nat)
    requires Scheduled(run) && ConflictsOrdered(run.nodes, run.order) && SharingSafe(run.nodes, run.order, run.addr)
    requires LinearExtension(run.order, run.schedule, |run.nodes|)
    requires p < r < q < |run.schedule| && ReadsLoc(NodeAt(run, q), l)
    requires run.schedule[p] == j && LastWriter(run, run.schedule[q], l, j)
    ensures !Stores(NodeAt(run, r), run.addr, run.addr(l))
  {
    if Stores(NodeAt(run, r), run.addr, run.addr(l)) {
      StorerSide(run, l, j, run.schedule[q], run.schedule[r]);
    }
  }

  lemma NotAfterLast(run: Run, l: Loc, j: nat, p: nat, r: nat)
    requires Scheduled(run) && ConflictsOrdered(run.nodes, run.order) && SharingSafe(run.nodes, run.order, run.addr)
    requires LinearExtension(run.order, run.schedule, |run.nodes|)
    requires p < r < |run.schedule| && !l.res.Temp?
    requires run.schedule[p] == j && LastWriter(run, |run.nodes|, l, j)
    ensures !Stores(NodeAt(run, r), run.addr, run.addr(l))
  {
    if Stores(NodeAt(run, r), run.addr, run.addr(l)) {
      StorerBefore(run, l, j, run.schedule[r]);
    }
  }

  /** What node j stored at step p is what record order shows before i, if neither the schedule from
      p to q nor record order from j to i stores over it. */
  lemma StoredSurvives(run: Run, l: Loc, j: nat, p: nat, i: nat, q: nat)
    requires Scheduled(run) && SharingSafe(run.nodes, run.order, run.addr)
    requires p < q <= |run.schedule| && i <= |run.nodes| && run.schedule[p] == j && LastWriter(run, i, l, j)
    requires InputAt(run, p) == InputOf(run, j)
    requires forall r: nat :: p < r < q ==> !Stores(NodeAt(run, r), run.addr, run.addr(l))
    ensures After(run, q)(run.addr(l)) == ValueBefore(run, i, l)
  {
    StoredStays(run, l, p, q);
    ValueWritten(run, l, j, i);
  }

  lemma ValueWritten(run: Run, l: Loc, j: nat, i: nat)
    requires i <= |run.nodes| && LastWriter(run, i, l, j)
    ensures ValueBefore(run, i, l) == run.kernel(j, InputOf(run, j), l)
  {
    ValueUnwritten(run, j + 1, i, l);
  }

  lemma StoredStays(run: Run, l: Loc, p: nat, q: nat)
    requires Scheduled(run) && SharingSafe(run.nodes, run.order, run.addr)
    requires p < q <= |run.schedule| && WritesLoc(NodeAt(run, p), l)
    requires forall r: nat :: p < r < q ==> !Stores(NodeAt(run, r), run.addr, run.addr(l))
    ensures After(run, q)(run.addr(l)) == run.kernel(run.schedule[p], InputAt(run, p), l)
  {
    MemoryUnwritten(run, p + 1, q, run.addr(l));
    StoredValue(run, p, l);
  }

  /** The byte a reader gets from its last writer j, scheduled at p. */
  lemma WrittenByte(run: Run, q: nat, l: Loc, j: nat, p: nat)
    requires Scheduled(run) && Safe(run) && p < q < |run.schedule| && ReadsLoc(NodeAt(run, q), l)
    requires run.schedule[p] == j && LastWriter(run, run.schedule[q], l, j)
    requires InputAt(run, p) == InputOf(run, j)
    ensures After(run, q)(run.addr(l)) == ValueBefore(run, run.schedule[q], l)
  {
    forall r: nat | p < r < q
      ensures !Stores(NodeAt(run, r), run.addr, run.addr(l))
    {
      NotBetween(run, l, j, p, q, r);
    }
    StoredSurvives(run, l, j, p, run.schedule[q], q);
  }

  /** The byte a reader gets when no earlier node wrote it. */
  lemma InitialByte(run: Run, q: nat, l: Loc)
    requires Scheduled(run) && Safe(run) && q < |run.schedule| && ReadsLoc(NodeAt(run, q), l) && !l.res.Temp?
    requires forall x: nat :: x < run.schedule[q] ==> !WritesLoc(run.nodes[x], l)
    ensures After(run, q)(run.addr(l)) == ValueBefore(run, run.schedule[q], l)
  {
    forall r: nat | 0 <= r < q
      ensures !Stores(NodeAt(run, r), run.addr, run.addr(l))
    {
      if Stores(NodeAt(run, r), run.addr, run.addr(l)) {
        StorerAfter(run, l, run.schedule[q], run.schedule[r]);
      }
    }
    MemoryUnwritten(run, 0, q, run.addr(l));
    ValueUnwritten(run, 0, run.schedule[q], l);
  }

  lemma CoveringWriter(run: Run, i: nat, l: Loc)
    requires ReadsCovered(run.nodes, run.order) && i < |run.nodes| && l.res.Temp? && ReadsLoc(run.nodes[i], l)
    ensures exists u: nat :: u < i && WritesLoc(run.nodes[u], l)
  {
  }

  /** One byte of one node's input. */
  lemma InputByte(run: Run, q: nat, l: Loc)
    requires Scheduled(run) && Safe(run) && q < |run.schedule| && ReadsLoc(NodeAt(run, q), l)
    requires forall p: nat :: p < q ==> Agrees(run, p)
    ensures After(run, q)(run.addr(l)) == ValueBefore(run, run.schedule[q], l)
  {
    var i := run.schedule[q];
    var j, none := FindLastWriter(run, i, l);
    if none {
      if l.res.Temp? {
        CoveringWriter(run, i, l);
        assert false;
      }
      InitialByte(run, q, l);
    } else {
      WritersConflict(run.nodes[j], run.nodes[i], l);
      var p := PositionBefore(run, j, q);
      assert Agrees(run, p);
      WrittenByte(run, q, l, j, p);
    }
  }

  /** A node ordered before the q-th scheduled one was scheduled earlier. */
  lemma PositionBefore(run: Run, j: nat, q: nat) returns (p: nat)
    requires Scheduled(run) && LinearExtension(run.order, run.schedule, |run.nodes|)
    requires q < |run.schedule| && j < |run.nodes| && Reach(run.order, j, run.schedule[q])
    ensures p < q && run.schedule[p] == j
  {
    assert j in run.schedule;
    p :| p < |run.schedule| && run.schedule[p] == j;
  }

  /** Every node of a safe plan reads exactly the bytes it reads in record order. */
  lemma {:induction false} InputAgrees(run: Run, q: nat)
    requires Scheduled(run) && Safe(run) && q < |run.schedule|
    ensures Agrees(run, q)
  {
    forall p: nat | p < q
      ensures Agrees(run, p)
    {
      InputAgrees(run, p);
    }
    forall l | ReadsLoc(NodeAt(run, q), l)
      ensures After(run, q)(run.addr(l)) == ValueBefore(run, run.schedule[q], l)
    {
      InputByte(run, q, l);
    }
  }

  /** A caller's byte that some node touches ends as it does in record order. */
  lemma FinalByte(run: Run, l: Loc)
    requires Scheduled(run) && Safe(run) && !l.res.Temp? && Touched(run.nodes, l)
    ensures After(run, |run.schedule|)(run.addr(l)) == ValueBefore(run, |run.nodes|, l)
  {
    var j, none := FindLastWriter(run, |run.nodes|, l);
    if none {
      FinalUntouched(run, l);
    } else {
      assert j in run.schedule;
      var p: nat :| p < |run.schedule| && run.schedule[p] == j;
      InputAgrees(run, p);
      FinalWritten(run, l, j, p);
    }
  }

  lemma FinalUntouched(run: Run, l: Loc)
    requires Scheduled(run) && Safe(run) && !l.res.Temp? && Touched(run.nodes, l)
    requires forall k: nat :: k < |run.nodes| ==> !WritesLoc(run.nodes[k], l)
    ensures After(run, |run.schedule|)(run.addr(l)) == ValueBefore(run, |run.nodes|, l)
  {
    forall r: nat | 0 <= r < |run.schedule|
      ensures !Stores(NodeAt(run, r), run.addr, run.addr(l))
    {
      assert forall m :: m != l && run.addr(m) == run.addr(l) ==> !WritesLoc(run.nodes[run.schedule[r]], m);
    }
    MemoryUnwritten(run, 0, |run.schedule|, run.addr(l));
    ValueUnwritten(run, 0, |run.nodes|, l);
  }

  lemma FinalWritten(run: Run, l: Loc, j: nat, p: nat)
    requires Scheduled(run) && Safe(run) && !l.res.Temp? && LastWriter(run, |run.nodes|, l, j)
    requires p < |run.schedule| && run.schedule[p] == j && InputAt(run, p) == InputOf(run, j)
    ensures After(run, |run.schedule|)(run.addr(l)) == ValueBefore(run, |run.nodes|, l)
  {
    forall r: nat | p < r < |run.schedule|
      ensures !Stores(NodeAt(run, r), run.addr, run.addr(l))
    {
      NotAfterLast(run, l, j, p, r);
    }
    StoredSurvives(run, l, j, p, |run.nodes|, |run.schedule|);
  }

  /** The whole-plan theorem: whatever the nodes compute and whatever the pool held, every node
      reads the bytes it reads in record order, every caller byte the graph touches ends as record
      order leaves it, and every address no node stores to keeps its contents. */
  lemma PlannedRunAgrees(run: Run)
    requires Scheduled(run) && Safe(run)
    ensures forall q: nat :: q < |run.schedule| ==> Agrees(run, q)
    ensures forall l: Loc :: !l.res.Temp? && Touched(run.nodes, l)
              ==> After(run, |run.schedule|)(run.addr(l)) == ValueBefore(run, |run.nodes|, l)
    ensures forall a :: (forall i: nat :: i < |run.nodes| ==> !Stores(run.nodes[i], run.addr, a))
              ==> After(run, |run.schedule|)(a) == run.start(a)
  {
    forall q: nat | q < |run.schedule|
      ensures Agrees(run, q)
    {
      InputAgrees(run, q);
    }
    forall l: Loc | !l.res.Temp? && Touched(run.nodes, l)
      ensures After(run, |run.schedule|)(run.addr(l)) == ValueBefore(run, |run.nodes|, l)
    {
      FinalByte(run, l);
    }
    forall a | forall i: nat :: i < |run.nodes| ==> !Stores(run.nodes[i], run.addr, a)
      ensures After(run, |run.schedule|)(a) == run.start(a)
    {
      MemoryUnwritten(run, 0, |run.schedule|, a);
    }
  }
}
