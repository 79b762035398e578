/** Recorded operations: which byte ranges of which resources a node reads and writes. */
module Accesses {
  import opened Closure

  type SlotId = n: nat | n >= 1 witness 1

  /** A resource known while recording, a builder-owned transient (by its index in the recording),
      or a slot bound before submission. */
  datatype ResourceRef = Buf(id: nat) | Tex(tex: nat) | Temp(t: nat) | SlotRef(slot: SlotId)

  datatype Mode = Read | Write | ReadWrite

  datatype Access = Access(res: ResourceRef, off: nat, size: nat, mode: Mode) {
    predicate Writes() {
      mode == Write || mode == ReadWrite
    }

    predicate IsRead() {
      mode == Read || mode == ReadWrite
    }

    ghost predicate Touches(x: int) {
      off <= x < off + size
    }
  }

  datatype Node = Node(accesses: seq<Access>)

  /** An access together with the node that declared it. */
  datatype Span = Span(access: Access, node: nat) {
    predicate Overlaps(other: Span) {
      && access.res == other.access.res
      && access.off < other.access.off + other.access.size
      && other.access.off < access.off + access.size
    }

    predicate Covers(other: Span) {
      && access.res == other.access.res
      && access.off <= other.access.off
      && other.access.off + other.access.size <= access.off + access.size
    }
  }

  /** Two accesses conflict when they share at least one byte and one of them writes. */
  ghost predicate ByteConflict(a: Access, b: Access, x: int) {
    a.res == b.res && a.Touches(x) && b.Touches(x) && (a.Writes() || b.Writes())
  }

  /** The interval test the planner applies; it also fires for an empty range inside another. */
  predicate IntervalConflict(a: Access, b: Access) {
    && a.res == b.res && a.off < b.off + b.size && b.off < a.off + a.size
    && (a.Writes() || b.Writes())
  }

  ghost predicate NodesConflict(m: Node, n: Node) {
    exists a, b, x: int :: a in m.accesses && b in n.accesses && ByteConflict(a, b, x)
  }

  predicate NodesInterval(m: Node, n: Node) {
    exists a, b :: a in m.accesses && b in n.accesses && IntervalConflict(a, b)
  }

  /** "An earlier node shares a byte with a later one and at least one of them writes it." */
  ghost function Hazards(nodes: seq<Node>): (r: Rel)
    ensures Forward(r)
  {
    set i: nat, j: nat | i < j < |nodes| && NodesConflict(nodes[i], nodes[j]) :: (i, j)
  }

  ghost function IntervalHazards(nodes: seq<Node>): (r: Rel)
    ensures Forward(r)
  {
    set i: nat, j: nat | i < j < |nodes| && NodesInterval(nodes[i], nodes[j]) :: (i, j)
  }

  ghost predicate NonEmptyRanges(nodes: seq<Node>) {
    forall i, a :: 0 <= i < |nodes| && a in nodes[i].accesses ==> a.size > 0
  }

  /** Bytes off up to off + size of the resource, written or not: two declarations are a hazard when they
      have a byte in common and one of them does more than read. */
  ghost predicate ShareByte(a: Access, b: Access, x: int) {
    && a.res == b.res && a.off <= x < a.off + a.size && b.off <= x < b.off + b.size
    && (a.mode != Read || b.mode != Read)
  }

  /** The declarations run into each other: either overlaps the other, or is empty and strictly inside it. */
  ghost predicate RunInto(a: Access, b: Access) {
    && a.res == b.res && (a.mode != Read || b.mode != Read)
    && ((exists x: int :: ShareByte(a, b, x))
        || (a.size == 0 && b.off < a.off < b.off + b.size) || (b.size == 0 && a.off < b.off < a.off + a.size))
  }

  lemma RunIntoInterval(a: Access, b: Access)
    ensures IntervalConflict(a, b) <==> RunInto(a, b)
  {
    if IntervalConflict(a, b) && a.size > 0 && b.size > 0 {
      assert ShareByte(a, b, if a.off < b.off then b.off else a.off);
    }
  }

  /** Which pairs are hazards, from the declared modes, offsets and sizes alone; and what the interval test
      adds to them. */
  lemma HazardsExactly(nodes: seq<Node>, i: nat, j: nat)
    requires i < j < |nodes|
    ensures (i, j) in Hazards(nodes) <==>
            exists a, b, x: int :: a in nodes[i].accesses && b in nodes[j].accesses && ShareByte(a, b, x)
    ensures (i, j) in IntervalHazards(nodes) <==>
            exists a, b :: a in nodes[i].accesses && b in nodes[j].accesses && RunInto(a, b)
  {
    forall a: Access, b: Access, x: int
      ensures ByteConflict(a, b, x) <==> ShareByte(a, b, x)
    {
    }
    forall a: Access, b: Access
      ensures IntervalConflict(a, b) <==> RunInto(a, b)
    {
      RunIntoInterval(a, b);
    }
  }

  /** Sharing a byte always trips the interval test; without empty ranges the two agree. */
  lemma HazardRelations(nodes: seq<Node>)
    ensures Hazards(nodes) <= IntervalHazards(nodes)
    ensures NonEmptyRanges(nodes) ==> Hazards(nodes) == IntervalHazards(nodes)
  {
    forall i: nat, j: nat | i < j < |nodes| && NodesConflict(nodes[i], nodes[j])
      ensures NodesInterval(nodes[i], nodes[j])
    {
      var a, b, x: int :| a in nodes[i].accesses && b in nodes[j].accesses && ByteConflict(a, b, x);
      assert IntervalConflict(a, b);
    }
    if NonEmptyRanges(nodes) {
      forall i: nat, j: nat | i < j < |nodes| && NodesInterval(nodes[i], nodes[j])
        ensures NodesConflict(nodes[i], nodes[j])
      {
        var a, b :| a in nodes[i].accesses && b in nodes[j].accesses && IntervalConflict(a, b);
        assert ByteConflict(a, b, if a.off < b.off then b.off else a.off);
      }
    }
  }
}
