/** What a finished recording means: which nodes use a transient, and which accesses are legal. */
module Recording {
  import opened Accesses

  /** A slot's declared extent in bytes and the access every use of it must fit in. */
  datatype SlotDescriptor = SlotDescriptor(limit: nat, mode: Mode)

  predicate CoveredBy(use: Mode, declared: Mode) {
    declared == ReadWrite || use == declared
  }

  predicate Uses(n: Node, t: nat) {
    exists a :: a in n.accesses && a.res == Temp(t)
  }

  predicate WritesTo(n: Node, t: nat) {
    exists a :: a in n.accesses && a.res == Temp(t) && a.Writes()
  }

  lemma WritingIsUsing(n: Node, t: nat)
    ensures WritesTo(n, t) ==> Uses(n, t)
  {
  }

  /** The nodes touching transient t, in record order. */
  ghost function UsersOf(nodes: seq<Node>, t: nat): seq<nat> {
    if nodes == [] then []
    else
      var n := |nodes| - 1;
      if Uses(nodes[n], t) then UsersOf(nodes[..n], t) + [n] else UsersOf(nodes[..n], t)
  }

  lemma {:induction false} UsersOfExact(nodes: seq<Node>, t: nat)
    ensures forall u: int :: u in UsersOf(nodes, t) <==> 0 <= u < |nodes| && Uses(nodes[u], t)
    ensures forall j, k :: 0 <= j < k < |UsersOf(nodes, t)| ==> UsersOf(nodes, t)[j] < UsersOf(nodes, t)[k]
  {
    if nodes != [] {
      var n := |nodes| - 1;
      UsersOfExact(nodes[..n], t);
      var init := UsersOf(nodes[..n], t);
      assert forall j :: 0 <= j < |init| ==> init[j] in init;
    }
  }

  /** The first node writing transient t, or -1. */
  ghost function FirstWriter(nodes: seq<Node>, t: nat): int {
    if nodes == [] then -1
    else
      var n := |nodes| - 1;
      var init := FirstWriter(nodes[..n], t);
      if init >= 0 then init else if WritesTo(nodes[n], t) then n else -1
  }

  lemma {:induction false} FirstWriterExact(nodes: seq<Node>, t: nat)
    ensures var w := FirstWriter(nodes, t);
            && -1 <= w < |nodes| && (w >= 0 ==> WritesTo(nodes[w], t))
            && forall u :: 0 <= u < |nodes| && WritesTo(nodes[u], t) ==> 0 <= w <= u
  {
    if nodes != [] {
      FirstWriterExact(nodes[..|nodes| - 1], t);
    }
  }

  /** An access a recording call accepted: inside its transient, or inside its slot's declaration. */
  ghost predicate Legal(a: Access, sizes: seq<nat>, slots: seq<SlotDescriptor>) {
    match a.res
    case Temp(t) => t < |sizes| && a.off + a.size <= sizes[t]
    case SlotRef(s) => s <= |slots| && a.off + a.size <= slots[s - 1].limit && CoveredBy(a.mode, slots[s - 1].mode)
    case _ => true
  }

  ghost predicate LegalNodes(nodes: seq<Node>, sizes: seq<nat>, slots: seq<SlotDescriptor>) {
    forall i, a :: 0 <= i < |nodes| && a in nodes[i].accesses ==> Legal(a, sizes, slots)
  }

  /** A transient's bookkeeping agrees with the nodes recorded so far. */
  ghost predicate Described(users: seq<nat>, writer: int, first: int, last: int, nodes: seq<Node>, t: nat) {
    && users == UsersOf(nodes, t)
    && writer == FirstWriter(nodes, t)
    && first == (if users == [] then -1 else users[0])
    && last == (if users == [] then -1 else users[|users| - 1])
  }

  lemma LegalMore(nodes: seq<Node>, sizes: seq<nat>, slots: seq<SlotDescriptor>, sizes': seq<nat>,
      slots': seq<SlotDescriptor>)
    requires LegalNodes(nodes, sizes, slots)
    requires sizes <= sizes' && slots <= slots'
    ensures LegalNodes(nodes, sizes', slots')
  {
    forall i, a | 0 <= i < |nodes| && a in nodes[i].accesses
      ensures Legal(a, sizes', slots')
    {
      assert Legal(a, sizes, slots);
    }
  }

  /** `after` is `before` with one more access declared by its last node. */
  ghost predicate OneMore(before: seq<Node>, after: seq<Node>, a: Access) {
    && |before| == |after| > 0
    && before[..|before| - 1] == after[..|before| - 1]
    && after[|before| - 1].accesses == before[|before| - 1].accesses + [a]
  }

  /** One more access of the node being recorded changes a transient's users only if it names it. */
  lemma UsersOfTouch(before: seq<Node>, after: seq<Node>, a: Access, t: nat)
    requires OneMore(before, after, a)
    ensures var id := |before| - 1; var users := UsersOf(before, t);
            && UsersOf(after, t) == (if a.res == Temp(t) && id !in users then users + [id] else users)
            && FirstWriter(after, t) ==
               (if a.res == Temp(t) && a.Writes() && FirstWriter(before, t) < 0 then id else FirstWriter(before, t))
  {
    UsersOfExact(before[..|before| - 1], t);
    var id := |before| - 1;
    assert Uses(after[id], t) <==> Uses(before[id], t) || a.res == Temp(t);
    assert WritesTo(after[id], t) <==> WritesTo(before[id], t) || (a.res == Temp(t) && a.Writes());
  }

  lemma UsersOfOpened(nodes: seq<Node>, t: nat)
    ensures UsersOf(nodes + [Node([])], t) == UsersOf(nodes, t)
    ensures FirstWriter(nodes + [Node([])], t) == FirstWriter(nodes, t)
  {
    assert (nodes + [Node([])])[..|nodes|] == nodes;
  }

  lemma {:induction false} UsersOfNone(nodes: seq<Node>, t: nat)
    requires forall i :: 0 <= i < |nodes| ==> !Uses(nodes[i], t)
    ensures UsersOf(nodes, t) == [] && FirstWriter(nodes, t) == -1
  {
    if nodes != [] {
      UsersOfNone(nodes[..|nodes| - 1], t);
      WritingIsUsing(nodes[|nodes| - 1], t);
    }
  }

  /** Touching a transient once more: the new bookkeeping describes the longer access list. */
  lemma TouchStep(users: seq<nat>, writer: int, first: int, last: int, before: seq<Node>, after: seq<Node>, a: Access,
      t: nat)
    requires OneMore(before, after, a) && Described(users, writer, first, last, before, t)
    ensures a.res != Temp(t) ==> Described(users, writer, first, last, after, t)
    ensures a.res == Temp(t) ==>
              var id := |before| - 1;
              Described(
                if |users| == 0 || users[|users| - 1] != id then users + [id] else users,
                if a.Writes() && writer < 0 then id else writer,
                if first < 0 then id else first,
                id, after, t)
  {
    UsersOfTouch(before, after, a, t);
    UsersOfExact(before, t);
    var id := |before| - 1;
    if id in users {
      var j :| 0 <= j < |users| && users[j] == id;
      assert users[|users| - 1] in users;
    } else if users != [] {
      assert users[|users| - 1] in users;
    }
  }
}
