/** Where declared bytes live once transients are placed and slots are bound, and why the hazards
    inferred against names still cover every physical conflict. */
module Resolution {
  import opened Closure
  import opened Accesses
  import opened Binding
  import opened Execution
  import opened Packing
  import opened Recording

  ghost function Resolve(homes: seq<Placement>, bound: Bindings, l: Loc): Addr {
    match l.res
    case Temp(t) => PoolByte((if t < |homes| then homes[t].offset else 0) + l.at)
    case Buf(b) => BufferByte(b, l.at)
    case Tex(x) => TextureByte(x, l.at)
    case SlotRef(s) =>
      if s <= |bound| && bound[s - 1].Some? then BufferByte(bound[s - 1].value.buf, bound[s - 1].value.off + l.at)
      else UnboundByte(s, l.at)
  }

  /** Where every declared byte lives, given the homes of the transients and what the slots are bound to. */
  ghost function Addressing(homes: seq<Placement>, bound: Bindings): Loc -> Addr {
    l => Resolve(homes, bound, l)
  }

  /** Each transient's home is large enough and lists its users; homes sharing bytes belong to
      transients whose users are all ordered one way. */
  ghost predicate HomesSafe(nodes: seq<Node>, e: Rel, sizes: seq<nat>, homes: seq<Placement>) {
    && |homes| == |sizes|
    && (forall t: nat :: t < |homes| ==> homes[t].size >= sizes[t] && homes[t].users == UsersOf(nodes, t))
    && HomesApart(e, homes)
  }

  lemma TouchingAccess(n: Node, l: Loc) returns (a: Access)
    requires TouchesLoc(n, l)
    ensures a in n.accesses && a.res == l.res && a.off <= l.at < a.off + a.size
    ensures WritesLoc(n, l) ==> a.Writes()
  {
    if WritesLoc(n, l) {
      a :| a in n.accesses && a.Writes() && a.res == l.res && a.Touches(l.at);
    } else {
      a :| a in n.accesses && a.IsRead() && a.res == l.res && a.Touches(l.at);
    }
  }

  /** A touched byte of a transient lies inside the transient. */
  lemma TransientTouch(nodes: seq<Node>, sizes: seq<nat>, slots: seq<SlotDescriptor>, i: nat, l: Loc)
    requires LegalNodes(nodes, sizes, slots) && i < |nodes| && TouchesLoc(nodes[i], l) && l.res.Temp?
    ensures l.res.t < |sizes| && 0 <= l.at < sizes[l.res.t]
  {
    var a := TouchingAccess(nodes[i], l);
    assert Legal(a, sizes, slots);
  }

  /** Whoever touches a byte of a transient is one of its users. */
  lemma TouchersAreUsers(nodes: seq<Node>, i: nat, l: Loc)
    requires i < |nodes| && TouchesLoc(nodes[i], l) && l.res.Temp?
    ensures i in UsersOf(nodes, l.res.t)
  {
    var a := TouchingAccess(nodes[i], l);
    UsersOfExact(nodes, l.res.t);
  }

  lemma TransientsShareSafely(nodes: seq<Node>, e: Rel, sizes: seq<nat>, slots: seq<SlotDescriptor>,
      homes: seq<Placement>, k: nat, l: Loc, m: Loc)
    requires LegalNodes(nodes, sizes, slots) && HomesSafe(nodes, e, sizes, homes)
    requires k < |nodes| && WritesLoc(nodes[k], m) && l != m && l.res.Temp? && m.res.Temp?
    requires Resolve(homes, [], l) == Resolve(homes, [], m)
    ensures Clear(nodes, e, k, l)
  {
    TransientTouch(nodes, sizes, slots, k, m);
    TouchersAreUsers(nodes, k, m);
    if Touched(nodes, l) {
      var i: nat :| i < |nodes| && TouchesLoc(nodes[i], l);
      TransientTouch(nodes, sizes, slots, i, l);
      var t, u := l.res.t, m.res.t;
      assert t != u;
      assert if t < u then PairApart(e, homes, t, u) else PairApart(e, homes, u, t);
      assert Compatible(e, homes[t].users, homes[u].users);
      forall j: nat | j < |nodes| && TouchesLoc(nodes[j], l)
        ensures j in homes[t].users
      {
        TouchersAreUsers(nodes, j, l);
      }
    }
  }

  /** A touched caller byte reached through a buffer lies in one of the graph's spans on that buffer,
      a writing one if the byte is written. */
  ghost predicate ReachedBy(nodes: seq<Node>, bound: Bindings, l: Loc, c: ByteSpan) {
    match l.res
    case Buf(b) => ConcreteSpan(nodes, c) && c.buf == b && c.lo <= l.at < c.hi
    case SlotRef(s) =>
      && s <= |bound| && bound[s - 1].Some? && c == SlotSpanAt(nodes, bound, s - 1)
      && c.lo <= bound[s - 1].value.off + l.at < c.hi
    case _ => false
  }

  lemma BufferTouch(nodes: seq<Node>, sizes: seq<nat>, slots: seq<SlotDescriptor>, bound: Bindings, i: nat, l: Loc)
    returns (c: ByteSpan)
    requires LegalNodes(nodes, sizes, slots) && WideEnough(slots, bound) && i < |nodes| && TouchesLoc(nodes[i], l)
    requires l.res.Buf? || (l.res.SlotRef? && l.res.slot <= |bound| && bound[l.res.slot - 1].Some?)
    ensures ReachedBy(nodes, bound, l, c)
    ensures WritesLoc(nodes[i], l) ==> c.write
  {
    var a := TouchingAccess(nodes[i], l);
    assert Legal(a, sizes, slots);
    if l.res.Buf? {
      c := ByteSpan(a.res.id, a.off, a.off + a.size, a.Writes());
      assert SpanOfAccess(a, c) && NodeSpan(nodes[i], c);
    } else {
      c := SlotSpanAt(nodes, bound, l.res.slot - 1);
    }
  }

  /** Two names of one buffer byte are never both touched when either is written. */
  lemma NamesApart(nodes: seq<Node>, bound: Bindings, l: Loc, m: Loc, c: ByteSpan, d: ByteSpan)
    requires BindingsSafe(nodes, bound) && l != m && !l.res.Temp? && Resolve([], bound, l) == Resolve([], bound, m)
    requires ReachedBy(nodes, bound, l, c) && ReachedBy(nodes, bound, m, d)
    ensures !c.write && !d.write
  {
    if l.res.SlotRef? {
      assert SlotClear(nodes, bound, l.res.slot - 1);
    }
    if m.res.SlotRef? {
      assert SlotClear(nodes, bound, m.res.slot - 1);
    }
  }

  lemma CallerBytesNamedOnce(nodes: seq<Node>, sizes: seq<nat>, slots: seq<SlotDescriptor>, bound: Bindings, k: nat,
      l: Loc, m: Loc)
    requires LegalNodes(nodes, sizes, slots) && WideEnough(slots, bound) && BindingsSafe(nodes, bound)
    requires l != m && !l.res.Temp? && Resolve([], bound, l) == Resolve([], bound, m)
    requires k < |nodes| && WritesLoc(nodes[k], m)
    ensures !Touched(nodes, l)
  {
    if Touched(nodes, l) {
      var i: nat :| i < |nodes| && TouchesLoc(nodes[i], l);
      var c := BufferTouch(nodes, sizes, slots, bound, i, l);
      var d := BufferTouch(nodes, sizes, slots, bound, k, m);
      NamesApart(nodes, bound, l, m, c, d);
      assert false;
    }
  }

  /** A node writing another name of a byte: a transient's users it stays clear of, and no node touches a
      caller's byte under the other name. */
  lemma SharerClear(nodes: seq<Node>, e: Rel, sizes: seq<nat>, slots: seq<SlotDescriptor>,
    homes: seq<Placement>, bound: Bindings, k: nat, l: Loc, m: Loc)
    requires LegalNodes(nodes, sizes, slots) && HomesSafe(nodes, e, sizes, homes)
    requires WideEnough(slots, bound) && BindingsSafe(nodes, bound)
    requires k < |nodes| && WritesLoc(nodes[k], m) && l != m && Resolve(homes, bound, l) == Resolve(homes, bound, m)
    ensures if l.res.Temp? then Clear(nodes, e, k, l) else !Touched(nodes, l)
  {
    if l.res.Temp? {
      TransientsShareSafely(nodes, e, sizes, slots, homes, k, l, m);
    } else {
      CallerBytesNamedOnce(nodes, sizes, slots, bound, k, l, m);
    }
  }

  /** Placement and binding together share memory safely. */
  lemma ResolvedSharingSafe(nodes: seq<Node>, e: Rel, sizes: seq<nat>, slots: seq<SlotDescriptor>,
    homes: seq<Placement>, bound: Bindings)
    requires LegalNodes(nodes, sizes, slots) && HomesSafe(nodes, e, sizes, homes)
    requires WideEnough(slots, bound) && BindingsSafe(nodes, bound)
    ensures SharingSafe(nodes, e, Addressing(homes, bound))
  {
    forall k: nat, l: Loc, m: Loc | k < |nodes| && l != m && Resolve(homes, bound, l) == Resolve(homes, bound, m)
                                    && WritesLoc(nodes[k], m)
      ensures if l.res.Temp? then Clear(nodes, e, k, l) else !Touched(nodes, l)
    {
      SharerClear(nodes, e, sizes, slots, homes, bound, k, l, m);
    }
  }

  /** After placement and binding, two nodes meeting at one physical byte that one of them writes are
      ordered by the edges inferred against names; a caller's byte they even name the same way. */
  lemma BoundConflictsOrdered(nodes: seq<Node>, e: Rel, sizes: seq<nat>, slots: seq<SlotDescriptor>,
    homes: seq<Placement>, bound: Bindings, i: nat, j: nat, l: Loc, m: Loc)
    requires LegalNodes(nodes, sizes, slots) && HomesSafe(nodes, e, sizes, homes)
    requires WideEnough(slots, bound) && BindingsSafe(nodes, bound) && ConflictsOrdered(nodes, e)
    requires i < j < |nodes| && TouchesLoc(nodes[i], l) && TouchesLoc(nodes[j], m)
    requires WritesLoc(nodes[i], l) || WritesLoc(nodes[j], m)
    requires Resolve(homes, bound, l) == Resolve(homes, bound, m)
    ensures Reach(e, i, j) && (!l.res.Temp? ==> l == m)
  {
    if l == m {
      if WritesLoc(nodes[i], l) {
        WritersConflict(nodes[i], nodes[j], l);
      } else {
        WritersConflict(nodes[j], nodes[i], l);
      }
    } else {
      SharersOrdered(nodes, e, sizes, slots, homes, bound, i, j, l, m);
    }
  }

  /** Two names of one byte: only transients share one, and then their users are ordered. */
  lemma SharersOrdered(nodes: seq<Node>, e: Rel, sizes: seq<nat>, slots: seq<SlotDescriptor>,
    homes: seq<Placement>, bound: Bindings, i: nat, j: nat, l: Loc, m: Loc)
    requires LegalNodes(nodes, sizes, slots) && HomesSafe(nodes, e, sizes, homes)
    requires WideEnough(slots, bound) && BindingsSafe(nodes, bound)
    requires i < j < |nodes| && TouchesLoc(nodes[i], l) && TouchesLoc(nodes[j], m) && l != m
    requires WritesLoc(nodes[i], l) || WritesLoc(nodes[j], m)
    requires Resolve(homes, bound, l) == Resolve(homes, bound, m)
    ensures Reach(e, i, j) && l.res.Temp?
  {
    assert Touched(nodes, l) && Touched(nodes, m);
    if WritesLoc(nodes[i], l) {
      SharerClear(nodes, e, sizes, slots, homes, bound, i, m, l);
      assert Clear(nodes, e, i, m);
    } else {
      SharerClear(nodes, e, sizes, slots, homes, bound, j, l, m);
      assert Clear(nodes, e, j, l);
    }
  }
}
