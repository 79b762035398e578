/** The recorder: accumulates declared accesses and keeps every transient's users up to date. */
module Recorders {
  import opened Accesses
  import opened Options
  import opened Recording

  /** A builder-owned intermediate. Its users are known once recording ends; its offset in the
      graph's pool is assigned when the graph is built. */
  class Transient {
    const bytes: nat
    var first: int
    var last: int
    var users: seq<nat>
    var writer: int
    var offset: nat
    var placed: bool

    constructor (bytes: nat)
      requires bytes > 0
      ensures this.bytes == bytes && !placed
      ensures first == -1 && last == -1 && users == [] && writer == -1
    {
      this.bytes := bytes;
      first, last, users, writer := -1, -1, [], -1;
      offset, placed := 0, false;
    }

    /** This transient is number t of a recording whose nodes are `nodes`. */
    ghost predicate Describes(nodes: seq<Node>, t: nat)
      reads `users, `writer, `first, `last
    {
      bytes > 0 && Described(users, writer, first, last, nodes, t)
    }

    /** Its packing tie break: the first writer, else the first user, else zero. */
    function FirstWriterOrUser(): int
      reads `users, `writer
    {
      if writer >= 0 then writer else if |users| > 0 then users[0] else 0
    }
  }

  /** The tie break, from the recording: the first node to write the transient, if any does, or else the first
      to use it. */
  lemma TieExactly(t: Transient, nodes: seq<Node>, k: nat)
    requires t.Describes(nodes, k)
    ensures var tie := t.FirstWriterOrUser();
            if exists n :: 0 <= n < |nodes| && WritesTo(nodes[n], k) then
              0 <= tie < |nodes| && WritesTo(nodes[tie], k) && forall n :: 0 <= n < tie ==> !WritesTo(nodes[n], k)
            else if exists n :: 0 <= n < |nodes| && Uses(nodes[n], k) then
              0 <= tie < |nodes| && Uses(nodes[tie], k) && forall n :: 0 <= n < tie ==> !Uses(nodes[n], k)
            else tie == 0
  {
    FirstWriterExact(nodes, k);
    UsersOfExact(nodes, k);
    if t.users != [] {
      assert t.users[0] in t.users;
      assert forall j :: 0 <= j < |t.users| ==> t.users[0] <= t.users[j];
    }
  }

  function Sizes(transients: seq<Transient>): (r: seq<nat>)
    ensures |r| == |transients|
    ensures forall t :: 0 <= t < |r| ==> r[t] == transients[t].bytes
  {
    seq(|transients|, t requires 0 <= t < |transients| => transients[t].bytes)
  }

  ghost predicate Differ(transients: seq<Transient>, i: nat, j: nat)
    requires i < |transients| && j < |transients|
  {
    transients[i] != transients[j]
  }

  ghost predicate Distinct(transients: seq<Transient>) {
    forall i: nat, j: nat :: i < j < |transients| ==> Differ(transients, i, j)
  }

  /** A transient occurs once in a distinct list. */
  lemma OccursOnce(transients: seq<Transient>, i: nat)
    requires Distinct(transients) && i < |transients|
    ensures transients[i] !in transients[..i]
    ensures forall j: nat :: j < |transients| && j != i ==> transients[j] != transients[i]
  {
    forall j: nat | j < |transients| && j != i
      ensures transients[j] != transients[i]
    {
      assert if j < i then Differ(transients, j, i) else Differ(transients, i, j);
    }
  }

  lemma DistinctMore(transients: seq<Transient>, t: Transient)
    requires Distinct(transients) && t !in transients
    ensures Distinct(transients + [t])
  {
    forall i: nat, j: nat | i < j < |transients| + 1
      ensures Differ(transients + [t], i, j)
    {
      assert j < |transients| ==> Differ(transients, i, j);
    }
  }

  /** Every transient's bookkeeping describes the recording. */
  ghost predicate DescribeAll(transients: seq<Transient>, nodes: seq<Node>)
    reads transients`users, transients`writer, transients`first, transients`last
  {
    forall t: nat {:trigger transients[t].Describes(nodes, t)} :: t < |transients| ==> transients[t].Describes(nodes, t)
  }

  lemma DescribeOpened(transients: seq<Transient>, nodes: seq<Node>)
    requires DescribeAll(transients, nodes)
    ensures DescribeAll(transients, nodes + [Node([])])
  {
    forall t: nat | t < |transients|
      ensures transients[t].Describes(nodes + [Node([])], t)
    {
      assert transients[t].Describes(nodes, t);
      UsersOfOpened(nodes, t);
    }
  }

  class Recorder {
    var nodes: seq<Node>
    var slots: seq<SlotDescriptor>
    var transients: seq<Transient>
    var errs: nat
    var built: bool

    ghost predicate Valid()
      reads `nodes, `slots, `transients, transients`users, transients`writer, transients`first, transients`last
    {
      && Distinct(transients)
      && DescribeAll(transients, nodes)
      && LegalNodes(nodes, Sizes(transients), slots)
    }

    constructor ()
      ensures Valid() && nodes == [] && slots == [] && transients == [] && errs == 0 && !built
    {
      nodes, slots, transients, errs, built := [], [], [], 0, false;
    }

    /** Declares a rebindable slot of at least `limit` bytes, unless the recording is already built. */
    method Slot(minCount: int, width: nat, mode: Mode) returns (s: Option<SlotId>)
      requires Valid()
      modifies this`slots, this`errs
      ensures Valid()
      ensures built ==> s == None && slots == old(slots) && errs == old(errs) + 1
      ensures !built ==> s == Some(|slots|) && |slots| == |old(slots)| + 1 && slots[..|old(slots)|] == old(slots)
      ensures !built ==> slots[|old(slots)|] == SlotDescriptor(if minCount < 0 then 0 else minCount * width, mode)
      ensures !built ==> errs == old(errs) + (if minCount < 0 then 1 else 0) + (if width == 0 then 1 else 0)
    {
      if built {
        errs := errs + 1;
        return None;
      }
      var count := minCount;
      if count < 0 {
        errs := errs + 1;
        count := 0;
      }
      if width == 0 {
        errs := errs + 1;
      }
      var slot := SlotDescriptor(count * width, mode);
      LegalMore(nodes, Sizes(transients), slots, Sizes(transients), slots + [slot]);
      slots := slots + [slot];
      s := Some(|slots|);
    }

    /** Declares a transient; a byte count that is not positive, or a recording already built, is an
        error for Build. */
    method NewTransient(bytes: int) returns (r: Option<nat>)
      requires Valid()
      modifies this`transients, this`errs
      ensures Valid()
      ensures built || bytes <= 0 ==> r == None && errs == old(errs) + 1 && transients == old(transients)
      ensures !built && bytes > 0 ==>
                && r == Some(|old(transients)|) && errs == old(errs)
                && |transients| == |old(transients)| + 1 && transients[..|old(transients)|] == old(transients)
                && fresh(transients[r.value]) && transients[r.value].bytes == bytes
    {
      if built || bytes <= 0 {
        errs := errs + 1;
        return None;
      }
      var t := new Transient(bytes);
      forall i, a | 0 <= i < |nodes| && a in nodes[i].accesses
        ensures a.res != Temp(|transients|)
      {
        assert Legal(a, Sizes(transients), slots);
      }
      UsersOfNone(nodes, |transients|);
      r := Some(|transients|);
      ghost var was := transients;
      DistinctMore(transients, t);
      LegalMore(nodes, Sizes(transients), slots, Sizes(transients + [t]), slots);
      transients := transients + [t];
      assert forall i :: 0 <= i < |was| ==> transients[i] == was[i];
    }

    /** An access to a byte range of a transient, refused outside the transient's bytes. */
    method DeclareTransient(t: nat, off: int, size: int, mode: Mode) returns (r: Option<Access>)
      requires Valid()
      modifies this`errs
      ensures Valid()
      ensures r.Some? <==> t < |transients| && off >= 0 && size >= 0 && off + size <= transients[t].bytes
      ensures r.Some? ==> r.value.res == Temp(t) && r.value.off == off && r.value.size == size && r.value.mode == mode
      ensures r.Some? ==> Legal(r.value, Sizes(transients), slots)
      ensures errs == old(errs) + (if r.Some? then 0 else 1)
    {
      if t >= |transients| || off < 0 || size < 0 || off > transients[t].bytes || size > transients[t].bytes - off {
        errs := errs + 1;
        return None;
      }
      r := Some(Access(Temp(t), off, size, mode));
    }

    /** A range of whatever will be bound to slot s, checked against what the slot declares. */
    method SlotAccess(s: SlotId, off: int, size: int, mode: Mode) returns (r: Option<Access>)
      requires Valid()
      modifies this`errs
      ensures Valid()
      ensures r.Some? <==>
                && s <= |slots| && off >= 0 && size >= 0 && off + size <= slots[s - 1].limit
                && (slots[s - 1].mode == ReadWrite || slots[s - 1].mode == mode)
      ensures r.Some? ==>
              r.value.res == SlotRef(s) && r.value.off == off && r.value.size == size && r.value.mode == mode
      ensures r.Some? ==> Legal(r.value, Sizes(transients), slots)
      ensures errs == old(errs) + (if r.Some? then 0 else 1)
    {
      if s > |slots| {
        errs := errs + 1;
        return None;
      }
      var d := slots[s - 1];
      if off < 0 || size < 0 || off > d.limit || size > d.limit - off || !CoveredBy(mode, d.mode) {
        errs := errs + 1;
        return None;
      }
      r := Some(Access(SlotRef(s), off, size, mode));
    }

    /** Appends a node and touches every access it is given. */
    method Record(accesses: seq<Access>) returns (id: nat)
      requires Valid()
      requires forall a :: a in accesses ==> Legal(a, Sizes(transients), slots)
      modifies this`nodes, transients
      ensures Valid()
      ensures nodes == old(nodes) + [Node(accesses)] && id == |old(nodes)|
      ensures forall t :: t in transients ==> t.offset == old(t.offset) && t.placed == old(t.placed)
    {
      id := |nodes|;
      ghost var before := nodes;
      DescribeOpened(transients, before);
      assert accesses[..0] == [];
      nodes := nodes + [Node(accesses)];
      for k := 0 to |accesses|
        invariant nodes == before + [Node(accesses)] && transients == old(transients)
        invariant DescribeAll(transients, before + [Node(accesses[..k])])
        invariant forall t :: t in transients ==> t.offset == old(t.offset) && t.placed == old(t.placed)
      {
        ghost var was := before + [Node(accesses[..k])];
        ghost var after := before + [Node(accesses[..k + 1])];
        assert OneMore(was, after, accesses[k]) by {
          assert accesses[..k + 1] == accesses[..k] + [accesses[k]];
          assert was[..|before|] == before == after[..|before|];
        }
        Touch(was, after, accesses[k]);
      }
      assert accesses[..|accesses|] == accesses;
    }

    /** Records that the node being recorded uses a transient, if that is what the access names. */
    method Touch(ghost was: seq<Node>, ghost after: seq<Node>, a: Access)
      requires Distinct(transients) && Legal(a, Sizes(transients), slots)
      requires OneMore(was, after, a) && |nodes| == |was|
      requires DescribeAll(transients, was)
      modifies transients
      ensures DescribeAll(transients, after)
      ensures forall t :: t in transients ==> t.offset == old(t.offset) && t.placed == old(t.placed)
    {
      var id := |nodes| - 1;
      forall j: nat | j < |transients| && a.res != Temp(j)
        ensures transients[j].Describes(after, j)
      {
        var t := transients[j];
        assert t.Describes(was, j);
        TouchStep(t.users, t.writer, t.first, t.last, was, after, a, j);
      }
      if !a.res.Temp? {
        return;
      }
      ghost var t := transients[a.res.t];
      assert t.Describes(was, a.res.t);
      TouchStep(t.users, t.writer, t.first, t.last, was, after, a, a.res.t);
      TouchNamed(transients[a.res.t], id, a.Writes());
      OccursOnce(transients, a.res.t);
    }

    /** The updates Touch makes to the one transient the access names. */
    static method TouchNamed(t: Transient, id: nat, writes: bool)
      modifies t`first, t`last, t`users, t`writer
      ensures t.users == (if |old(t.users)| == 0 || old(t.users)[|old(t.users)| - 1] != id then old(t.users) + [id]
                          else old(t.users))
      ensures t.writer == (if writes && old(t.writer) < 0 then id else old(t.writer))
      ensures t.first == (if old(t.first) < 0 then id else old(t.first))
      ensures t.last == id
    {
      if t.first < 0 {
        t.first := id;
      }
      t.last := id;
      if writes && t.writer < 0 {
        t.writer := id;
      }
      var n := |t.users|;
      if n == 0 || t.users[n - 1] != id {
        t.users := t.users + [id];
      }
    }
  }
}
