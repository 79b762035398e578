/** One class's free list: doubly linked, pushed at the front, unlinked anywhere. */
module FreeLists {
  import opened Cells

  ghost predicate Unlike(l: seq<Block>, i: nat, j: nat)
    requires i < |l| && j < |l|
  {
    l[i] != l[j]
  }

  ghost predicate NoRepeats(l: seq<Block>) {
    forall i: nat, j: nat :: i < j < |l| ==> Unlike(l, i, j)
  }

  function First(l: seq<Block>): Block? {
    if l == [] then null else l[0]
  }

  ghost predicate ChainAt(l: seq<Block>, i: nat)
    requires i < |l|
    reads l`prevFree, l`nextFree
  {
    && l[i].prevFree == (if i == 0 then null else l[i - 1])
    && l[i].nextFree == (if i + 1 < |l| then l[i + 1] else null)
  }

  /** The blocks of l are linked in both directions, in this order. */
  ghost predicate Chain(l: seq<Block>)
    reads l`prevFree, l`nextFree
  {
    forall i: nat :: i < |l| ==> ChainAt(l, i)
  }

  ghost function Without(l: seq<Block>, k: nat): seq<Block>
    requires k < |l|
  {
    l[..k] + l[k + 1..]
  }

  lemma WithoutMembers(l: seq<Block>, k: nat)
    requires k < |l| && NoRepeats(l)
    ensures NoRepeats(Without(l, k)) && forall b :: b in Without(l, k) <==> b in l && b != l[k]
  {
    var w := Without(l, k);
    forall i: nat, j: nat | i < j < |w|
      ensures Unlike(w, i, j)
    {
      assert Unlike(l, if i < k then i else i + 1, if j < k then j else j + 1);
    }
    forall b
      ensures b in w <==> b in l && b != l[k]
    {
      if b in w {
        var i: nat :| i < |w| && w[i] == b;
        assert if i < k then Unlike(l, i, k) else Unlike(l, k, i + 1);
      }
      if b in l && b != l[k] {
        var i: nat :| i < |l| && l[i] == b;
        assert w[if i < k then i else i - 1] == b;
      }
    }
  }

  lemma PushedMembers(l: seq<Block>, b: Block)
    requires b !in l && NoRepeats(l)
    ensures NoRepeats([b] + l) && forall x :: x in [b] + l <==> x in l || x == b
  {
    forall i: nat, j: nat | i < j < |l| + 1
      ensures Unlike([b] + l, i, j)
    {
      assert i > 0 ==> Unlike(l, i - 1, j - 1);
    }
  }

  /** Links b in front of the list whose first block is `first`. */
  method PushFront(b: Block, first: Block?, ghost l: seq<Block>)
    requires Chain(l) && NoRepeats(l) && First(l) == first && b !in l
    modifies b`prevFree, b`nextFree, l`prevFree
    ensures Chain([b] + l)
  {
    assert forall i: nat {:trigger l[i]} :: i < |l| ==> ChainAt(l, i);
    b.prevFree := null;
    b.nextFree := first;
    if first != null {
      first.prevFree := b;
    }
    forall i: nat | i < |l| + 1
      ensures ChainAt([b] + l, i)
    {
      if i > 0 {
        assert i > 1 ==> Unlike(l, 0, i - 1);
        assert old(ChainAt(l, i - 1));
      }
    }
  }

  /** Unlinks b, the k-th block of the list, and returns the new first block. */
  method Unlink(b: Block, first: Block?, ghost l: seq<Block>, ghost k: nat) returns (first': Block?)
    requires Chain(l) && NoRepeats(l) && First(l) == first && k < |l| && l[k] == b
    modifies l`prevFree, l`nextFree
    ensures Chain(Without(l, k)) && first' == First(Without(l, k))
    ensures b.prevFree == null && b.nextFree == null
  {
    assert ChainAt(l, k) && (k > 0 ==> ChainAt(l, k - 1)) && (k + 1 < |l| ==> ChainAt(l, k + 1));
    first' := first;
    if b.prevFree != null {
      b.prevFree.nextFree := b.nextFree;
    } else {
      first' := b.nextFree;
    }
    if b.nextFree != null {
      b.nextFree.prevFree := b.prevFree;
    }
    b.prevFree, b.nextFree := null, null;
    ghost var w := Without(l, k);
    forall i: nat | i < |w|
      ensures ChainAt(w, i)
    {
      var j := if i < k then i else i + 1;
      assert w[i] == l[j] && old(ChainAt(l, j));
      assert j < k ==> Unlike(l, j, k);
      assert j > k ==> Unlike(l, k, j);
      assert j + 1 < k ==> Unlike(l, j, k - 1);
      assert j > k && k > 0 ==> Unlike(l, k - 1, j);
      assert j < k && k + 1 < |l| ==> Unlike(l, j, k + 1);
      assert j > k + 1 ==> Unlike(l, k + 1, j);
    }
  }
}
