/** Half-open byte ranges: ordering them, finding the first byte they miss, and finding the
    lowest aligned place they leave free. */
module Ranges {
  import opened Arith

  datatype ByteRange = ByteRange(lo: int, hi: int)

  ghost predicate SortedByLo(s: seq<ByteRange>) {
    forall i, j :: 0 <= i < j < |s| ==> s[i].lo <= s[j].lo
  }

  ghost predicate SomeCovers(s: seq<ByteRange>, x: int) {
    exists r :: r in s && r.lo <= x < r.hi
  }

  /** Sorting by lower bound; the library sort the planner calls, as an insertion sort. */
  method SortByLo(have: seq<ByteRange>) returns (s: seq<ByteRange>)
    ensures SortedByLo(s) && multiset(s) == multiset(have)
    ensures forall r :: r in s <==> r in have
  {
    s := [];
    for i := 0 to |have|
      invariant SortedByLo(s) && multiset(s) == multiset(have[..i])
    {
      var k := InsertionPoint(s, have[i]);
      InsertedSorted(s, k, have[i]);
      InsertedSame(s, k, have[i]);
      PrefixMore(have, i);
      s := Inserted(s, k, have[i]);
    }
    assert have[..|have|] == have;
    SameMembers(s, have);
  }

  /** Where a range goes in a sorted list: after every range that starts no later. */
  method InsertionPoint(s: seq<ByteRange>, r: ByteRange) returns (k: nat)
    ensures k <= |s| && (k > 0 ==> s[k - 1].lo <= r.lo) && (k < |s| ==> r.lo < s[k].lo)
  {
    k := |s|;
    while k > 0 && s[k - 1].lo > r.lo
      invariant k <= |s| && (k < |s| ==> r.lo < s[k].lo)
    {
      k := k - 1;
    }
  }

  lemma PrefixMore(have: seq<ByteRange>, i: nat)
    requires i < |have|
    ensures multiset(have[..i + 1]) == multiset(have[..i]) + multiset{have[i]}
  {
    assert have[..i + 1] == have[..i] + [have[i]];
  }

  lemma SameMembers(s: seq<ByteRange>, t: seq<ByteRange>)
    requires multiset(s) == multiset(t)
    ensures forall r :: r in s <==> r in t
  {
    assert forall r :: r in s <==> r in multiset(s);
    assert forall r :: r in t <==> r in multiset(t);
  }

  function Inserted(s: seq<ByteRange>, k: nat, r: ByteRange): (t: seq<ByteRange>)
    requires k <= |s|
    ensures |t| == |s| + 1 && t[k] == r && t[..k] == s[..k] && t[k + 1..] == s[k..]
  {
    s[..k] + [r] + s[k..]
  }

  lemma InsertedSorted(s: seq<ByteRange>, k: nat, r: ByteRange)
    requires SortedByLo(s) && k <= |s|
    requires k > 0 ==> s[k - 1].lo <= r.lo
    requires k < |s| ==> r.lo < s[k].lo
    ensures SortedByLo(Inserted(s, k, r))
  {
    var t := Inserted(s, k, r);
    forall i | 0 <= i < k
      ensures t[i] == s[i] && t[i].lo <= r.lo
    {
      assert s[i].lo <= s[k - 1].lo;
    }
    forall i | k < i < |t|
      ensures t[i] == s[i - 1] && r.lo <= t[i].lo
    {
      assert t[i] == t[k + 1..][i - k - 1];
    }
    forall i, j | 0 <= i < j < |t|
      ensures t[i].lo <= t[j].lo
    {
      if i < k < j {
        assert t[i].lo <= r.lo <= t[j].lo;
      }
    }
  }

  lemma InsertedSame(s: seq<ByteRange>, k: nat, r: ByteRange)
    requires k <= |s|
    ensures multiset(Inserted(s, k, r)) == multiset(s) + multiset{r}
  {
    assert s == s[..k] + s[k..];
  }

  /** Once the ranges before i end by `at` and the next one begins past it, none covers it. */
  lemma GapFound(have: seq<ByteRange>, sorted: seq<ByteRange>, i: nat, at: int)
    requires multiset(sorted) == multiset(have) && SortedByLo(sorted) && i <= |sorted|
    requires forall j :: 0 <= j < i ==> sorted[j].hi <= at
    requires i < |sorted| ==> at < sorted[i].lo
    ensures !SomeCovers(have, at)
  {
    forall r | r in have
      ensures !(r.lo <= at < r.hi)
    {
      assert r in multiset(sorted);
      var j :| 0 <= j < |sorted| && sorted[j] == r;
      assert j > i ==> sorted[i].lo <= sorted[j].lo;
    }
  }

  /** The first part of `want` that no range of `have` covers. */
  method FirstGap(want: ByteRange, have: seq<ByteRange>) returns (gap: ByteRange, ok: bool)
    requires want.lo <= want.hi
    ensures ok <==> forall x :: want.lo <= x < want.hi ==> SomeCovers(have, x)
    ensures !ok ==>
              && want.lo <= gap.lo < gap.hi == want.hi && !SomeCovers(have, gap.lo)
              && forall x :: want.lo <= x < gap.lo ==> SomeCovers(have, x)
  {
    var sorted := SortByLo(have);
    var at := want.lo;
    var i := 0;
    while i < |sorted|
      invariant 0 <= i <= |sorted| && want.lo <= at
      invariant forall x :: want.lo <= x < at ==> SomeCovers(have, x)
      invariant forall j :: 0 <= j < i ==> sorted[j].hi <= at
    {
      var h := sorted[i];
      if h.lo > at {
        break;
      }
      assert h in have;
      if h.hi > at {
        at := h.hi;
      }
      if at >= want.hi {
        return ByteRange(0, 0), true;
      }
      i := i + 1;
    }
    if at >= want.hi {
      return ByteRange(0, 0), true;
    }
    GapFound(have, sorted, i, at);
    return ByteRange(at, want.hi), false;
  }

  /** A candidate [at, at + size) runs into range o. */
  predicate Meets(at: int, size: int, o: ByteRange) {
    at < o.hi && o.lo < at + size
  }

  /** The lowest aligned offset at which `size` bytes meet none of the occupied ranges. */
  method LowestFree(occupied: seq<ByteRange>, align: nat, size: nat) returns (at: nat)
    requires forall o :: o in occupied ==> 0 <= o.lo <= o.hi && Aligned(o.hi, align)
    ensures Aligned(at, align)
    ensures forall o :: o in occupied ==> !Meets(at, size, o)
    ensures forall c: nat :: c < at && Aligned(c, align) ==> exists o :: o in occupied && Meets(c, size, o)
    ensures at == 0 || exists o :: o in occupied && at == o.hi
  {
    var sorted := SortByLo(occupied);
    at := 0;
    for i := 0 to |sorted|
      invariant Aligned(at, align)
      invariant forall j :: 0 <= j < i ==> sorted[j].hi <= at
      invariant forall c: nat :: c < at && Aligned(c, align) ==> exists o :: o in occupied && Meets(c, size, o)
      invariant at == 0 || exists o :: o in occupied && at == o.hi
    {
      var o := sorted[i];
      assert o in occupied;
      if at + size <= o.lo {
        forall r | r in occupied
          ensures !Meets(at, size, r)
        {
          assert r in sorted;
          var j :| 0 <= j < |sorted| && sorted[j] == r;
        }
        return;
      }
      AlignUpLeast(o.hi, align, 0);
      var up := AlignUp(o.hi, align);
      forall c: nat | at <= c < up && Aligned(c, align)
        ensures Meets(c, size, o)
      {
        AlignUpLeast(o.hi, align, c);
      }
      if up > at {
        at := up;
      }
    }
    forall r | r in occupied
      ensures !Meets(at, size, r)
    {
      assert r in sorted;
      var j :| 0 <= j < |sorted| && sorted[j] == r;
    }
  }
}
