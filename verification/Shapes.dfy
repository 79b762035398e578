/** Extents, strides and coordinates: row-major order, and the addresses a strided view reads. */
module Shapes {
  import opened Arith

  type Shape = seq<nat>

  /** How many values a shape holds. */
  function Elements(s: Shape): nat {
    if s == [] then 1 else s[0] * Elements(s[1..])
  }

  ghost predicate Positive(s: Shape) {
    forall i :: 0 <= i < |s| ==> s[i] > 0
  }

  /** A coordinate of a shape. */
  ghost predicate Within(c: seq<nat>, s: Shape) {
    |c| == |s| && forall i :: 0 <= i < |s| ==> c[i] < s[i]
  }

  function Dot(c: seq<nat>, st: seq<nat>): nat
    requires |c| == |st|
  {
    if c == [] then 0 else c[0] * st[0] + Dot(c[1..], st[1..])
  }

  /** The densely packed strides: suffix products. */
  function Packed(s: Shape): (st: seq<nat>)
    ensures |st| == |s|
  {
    if s == [] then [] else [Elements(s[1..])] + Packed(s[1..])
  }

  /** A coordinate's place in row-major order. */
  function Linear(s: Shape, c: seq<nat>): nat
    requires |c| == |s|
  {
    if s == [] then 0 else c[0] * Elements(s[1..]) + Linear(s[1..], c[1..])
  }

  /** The k-th coordinate in row-major order. */
  ghost function Coord(s: Shape, k: nat): (c: seq<nat>)
    requires k < Elements(s)
    ensures Within(c, s)
    ensures Linear(s, c) == k
  {
    if s == [] then []
    else
      var n := Elements(s[1..]);
      ProductPositive(s[0], n);
      QuotientBelow(k, s[0], n);
      var rest := Coord(s[1..], k % n);
      [k / n] + rest
  }

  lemma ProductPositive(a: nat, b: nat)
    ensures a * b > 0 <==> a > 0 && b > 0
  {
  }

  lemma QuotientBelow(k: nat, d: nat, n: nat)
    requires k < d * n && n > 0
    ensures k / n < d && k % n < n && k == k / n * n + k % n
  {
    var q := k / n;
    assert k == q * n + k % n;
    MulLeast(q - d + 1, n);
    assert (q - d + 1) * n == q * n - d * n + n;
  }

  lemma {:induction false} ElementsPositive(s: Shape)
    requires Positive(s)
    ensures Elements(s) > 0
  {
    if s != [] {
      ElementsPositive(s[1..]);
      ProductPositive(s[0], Elements(s[1..]));
    }
  }

  /** A coordinate's place is below the element count. */
  lemma {:induction false} LinearBelow(s: Shape, c: seq<nat>)
    requires Within(c, s)
    ensures Linear(s, c) < Elements(s)
  {
    if s != [] {
      var n := Elements(s[1..]);
      assert Within(c[1..], s[1..]);
      LinearBelow(s[1..], c[1..]);
      assert (c[0] + 1) * n == c[0] * n + n;
      ProductMonotone(c[0] + 1, s[0], n);
    }
  }

  lemma ProductMonotone(a: nat, b: nat, n: nat)
    requires a <= b
    ensures a * n <= b * n
  {
    assert b * n == a * n + (b - a) * n;
  }

  /** Different coordinates have different places. */
  lemma {:induction false} LinearInjective(s: Shape, c: seq<nat>, d: seq<nat>)
    requires Within(c, s) && Within(d, s) && Linear(s, c) == Linear(s, d)
    ensures c == d
  {
    if s != [] {
      var n := Elements(s[1..]);
      assert Within(c[1..], s[1..]) && Within(d[1..], s[1..]);
      LinearBelow(s[1..], c[1..]);
      LinearBelow(s[1..], d[1..]);
      DivModUnique(Linear(s, c), n, c[0], Linear(s[1..], c[1..]));
      DivModUnique(Linear(s, d), n, d[0], Linear(s[1..], d[1..]));
      LinearInjective(s[1..], c[1..], d[1..]);
      assert c == [c[0]] + c[1..] && d == [d[0]] + d[1..];
    }
  }

  /** Packed strides address in row-major order. */
  lemma {:induction false} PackedIsLinear(s: Shape, c: seq<nat>)
    requires |c| == |s|
    ensures Dot(c, Packed(s)) == Linear(s, c)
  {
    if s != [] {
      PackedIsLinear(s[1..], c[1..]);
    }
  }

  lemma {:induction false} PackedAt(s: Shape, i: nat)
    requires i < |s|
    ensures Packed(s)[i] == Elements(s[i + 1..])
  {
    if i > 0 {
      PackedAt(s[1..], i - 1);
      assert s[1..][i..] == s[i + 1..];
    }
  }

  /** The suffix products, computed from the last axis inwards. */
  method Contiguous(s: Shape) returns (st: seq<nat>)
    ensures st == Packed(s)
  {
    st := [];
    var n := 1;
    for i := |s| downto 0
      invariant st == Packed(s[i..]) && n == Elements(s[i..])
    {
      assert s[i..][1..] == s[i + 1..];
      st := [n] + st;
      n := n * s[i];
    }
    assert s[0..] == s;
  }

  /** The element count, as the running product the code takes. */
  method Count(s: Shape) returns (n: nat)
    ensures n == Elements(s)
  {
    n := 1;
    for i := 0 to |s|
      invariant n * Elements(s[i..]) == Elements(s)
    {
      assert s[i..][1..] == s[i + 1..];
      ProductReassociate(n, s[i], Elements(s[i + 1..]));
      n := n * s[i];
    }
    assert s[0..] == s && s[|s|..] == [];
  }

  lemma ProductReassociate(a: nat, b: nat, c: nat)
    ensures a * (b * c) == (a * b) * c
  {
  }
}
