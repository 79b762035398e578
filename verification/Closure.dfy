/** Strict transitive closure of a relation between record-order positions.

    Every dependency in a command graph runs from a lower position to a higher one, so the
    closure is defined over forward pairs only and its recursion is on the distance covered. */
module Closure {
  type Rel = set<(nat, nat)>

  ghost predicate Reach(e: Rel, a: nat, b: nat)
    decreases b - a
  {
    a < b && ((a, b) in e || exists m: nat :: a < m < b && (a, m) in e && Reach(e, m, b))
  }

  ghost predicate Forward(e: Rel) {
    forall p :: p in e ==> p.0 < p.1
  }

  lemma {:induction false} ReachTransitive(e: Rel, a: nat, b: nat, c: nat)
    requires Reach(e, a, b) && Reach(e, b, c)
    ensures Reach(e, a, c)
    decreases b - a
  {
    if (a, b) in e {
    } else {
      var m: nat :| a < m < b && (a, m) in e && Reach(e, m, b);
      ReachTransitive(e, m, b, c);
    }
  }

  /** If every pair of `e` is connected in `f`, so is everything `e` connects. */
  lemma {:induction false} ReachLift(e: Rel, f: Rel, a: nat, b: nat)
    requires forall p :: p in e && p.0 < p.1 ==> Reach(f, p.0, p.1)
    requires Reach(e, a, b)
    ensures Reach(f, a, b)
    decreases b - a
  {
    if (a, b) in e {
      assert Reach(f, (a, b).0, (a, b).1);
    } else {
      var m: nat :| a < m < b && (a, m) in e && Reach(e, m, b);
      assert Reach(f, (a, m).0, (a, m).1);
      ReachLift(e, f, m, b);
      ReachTransitive(f, a, m, b);
    }
  }

  /** More edges connect no less. */
  lemma ReachMore(e: Rel, f: Rel, a: nat, b: nat)
    requires e <= f && Reach(e, a, b)
    ensures Reach(f, a, b)
  {
    ReachLift(e, f, a, b);
  }

  /** A path leaves its start along one edge. */
  lemma {:induction false} ReachFirst(e: Rel, a: nat, b: nat) returns (m: nat)
    requires Reach(e, a, b)
    ensures a < m <= b && (a, m) in e && (m == b || Reach(e, m, b))
  {
    if (a, b) in e {
      m := b;
    } else {
      m :| a < m < b && (a, m) in e && Reach(e, m, b);
    }
  }
}
