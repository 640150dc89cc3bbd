/**
  Reachability over an arbitrary edge relation: the vocabulary in which the
  graph walks of this project (components, inheritance, includes, package
  requirements) are specified.
 */
module Reachability {

  /** p is a walk along edge from a to b; the one-node walk is allowed. */
  ghost predicate IsPath<T(!new)>(edge: (T, T) -> bool, p: seq<T>, a: T, b: T) {
    && |p| > 0 && p[0] == a && p[|p| - 1] == b
    && forall k | 0 <= k < |p| - 1 :: edge(p[k], p[k + 1])
  }

  ghost predicate Reaches<T(!new)>(edge: (T, T) -> bool, a: T, b: T) {
    exists p: seq<T> :: IsPath(edge, p, a, b)
  }

  /** Reachability by at least one edge: a cycle through a is ReachesPlus(edge, a, a). */
  ghost predicate ReachesPlus<T(!new)>(edge: (T, T) -> bool, a: T, b: T) {
    exists m: T :: edge(a, m) && Reaches(edge, m, b)
  }

  lemma ReachesSelf<T(!new)>(edge: (T, T) -> bool, a: T)
    ensures Reaches(edge, a, a)
  {
    assert IsPath(edge, [a], a, a);
  }

  lemma ReachesEdge<T(!new)>(edge: (T, T) -> bool, a: T, b: T)
    requires edge(a, b)
    ensures Reaches(edge, a, b)
  {
    assert IsPath(edge, [a, b], a, b);
  }

  lemma ReachesTrans<T(!new)>(edge: (T, T) -> bool, a: T, b: T, c: T)
    requires Reaches(edge, a, b) && Reaches(edge, b, c)
    ensures Reaches(edge, a, c)
  {
    var p :| IsPath(edge, p, a, b);
    var q :| IsPath(edge, q, b, c);
    var r := p + q[1..];
    forall k | 0 <= k < |r| - 1
      ensures edge(r[k], r[k + 1])
    {
      if k >= |p| - 1 {
        assert r[k] == q[k - (|p| - 1)] && r[k + 1] == q[k + 1 - (|p| - 1)];
      }
    }
    assert IsPath(edge, r, a, c);
  }

  lemma ReachesThenEdge<T(!new)>(edge: (T, T) -> bool, a: T, b: T, c: T)
    requires Reaches(edge, a, b) && edge(b, c)
    ensures Reaches(edge, a, c)
  {
    ReachesEdge(edge, b, c);
    ReachesTrans(edge, a, b, c);
  }

  lemma EdgeThenReaches<T(!new)>(edge: (T, T) -> bool, a: T, b: T, c: T)
    requires edge(a, b) && Reaches(edge, b, c)
    ensures Reaches(edge, a, c)
  {
    ReachesEdge(edge, a, b);
    ReachesTrans(edge, a, b, c);
  }

  /** A nonempty walk starts with an edge. */
  lemma ReachesFirstStep<T(!new)>(edge: (T, T) -> bool, a: T, b: T)
    requires Reaches(edge, a, b)
    ensures a == b || ReachesPlus(edge, a, b)
  {
    var p :| IsPath(edge, p, a, b);
    if |p| > 1 {
      assert IsPath(edge, p[1..], p[1], b);
      assert edge(a, p[1]) && Reaches(edge, p[1], b);
    }
  }

  lemma PathOfReachesPlus<T(!new)>(edge: (T, T) -> bool, a: T, b: T) returns (p: seq<T>)
    requires ReachesPlus(edge, a, b)
    ensures IsPath(edge, p, a, b) && |p| > 1
  {
    var m :| edge(a, m) && Reaches(edge, m, b);
    var q :| IsPath(edge, q, m, b);
    p := [a] + q;
    assert forall k | 1 <= k < |p| :: p[k] == q[k - 1];
  }

  /** A set that no edge leaves contains everything reachable from it. */
  lemma {:induction false} ClosedUnderReach<T(!new)>(edge: (T, T) -> bool, s: iset<T>, a: T, b: T)
    requires a in s && Reaches(edge, a, b)
    requires forall x, y | x in s && edge(x, y) :: y in s
    ensures b in s
  {
    var p :| IsPath(edge, p, a, b);
    StaysInside(edge, s, p, |p| - 1);
  }

  lemma {:induction false} StaysInside<T(!new)>(edge: (T, T) -> bool, s: iset<T>, p: seq<T>, k: nat)
    requires k < |p| && p[0] in s && IsPath(edge, p, p[0], p[|p| - 1])
    requires forall x, y | x in s && edge(x, y) :: y in s
    ensures p[k] in s
  {
    if k > 0 {
      StaysInside(edge, s, p, k - 1);
      assert edge(p[k - 1], p[k - 1 + 1]);
    }
  }
}
