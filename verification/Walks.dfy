/** Walks and reachability over a finite relation, shared by the graph algorithms. */
module Walks {

  /** Consecutive nodes of a walk are joined by an edge; a single node is a walk of length zero. */
  ghost predicate IsWalk<T>(e: set<(T, T)>, p: seq<T>) {
    |p| > 0 && forall i :: 0 <= i < |p| - 1 ==> (p[i], p[i + 1]) in e
  }

  ghost predicate WalkFromTo<T>(e: set<(T, T)>, p: seq<T>, a: T, b: T) {
    IsWalk(e, p) && p[0] == a && p[|p| - 1] == b
  }

  ghost predicate Reach<T(!new)>(e: set<(T, T)>, a: T, b: T) {
    exists p :: WalkFromTo(e, p, a, b)
  }

  /** A closed walk uses at least one edge. */
  ghost predicate IsCycle<T>(e: set<(T, T)>, p: seq<T>) {
    |p| > 1 && IsWalk(e, p) && p[0] == p[|p| - 1]
  }

  ghost predicate Acyclic<T(!new)>(e: set<(T, T)>) {
    forall p: seq<T> :: !IsCycle(e, p)
  }

  lemma ReachSelf<T(!new)>(e: set<(T, T)>, a: T)
    ensures Reach(e, a, a)
  {
    assert WalkFromTo(e, [a], a, a);
  }

  lemma ReachTrans<T(!new)>(e: set<(T, T)>, a: T, b: T, c: T)
    requires Reach(e, a, b) && Reach(e, b, c)
    ensures Reach(e, a, c)
  {
    var p :| WalkFromTo(e, p, a, b);
    var q :| WalkFromTo(e, q, b, c);
    assert WalkFromTo(e, p + q[1..], a, c);
  }

  lemma ReachEdge<T(!new)>(e: set<(T, T)>, a: T, b: T)
    requires (a, b) in e
    ensures Reach(e, a, b)
  {
    assert WalkFromTo(e, [a, b], a, b);
  }

  /** A set closed under the relation contains everything its members reach. */
  lemma ReachStaysInside<T(!new)>(e: set<(T, T)>, inside: set<T>, a: T, b: T)
    requires forall x, y :: (x, y) in e && x in inside ==> y in inside
    requires a in inside && Reach(e, a, b)
    ensures b in inside
  {
    var p :| WalkFromTo(e, p, a, b);
    WalkStaysInside(e, inside, p, |p| - 1);
  }

  lemma {:induction false} WalkStaysInside<T>(e: set<(T, T)>, inside: set<T>, p: seq<T>, k: nat)
    requires forall x, y :: (x, y) in e && x in inside ==> y in inside
    requires IsWalk(e, p) && p[0] in inside && k < |p|
    ensures p[k] in inside
  {
    if k > 0 {
      WalkStaysInside(e, inside, p, k - 1);
      assert (p[k - 1], p[k - 1 + 1]) in e;
    }
  }

  /** An edge out of the end of a reachable path closes a cycle. */
  lemma ReachAndEdgeMakeCycle<T(!new)>(e: set<(T, T)>, a: T, b: T) returns (p: seq<T>)
    requires Reach(e, a, b) && (b, a) in e
    ensures IsCycle(e, p)
  {
    var q :| WalkFromTo(e, q, a, b);
    p := q + [a];
  }

  /** A rank that falls along every edge rules cycles out. */
  lemma FallingRankIsAcyclic<T(!new)>(e: set<(T, T)>, rank: map<T, int>)
    requires forall x, y :: (x, y) in e ==> x in rank && y in rank && rank[y] < rank[x]
    ensures Acyclic(e)
  {
    forall p: seq<T> ensures !IsCycle(e, p) {
      if IsCycle(e, p) {
        RankFallsAlongWalk(e, rank, p, |p| - 1);
      }
    }
  }

  lemma {:induction false} RankFallsAlongWalk<T>(e: set<(T, T)>, rank: map<T, int>, p: seq<T>, k: nat)
    requires forall x, y :: (x, y) in e ==> x in rank && y in rank && rank[y] < rank[x]
    requires IsWalk(e, p) && 0 < k < |p|
    ensures p[0] in rank && p[k] in rank && rank[p[k]] < rank[p[0]]
  {
    assert (p[k - 1], p[k - 1 + 1]) in e;
    if k > 1 {
      RankFallsAlongWalk(e, rank, p, k - 1);
    }
  }

  lemma SomeMember(s: set<int>)
    requires s != {}
    ensures exists x :: x in s
  {
    assert !(exists x :: x in s) ==> s == {};
  }
}
