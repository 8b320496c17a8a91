/** Finite directed graphs: walks, cycles and listings that rule cycles out. */
module Digraph {
  import opened Sequences

  type Vertex = nat
  type Edge = (Vertex, Vertex)

  predicate StepAt(E: set<Edge>, p: seq<Vertex>, i: int)
    requires 0 <= i < |p| - 1
  {
    (p[i], p[i + 1]) in E
  }

  predicate IsWalk(E: set<Edge>, p: seq<Vertex>) {
    |p| >= 1 && forall i :: 0 <= i < |p| - 1 ==> StepAt(E, p, i)
  }

  predicate IsCycle(E: set<Edge>, p: seq<Vertex>) {
    |p| >= 2 && IsWalk(E, p) && p[0] == p[|p| - 1]
  }

  /** A closed walk whose only repeated vertex is first = last. */
  predicate IsSimpleCycle(E: set<Edge>, p: seq<Vertex>) {
    IsCycle(E, p) && NoDup(p[..|p| - 1])
  }

  ghost predicate Acyclic(E: set<Edge>) {
    forall p :: !IsCycle(E, p)
  }

  ghost predicate Reaches(E: set<Edge>, u: Vertex, v: Vertex) {
    exists p :: IsWalk(E, p) && p[0] == u && p[|p| - 1] == v
  }

  /** Some vertex of `V` reaches a cycle. */
  ghost predicate CycleInReach(E: set<Edge>, V: set<Vertex>) {
    exists u, p :: u in V && IsCycle(E, p) && Reaches(E, u, p[0])
  }

  lemma ReachesItself(E: set<Edge>, v: Vertex)
    ensures Reaches(E, v, v)
  {
    assert IsWalk(E, [v]) && [v][0] == v;
  }

  ghost predicate PredecessorsIn(E: set<Edge>, v: Vertex, S: set<Vertex>) {
    forall e :: e in E && e.1 == v ==> e.0 in S
  }

  ghost predicate SuccessorsIn(E: set<Edge>, v: Vertex, S: set<Vertex>) {
    forall e :: e in E && e.0 == v ==> e.1 in S
  }

  /** Every predecessor of a listed vertex is listed strictly before it. */
  ghost predicate PredecessorsFirst(E: set<Edge>, L: seq<Vertex>) {
    forall j :: 0 <= j < |L| ==> PredecessorsIn(E, L[j], ToSet(L[..j]))
  }

  /** Every successor of a listed vertex is listed strictly before it. */
  ghost predicate SuccessorsFirst(E: set<Edge>, L: seq<Vertex>) {
    forall j :: 0 <= j < |L| ==> SuccessorsIn(E, L[j], ToSet(L[..j]))
  }

  lemma SubWalk(E: set<Edge>, p: seq<Vertex>, lo: nat, hi: nat)
    requires IsWalk(E, p) && lo < hi <= |p|
    ensures IsWalk(E, p[lo..hi])
  {
    var q := p[lo..hi];
    forall i | 0 <= i < |q| - 1
      ensures StepAt(E, q, i)
    {
      assert StepAt(E, p, lo + i);
    }
  }

  lemma {:induction false} WalkIntoListed(E: set<Edge>, L: seq<Vertex>, p: seq<Vertex>, j: nat) returns (i: nat)
    requires PredecessorsFirst(E, L) && IsWalk(E, p) && |p| >= 2
    requires j < |L| && p[|p| - 1] == L[j]
    ensures i < j && p[0] == L[i]
    decreases |p|
  {
    var n := |p| - 2;
    assert StepAt(E, p, n);
    var e := (p[n], p[n + 1]);
    assert e in E && e.1 == L[j];
    assert PredecessorsIn(E, L[j], ToSet(L[..j]));
    assert e.0 in ToSet(L[..j]);
    i :| 0 <= i < j && L[i] == p[n];
    if n > 0 {
      SubWalk(E, p, 0, n + 1);
      i := WalkIntoListed(E, L, p[..n + 1], i);
    }
  }

  lemma {:induction false} WalkOutOfListed(E: set<Edge>, L: seq<Vertex>, p: seq<Vertex>, j: nat) returns (i: nat)
    requires SuccessorsFirst(E, L) && IsWalk(E, p) && |p| >= 2
    requires j < |L| && p[0] == L[j]
    ensures i < j && p[|p| - 1] == L[i]
    decreases |p|
  {
    assert StepAt(E, p, 0);
    var e := (p[0], p[1]);
    assert e in E && e.0 == L[j];
    assert SuccessorsIn(E, L[j], ToSet(L[..j]));
    assert e.1 in ToSet(L[..j]);
    i :| 0 <= i < j && L[i] == p[1];
    if |p| > 2 {
      SubWalk(E, p, 1, |p|);
      assert p[1..] == p[1..|p|];
      i := WalkOutOfListed(E, L, p[1..], i);
    }
  }

  lemma AppendListed(E: set<Edge>, L: seq<Vertex>, v: Vertex)
    requires SuccessorsFirst(E, L) && SuccessorsIn(E, v, ToSet(L))
    ensures SuccessorsFirst(E, L + [v])
  {
    var f := L + [v];
    forall j | 0 <= j < |f|
      ensures SuccessorsIn(E, f[j], ToSet(f[..j]))
    {
      assert f[..j] == L[..j];
      if j == |L| {
        assert L[..j] == L;
      }
    }
  }

  lemma NoCycleThroughListed(E: set<Edge>, L: seq<Vertex>, p: seq<Vertex>)
    requires NoDup(L) && (PredecessorsFirst(E, L) || SuccessorsFirst(E, L))
    requires IsCycle(E, p)
    ensures p[0] !in L
  {
    if p[0] in L {
      var j :| 0 <= j < |L| && L[j] == p[0];
      if PredecessorsFirst(E, L) {
        var i := WalkIntoListed(E, L, p, j);
      } else {
        var i := WalkOutOfListed(E, L, p, j);
      }
      assert false;
    }
  }

  /** From what is listed with successors first no cycle is reached. */
  lemma NoCycleInReachOfListed(E: set<Edge>, L: seq<Vertex>, V: set<Vertex>)
    requires NoDup(L) && SuccessorsFirst(E, L) && forall v :: v in V ==> v in L
    ensures !CycleInReach(E, V)
  {
    if u, c :| u in V && IsCycle(E, c) && Reaches(E, u, c[0]) {
      var p :| IsWalk(E, p) && p[0] == u && p[|p| - 1] == c[0];
      var j :| 0 <= j < |L| && L[j] == u;
      if |p| >= 2 {
        var i := WalkOutOfListed(E, L, p, j);
      }
      NoCycleThroughListed(E, L, c);
      assert false;
    }
  }

  /** A listing of every edge source, predecessors (or successors) first, rules out every cycle. */
  lemma ListingImpliesAcyclic(E: set<Edge>, L: seq<Vertex>)
    requires NoDup(L) && (PredecessorsFirst(E, L) || SuccessorsFirst(E, L))
    requires forall e :: e in E ==> e.0 in L
    ensures Acyclic(E)
  {
    forall p
      ensures !IsCycle(E, p)
    {
      if IsCycle(E, p) {
        assert StepAt(E, p, 0);
        assert (p[0], p[1]).0 in L;
        NoCycleThroughListed(E, L, p);
        assert false;
      }
    }
  }

  ghost predicate HasPredecessorIn(E: set<Edge>, v: Vertex, S: set<Vertex>) {
    exists u :: u in S && (u, v) in E
  }

  ghost predicate EachHasPredecessorInside(E: set<Edge>, S: set<Vertex>) {
    forall v {:trigger HasPredecessorIn(E, v, S)} :: v in S ==> HasPredecessorIn(E, v, S)
  }

  lemma ExtendWalk(E: set<Edge>, p: seq<Vertex>, v: Vertex)
    requires IsWalk(E, p) && (p[|p| - 1], v) in E
    ensures IsWalk(E, p + [v])
  {
    var q := p + [v];
    forall i | 0 <= i < |q| - 1
      ensures StepAt(E, q, i)
    {
      if i < |p| - 1 {
        assert StepAt(E, p, i);
      }
    }
  }

  lemma {:induction false} WalkBack(E: set<Edge>, S: set<Vertex>, v: Vertex, n: nat) returns (p: seq<Vertex>)
    requires EachHasPredecessorInside(E, S) && v in S
    ensures |p| == n + 1 && IsWalk(E, p) && p[n] == v
    ensures forall i :: 0 <= i < |p| ==> p[i] in S
    decreases n
  {
    if n == 0 {
      p := [v];
    } else {
      assert HasPredecessorIn(E, v, S);
      var u :| u in S && (u, v) in E;
      var q := WalkBack(E, S, u, n - 1);
      ExtendWalk(E, q, v);
      p := q + [v];
    }
  }

  lemma Pigeonhole(S: set<Vertex>, p: seq<Vertex>) returns (i: nat, j: nat)
    requires |p| > |S| && forall i :: 0 <= i < |p| ==> p[i] in S
    ensures i < j < |p| && p[i] == p[j]
  {
    if forall i, j :: 0 <= i < j < |p| ==> p[i] != p[j] {
      NoDupCardinality(p);
      SubsetCardinality(ToSet(p), S);
      assert false;
    }
    i, j :| 0 <= i < j < |p| && p[i] == p[j];
  }

  /** In a finite graph, walking predecessors for ever must close a cycle. */
  lemma PredecessorsInsideGiveCycle(E: set<Edge>, S: set<Vertex>) returns (c: seq<Vertex>)
    requires S != {} && EachHasPredecessorInside(E, S)
    ensures IsCycle(E, c) && forall k :: 0 <= k < |c| ==> c[k] in S
  {
    var v :| v in S;
    var p := WalkBack(E, S, v, |S|);
    var i, j := Pigeonhole(S, p);
    SubWalk(E, p, i, j + 1);
    c := p[i..j + 1];
  }
}
