/** When the execution order can be trusted on graphs whose links may name missing nodes, as patches can leave them. */
module PlanVerdict {
  import opened Sequences
  import opened Digraph
  import opened GraphSchema
  import Kahn
  import opened FlowGraphRuntime

  /** The plan does what it promises: it lists exactly the nodes, each link source before its target. */
  ghost predicate PlanSucceeds(nodes: set<Id>, E: set<Edge>) {
    Plan(nodes, E).Ok? && ToSet(Plan(nodes, E).value) == nodes
  }

  /** The links that end at an existing node. */
  ghost function Into(nodes: set<Id>, E: set<Edge>): set<Edge> {
    set e | e in E && e.1 in nodes
  }

  predicate StartsOutside(nodes: set<Id>, E: set<Edge>, t: Id) {
    exists e :: e in E && e.1 == t && e.0 !in nodes
  }

  ghost function All(nodes: set<Id>, E: set<Edge>): set<Id> {
    nodes + set e | e in E :: e.1
  }

  /** What the queue loop leaves: an ascending listing of everything whose predecessors are listed. */
  lemma OrderFacts(nodes: set<Id>, E: set<Edge>)
    ensures var L := Kahn.Order(All(nodes, E), E);
            && NoDup(L) && ToSet(L) <= All(nodes, E) && PredecessorsFirst(E, L)
            && (forall v :: v in All(nodes, E) ==> (v in L <==> PredecessorsIn(E, v, ToSet(L))))
            && (PlanSucceeds(nodes, E) <==> ToSet(L) == nodes)
            && (Plan(nodes, E).Ok? ==> Plan(nodes, E).value == L)
  {
    var L := Kahn.Order(All(nodes, E), E);
    assert L + [] == L;
    NoDupCardinality(L);
  }

  lemma {:induction false} ListedAreNodes(nodes: set<Id>, E: set<Edge>, L: seq<Id>, j: nat)
    requires PredecessorsFirst(E, L) && j < |L|
    requires forall k :: 0 <= k < |L| && L[k] !in nodes ==> StartsOutside(nodes, E, L[k])
    ensures L[j] in nodes
    decreases j
  {
    if L[j] !in nodes {
      var e :| e in E && e.1 == L[j] && e.0 !in nodes;
      var i := PredecessorIndex(E, L, j, e);
      ListedAreNodes(nodes, E, L, i);
      assert false;
    }
  }

  lemma PredecessorIndex(E: set<Edge>, L: seq<Id>, j: nat, e: Edge) returns (i: nat)
    requires PredecessorsFirst(E, L) && j < |L| && e in E && e.1 == L[j]
    ensures i < j && L[i] == e.0
  {
    assert PredecessorsIn(E, L[j], ToSet(L[..j]));
    i :| 0 <= i < j && L[..j][i] == e.0;
  }

  /**
    * For links with any endpoints at all: the plan succeeds exactly when no link enters a node from a missing
    * one, the links into nodes form no cycle, and every missing target is also reached from a missing source.
    */
  lemma PlanSucceedsExactlyWhen(nodes: set<Id>, E: set<Edge>)
    ensures PlanSucceeds(nodes, E) <==>
            && (forall e :: e in E && e.1 in nodes ==> e.0 in nodes)
            && Acyclic(Into(nodes, E))
            && (forall e :: e in E && e.1 !in nodes ==> StartsOutside(nodes, E, e.1))
  {
    OrderFacts(nodes, E);
    var L := Kahn.Order(All(nodes, E), E);
    if PlanSucceeds(nodes, E) {
      SuccessMeans(nodes, E, L);
    }
    if && (forall e :: e in E && e.1 in nodes ==> e.0 in nodes) && Acyclic(Into(nodes, E))
       && (forall e :: e in E && e.1 !in nodes ==> StartsOutside(nodes, E, e.1)) {
      SuccessFollows(nodes, E, L);
    }
  }

  lemma SuccessMeans(nodes: set<Id>, E: set<Edge>, L: seq<Id>)
    requires NoDup(L) && ToSet(L) == nodes && PredecessorsFirst(E, L)
    requires forall v :: v in All(nodes, E) ==> (v in L <==> PredecessorsIn(E, v, ToSet(L)))
    ensures forall e :: e in E && e.1 in nodes ==> e.0 in nodes
    ensures Acyclic(Into(nodes, E))
    ensures forall e :: e in E && e.1 !in nodes ==> StartsOutside(nodes, E, e.1)
  {
    assert forall v :: v in L <==> v in nodes;
    forall e | e in E
      ensures e.1 in nodes ==> e.0 in nodes
      ensures e.1 !in nodes ==> StartsOutside(nodes, E, e.1)
    {
      assert e.1 in All(nodes, E);
    }
    assert PredecessorsFirst(Into(nodes, E), L);
    ListingImpliesAcyclic(Into(nodes, E), L);
  }

  lemma SuccessFollows(nodes: set<Id>, E: set<Edge>, L: seq<Id>)
    requires ToSet(L) <= All(nodes, E) && PredecessorsFirst(E, L)
    requires forall v :: v in All(nodes, E) ==> (v in L <==> PredecessorsIn(E, v, ToSet(L)))
    requires forall e :: e in E && e.1 in nodes ==> e.0 in nodes
    requires Acyclic(Into(nodes, E))
    requires forall e :: e in E && e.1 !in nodes ==> StartsOutside(nodes, E, e.1)
    ensures ToSet(L) == nodes
  {
    forall v | v in L
      ensures v in nodes
    {
      var j :| 0 <= j < |L| && L[j] == v;
      forall k | 0 <= k < |L| && L[k] !in nodes
        ensures StartsOutside(nodes, E, L[k])
      {
        assert L[k] in ToSet(L) && L[k] in All(nodes, E);
      }
      ListedAreNodes(nodes, E, L, j);
    }
    var rest := nodes - ToSet(L);
    forall v | v in rest
      ensures HasPredecessorIn(Into(nodes, E), v, rest)
    {
      assert v in All(nodes, E) && v !in L;
      var e :| e in E && e.1 == v && e.0 !in ToSet(L);
      assert (e.0, v) in Into(nodes, E);
    }
    if rest != {} {
      var c := PredecessorsInsideGiveCycle(Into(nodes, E), rest);
      assert false;
    }
    assert forall v :: v in nodes ==> v !in rest ==> v in ToSet(L);
  }

  /** When every link has a source, the plan succeeds exactly on acyclic graphs without missing targets. */
  lemma WithSourcesPlanSucceedsExactlyWhen(nodes: set<Id>, E: set<Edge>)
    requires forall e :: e in E ==> e.0 in nodes
    ensures PlanSucceeds(nodes, E) <==> Acyclic(E) && forall e :: e in E ==> e.1 in nodes
  {
    PlanSucceedsExactlyWhen(nodes, E);
    assert (forall e :: e in E ==> e.1 in nodes) ==> Into(nodes, E) == E;
  }

  /**
    * The cycle search reports exactly the cycles in reach of a node. With all sources present that is every cycle,
    * and its verdict differs from the order's exactly on acyclic graphs with a missing target.
    */
  lemma WithSourcesVerdictsDifferExactlyWhen(nodes: set<Id>, E: set<Edge>)
    requires forall e :: e in E ==> e.0 in nodes
    ensures CycleInReach(E, nodes) <==> !Acyclic(E)
    ensures (PlanSucceeds(nodes, E) <==> CycleInReach(E, nodes)) <==> Acyclic(E) && exists e :: e in E && e.1 !in nodes
  {
    WithSourcesPlanSucceedsExactlyWhen(nodes, E);
    forall p | IsCycle(E, p)
      ensures CycleInReach(E, nodes)
    {
      assert StepAt(E, p, 0);
      assert (p[0], p[1]).0 in nodes;
      ReachesItself(E, p[0]);
    }
  }

  /** A self-loop and a link to a missing node: a cyclic graph passes, with a node left out and a missing one listed. */
  lemma MissingTargetHidesCycle(a: Id, b: Id, c: Id, E: set<Edge>)
    requires a != b && c !in {a, b} && E == {(a, a), (b, c)}
    ensures !Acyclic(E) && CycleInReach(E, {a, b}) && Plan({a, b}, E).Ok?
    ensures a !in Plan({a, b}, E).value && c in Plan({a, b}, E).value
  {
    var nodes := {a, b};
    SelfLoopIsCycle(E, a);
    WithSourcesVerdictsDifferExactlyWhen(nodes, E);
    AllThree(a, b, c, E);
    OrderFacts(nodes, E);
    var L := Kahn.Order(All(nodes, E), E);
    OthersListed(E, All(nodes, E), L, a, b, c);
    TwoListed(L, a, b, c);
  }

  lemma OthersListed(E: set<Edge>, all: set<Id>, L: seq<Id>, a: Id, b: Id, c: Id)
    requires E == {(a, a), (b, c)} && a != b && c != a && c != b
    requires forall v :: v in all <==> v == a || v == b || v == c
    requires NoDup(L) && PredecessorsFirst(E, L)
    requires forall v :: v in all ==> (v in L <==> PredecessorsIn(E, v, ToSet(L)))
    ensures a !in L && b in L && c in L
  {
    SelfLoopIsNotListed(E, L, a);
    assert PredecessorsIn(E, b, ToSet(L));
    ListedPair(E, L, b, c);
  }

  lemma SelfLoopIsCycle(E: set<Edge>, a: Id)
    requires (a, a) in E
    ensures !Acyclic(E)
  {
    var p := [a, a];
    assert StepAt(E, p, 0);
    assert IsCycle(E, p);
  }

  lemma AllThree(a: Id, b: Id, c: Id, E: set<Edge>)
    requires E == {(a, a), (b, c)}
    ensures forall v :: v in All({a, b}, E) <==> v == a || v == b || v == c
  {
    assert (b, c) in E;
  }

  lemma ListedPair(E: set<Edge>, L: seq<Id>, b: Id, c: Id)
    requires forall e :: e in E && e.1 != e.0 ==> e == (b, c)
    requires PredecessorsIn(E, b, ToSet(L)) ==> b in L
    requires PredecessorsIn(E, c, ToSet(L)) ==> c in L
    requires (b, b) !in E && (c, c) !in E
    ensures b in L && c in L
  {
    assert forall e :: e in E && e.1 == b ==> e == (b, b) || e == (b, c);
    assert PredecessorsIn(E, b, ToSet(L));
    assert b in ToSet(L);
    assert forall e :: e in E && e.1 == c ==> e == (c, c) || e == (b, c);
  }

  lemma TwoListed(L: seq<Id>, a: Id, b: Id, c: Id)
    requires NoDup(L) && a !in L && b in L && c in L && b != c && a != b
    requires forall v :: v in L ==> v == a || v == b || v == c
    ensures |L| == |{a, b}|
  {
    assert ToSet(L) == {b, c};
    NoDupCardinality(L);
  }

  lemma SelfLoopIsNotListed(E: set<Edge>, L: seq<Id>, a: Id)
    requires NoDup(L) && PredecessorsFirst(E, L) && (a, a) in E
    ensures a !in L
  {
    forall j | 0 <= j < |L|
      ensures L[j] != a
    {
      assert PredecessorsIn(E, L[j], ToSet(L[..j]));
    }
  }

  /** A link whose source does not exist makes an acyclic graph look cyclic. */
  lemma MissingSourceLooksCyclic(a: Id, c: Id, E: set<Edge>)
    requires a != c && E == {(c, a)}
    ensures Acyclic(E) && Plan({a}, E).Err?
  {
    OneLinkIsAcyclic(a, c, E);
    OrderFacts({a}, E);
    assert (c, a) in E;
    var L := Kahn.Order(All({a}, E), E);
    assert ToSet(L) <= {a};
    assert !PredecessorsIn(E, a, ToSet(L));
    assert ToSet(L) == {};
    EmptyToSet(L);
  }

  lemma OneLinkIsAcyclic(a: Id, c: Id, E: set<Edge>)
    requires a != c && E == {(c, a)}
    ensures Acyclic(E)
  {
    var L := [c, a];
    assert ToSet(L[..1]) == {c} by {
      assert L[..1] == [c];
    }
    ListingImpliesAcyclic(E, L);
  }
}
