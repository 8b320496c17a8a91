/** Kahn's algorithm as a function of the vertex set and the edge set alone. */
module Kahn {
  import opened Sequences
  import opened Digraph

  /** Vertices outside `seen` whose predecessors are all in `done`. */
  ghost function Ready(V: set<Vertex>, E: set<Edge>, done: set<Vertex>, seen: set<Vertex>): set<Vertex> {
    set t | t in V && t !in seen && PredecessorsIn(E, t, done)
  }

  /** What holds of the emitted order and the waiting queue between two iterations. */
  ghost predicate Frontier(V: set<Vertex>, E: set<Edge>, order: seq<Vertex>, queue: seq<Vertex>) {
    && NoDup(order + queue)
    && (forall v :: v in order + queue ==> v in V)
    && PredecessorsFirst(E, order)
    && (forall v :: v in V ==> (v in order + queue <==> PredecessorsIn(E, v, ToSet(order))))
  }

  ghost function Batch(V: set<Vertex>, E: set<Edge>, order: seq<Vertex>, queue: seq<Vertex>): seq<Vertex>
    requires queue != []
  {
    SortedSeq(Ready(V, E, ToSet(order + [queue[0]]), ToSet(order + queue)))
  }

  lemma BatchMembers(V: set<Vertex>, E: set<Edge>, order: seq<Vertex>, queue: seq<Vertex>, v: Vertex)
    requires queue != []
    ensures v in Batch(V, E, order, queue) <==>
            v in V && v !in order + queue && PredecessorsIn(E, v, ToSet(order + [queue[0]]))
  {
    var b := Batch(V, E, order, queue);
    assert v in b <==> v in ToSet(b);
  }

  lemma PredecessorsGrow(E: set<Edge>, v: Vertex, a: set<Vertex>, b: set<Vertex>)
    requires a <= b && PredecessorsIn(E, v, a)
    ensures PredecessorsIn(E, v, b)
  {
  }

  lemma ExtendListing(V: set<Vertex>, E: set<Edge>, order: seq<Vertex>, queue: seq<Vertex>)
    requires Frontier(V, E, order, queue) && queue != []
    ensures PredecessorsFirst(E, order + [queue[0]])
  {
    var order' := order + [queue[0]];
    assert queue[0] in order + queue;
    forall j | 0 <= j < |order'|
      ensures PredecessorsIn(E, order'[j], ToSet(order'[..j]))
    {
      if j < |order| {
        assert order'[..j] == order[..j];
      } else {
        assert order'[..j] == order;
      }
    }
  }

  lemma FrontierStep(V: set<Vertex>, E: set<Edge>, order: seq<Vertex>, queue: seq<Vertex>)
    requires Frontier(V, E, order, queue) && queue != []
    ensures Frontier(V, E, order + [queue[0]], queue[1..] + Batch(V, E, order, queue))
    ensures queue[0] in V && queue[0] !in order
  {
    var batch := Batch(V, E, order, queue);
    var order', queue' := order + [queue[0]], queue[1..] + batch;
    var all, all' := order + queue, order' + queue';
    assert all' == all + batch;
    assert all[|order|] == queue[0];
    assert forall i :: 0 <= i < |order| ==> order[i] == all[i];
    assert ToSet(order) <= ToSet(order');
    ExtendListing(V, E, order, queue);
    forall v
      ensures v in batch <==> v in V && v !in all && PredecessorsIn(E, v, ToSet(order'))
    {
      BatchMembers(V, E, order, queue, v);
    }
    forall v | v in V
      ensures v in all' <==> PredecessorsIn(E, v, ToSet(order'))
    {
      if v in all {
        PredecessorsGrow(E, v, ToSet(order), ToSet(order'));
      }
      assert v in all' <==> v in all || v in batch;
    }
    assert NoDup(all') by {
      assert NoDup(batch);
      forall i, j | 0 <= i < j < |all'|
        ensures all'[i] != all'[j]
      {
        if i < |all| <= j {
          assert all'[j] in batch && all'[i] in all;
        }
      }
    }
  }

  /** The main loop: emit the front of the queue, then append what it made ready. */
  ghost function Run(V: set<Vertex>, E: set<Edge>, order: seq<Vertex>, queue: seq<Vertex>): (r: seq<Vertex>)
    requires Frontier(V, E, order, queue)
    ensures Frontier(V, E, r, [])
    decreases V - ToSet(order)
  {
    if queue == [] then order else
    FrontierStep(V, E, order, queue);
    assert queue[0] in (V - ToSet(order)) - (V - ToSet(order + [queue[0]]));
    Run(V, E, order + [queue[0]], queue[1..] + Batch(V, E, order, queue))
  }

  lemma RunStep(V: set<Vertex>, E: set<Edge>, order: seq<Vertex>, queue: seq<Vertex>)
    requires Frontier(V, E, order, queue) && queue != []
    ensures var order', queue' := order + [queue[0]], queue[1..] + Batch(V, E, order, queue);
            && Frontier(V, E, order', queue')
            && Run(V, E, order, queue) == Run(V, E, order', queue')
            && V - ToSet(order') < V - ToSet(order)
  {
    FrontierStep(V, E, order, queue);
    assert queue[0] in (V - ToSet(order)) - (V - ToSet(order + [queue[0]]));
  }

  lemma SeedFrontier(V: set<Vertex>, E: set<Edge>)
    ensures Frontier(V, E, [], SortedSeq(Ready(V, E, {}, {})))
  {
    var q := SortedSeq(Ready(V, E, {}, {}));
    assert [] + q == q;
    assert forall v :: v in q <==> v in ToSet(q);
    assert ToSet<Vertex>([]) == {};
  }

  ghost function Order(V: set<Vertex>, E: set<Edge>): (r: seq<Vertex>)
    ensures Frontier(V, E, r, [])
  {
    SeedFrontier(V, E);
    Run(V, E, [], SortedSeq(Ready(V, E, {}, {})))
  }

  ghost predicate WellFormed(V: set<Vertex>, E: set<Edge>) {
    forall e :: e in E ==> e.0 in V && e.1 in V
  }

  /** Whatever is missing from the order has a predecessor that is missing too. */
  lemma LeftoverHasPredecessorInside(V: set<Vertex>, E: set<Edge>)
    requires WellFormed(V, E)
    ensures EachHasPredecessorInside(E, V - ToSet(Order(V, E)))
  {
    var L := Order(V, E);
    var rest := V - ToSet(L);
    assert L + [] == L;
    forall v | v in rest
      ensures HasPredecessorIn(E, v, rest)
    {
      assert !PredecessorsIn(E, v, ToSet(L));
      var e :| e in E && e.1 == v && e.0 !in ToSet(L);
      assert e.0 in rest && (e.0, v) in E;
    }
  }

  /** The order is complete exactly when the graph has no directed cycle. */
  lemma CompleteIffAcyclic(V: set<Vertex>, E: set<Edge>)
    requires WellFormed(V, E)
    ensures NoDup(Order(V, E)) && ToSet(Order(V, E)) <= V && PredecessorsFirst(E, Order(V, E))
    ensures |Order(V, E)| == |V| <==> Acyclic(E)
    ensures |Order(V, E)| == |V| <==> ToSet(Order(V, E)) == V
  {
    var L := Order(V, E);
    assert L + [] == L;
    NoDupCardinality(L);
    SubsetCardinality(ToSet(L), V);
    if ToSet(L) == V {
      ListingImpliesAcyclic(E, L);
    } else {
      LeftoverHasPredecessorInside(V, E);
      var c := PredecessorsInsideGiveCycle(E, V - ToSet(L));
    }
  }
}
