/** The runtime flow graph: direct edits, execution order and cycle detection. */
module FlowGraphRuntime {
  import opened Sequences
  import opened Digraph
  import opened GraphSchema
  import opened GraphPatching
  import Kahn
  import opened CycleSearching

  // ----- adjacency and in-degree, counted link by link -----

  /** Targets of the links leaving `s`, in link order; parallel links repeat. */
  function Succs(links: seq<Link>, s: Id): seq<Id> {
    if links == [] then [] else
    var l := links[|links| - 1];
    Succs(links[..|links| - 1], s) + if l.sourceNode == s then [l.targetNode] else []
  }

  /** Number of links into `t` whose source lies in `S`. */
  function CountInto(links: seq<Link>, t: Id, S: set<Id>): nat {
    if links == [] then 0 else
    var l := links[|links| - 1];
    CountInto(links[..|links| - 1], t, S) + if l.targetNode == t && l.sourceNode in S then 1 else 0
  }

  lemma {:induction false} CountSplit(links: seq<Link>, t: Id, S: set<Id>, s: Id)
    requires s !in S
    ensures CountInto(links, t, S + {s}) == CountInto(links, t, S) + multiset(Succs(links, s))[t]
  {
    if links != [] {
      CountSplit(links[..|links| - 1], t, S, s);
    }
  }

  lemma {:induction false} CountZero(links: seq<Link>, t: Id, S: set<Id>)
    ensures CountInto(links, t, S) == 0 <==> forall l :: l in links && l.targetNode == t ==> l.sourceNode !in S
  {
    if links != [] {
      var init, last := links[..|links| - 1], links[|links| - 1];
      CountZero(init, t, S);
      assert links == init + [last];
    }
  }

  lemma {:induction false} SuccsMembers(links: seq<Link>, s: Id, t: Id)
    ensures t in Succs(links, s) <==> exists l :: l in links && l.sourceNode == s && l.targetNode == t
  {
    if links != [] {
      var init, last := links[..|links| - 1], links[|links| - 1];
      SuccsMembers(init, s, t);
      assert links == init + [last];
    }
  }

  ghost function Sources(links: seq<Link>): set<Id> {
    set l | l in links :: l.sourceNode
  }

  ghost function Targets(links: seq<Link>): set<Id> {
    set l | l in links :: l.targetNode
  }

  ghost function EdgesOf(links: seq<Link>): set<Edge> {
    set l | l in links :: (l.sourceNode, l.targetNode)
  }

  ghost predicate IsAdjacency(adj: map<Id, seq<Id>>, nodes: set<Id>, links: seq<Link>) {
    && adj.Keys == nodes + Sources(links)
    && forall s :: s in adj ==> adj[s] == Succs(links, s)
  }

  ghost predicate CountsFrom(deg: map<Id, nat>, links: seq<Link>, S: set<Id>) {
    forall t :: t in deg ==> deg[t] == CountInto(links, t, S)
  }

  /** What `topological_order` returns, as a function of the node ids and the edge set alone. */
  ghost function Plan(nodes: set<Id>, E: set<Edge>): Result<seq<Id>, GraphError> {
    var targets := set e | e in E :: e.1;
    var order := Kahn.Order(nodes + targets, E);
    if |order| == |nodes| then Ok(order) else Err(CycleDetected(SortedSeq(nodes - ToSet(order))))
  }

  lemma {:induction false} NoLinkNoSuccs(links: seq<Link>, s: Id)
    requires s !in Sources(links)
    ensures Succs(links, s) == []
  {
    if links != [] {
      var init, last := links[..|links| - 1], links[|links| - 1];
      assert last in links;
      assert forall l :: l in init ==> l in links;
      NoLinkNoSuccs(init, s);
    }
  }

  lemma PushTarget(adj: map<Id, seq<Id>>, nodes: set<Id>, links: seq<Link>, i: nat)
    requires i < |links| && IsAdjacency(adj, nodes, links[..i])
    ensures var l := links[i];
            var row := if l.sourceNode in adj then adj[l.sourceNode] else [];
            IsAdjacency(adj[l.sourceNode := row + [l.targetNode]], nodes, links[..i + 1])
  {
    var l, before, after := links[i], links[..i], links[..i + 1];
    var row := if l.sourceNode in adj then adj[l.sourceNode] else [];
    var adj' := adj[l.sourceNode := row + [l.targetNode]];
    assert after[..i] == before && after == before + [l];
    assert Sources(after) == Sources(before) + {l.sourceNode} by {
      assert forall k :: k in after <==> k in before || k == l;
    }
    forall s | s in adj'
      ensures adj'[s] == Succs(after, s)
    {
      if s !in adj {
        NoLinkNoSuccs(before, s);
      }
    }
  }

  function Deg(deg: map<Id, nat>, t: Id): nat {
    if t in deg then deg[t] else 0
  }

  /** In-degrees after the rows of `done` and the targets `part` of one more row. */
  ghost predicate Tallied(deg: map<Id, nat>, nodes: set<Id>, links: seq<Link>, done: set<Id>, part: seq<Id>) {
    && nodes <= deg.Keys <= nodes + Targets(links)
    && forall t :: Deg(deg, t) == CountInto(links, t, done) + multiset(part)[t]
  }

  lemma FirstTally(deg: map<Id, nat>, nodes: set<Id>, links: seq<Link>)
    requires deg.Keys == nodes && forall t :: t in deg ==> deg[t] == 0
    ensures Tallied(deg, nodes, links, {}, [])
  {
    forall t
      ensures CountInto(links, t, {}) == 0
    {
      CountZero(links, t, {});
    }
  }

  lemma TallyOne(deg: map<Id, nat>, nodes: set<Id>, links: seq<Link>, done: set<Id>, s: Id, j: nat)
    requires j < |Succs(links, s)| && Tallied(deg, nodes, links, done, Succs(links, s)[..j])
    ensures var row := Succs(links, s);
            Tallied(deg[row[j] := Deg(deg, row[j]) + 1], nodes, links, done, row[..j + 1])
  {
    var row := Succs(links, s);
    var t := row[j];
    SuccsMembers(links, s, t);
    assert row[..j + 1] == row[..j] + [t];
    var deg' := deg[t := Deg(deg, t) + 1];
    forall u
      ensures Deg(deg', u) == CountInto(links, u, done) + multiset(row[..j + 1])[u]
    {
      assert Deg(deg, u) == CountInto(links, u, done) + multiset(row[..j])[u];
    }
  }

  lemma TallyRow(deg: map<Id, nat>, nodes: set<Id>, links: seq<Link>, done: set<Id>, s: Id)
    requires s !in done && Tallied(deg, nodes, links, done, Succs(links, s))
    ensures Tallied(deg, nodes, links, done + {s}, [])
  {
    forall t
      ensures Deg(deg, t) == CountInto(links, t, done + {s})
    {
      CountSplit(links, t, done, s);
    }
  }

  lemma AllTallied(deg: map<Id, nat>, nodes: set<Id>, links: seq<Link>, all: set<Id>)
    requires Tallied(deg, nodes, links, all, []) && Sources(links) <= all
    ensures deg.Keys == nodes + Targets(links) && CountsFrom(deg, links, all)
  {
    forall t | t in Targets(links)
      ensures t in deg
    {
      var l :| l in links && l.targetNode == t;
      CountZero(links, t, all);
      assert l.sourceNode in Sources(links);
      assert Deg(deg, t) > 0;
    }
    forall t | t in deg
      ensures deg[t] == CountInto(links, t, all)
    {
      assert Deg(deg, t) == CountInto(links, t, all);
    }
  }

  /** In-degrees while the row of the emitted node is being released; `rest` is still to come. */
  ghost predicate Releasing(deg: map<Id, nat>, links: seq<Link>, S: set<Id>, rest: seq<Id>) {
    forall t :: t in deg ==> deg[t] == CountInto(links, t, S) + multiset(rest)[t]
  }

  lemma ReadyMeansZero(links: seq<Link>, K: set<Id>, done: set<Id>, t: Id)
    requires Sources(links) <= K
    ensures PredecessorsIn(EdgesOf(links), t, done) <==> CountInto(links, t, K - done) == 0
  {
    CountZero(links, t, K - done);
    if CountInto(links, t, K - done) == 0 {
      forall e | e in EdgesOf(links) && e.1 == t
        ensures e.0 in done
      {
        var l :| l in links && e == (l.sourceNode, l.targetNode);
        assert l.sourceNode in Sources(links);
      }
    } else {
      var l :| l in links && l.targetNode == t && l.sourceNode in K - done;
      assert (l.sourceNode, l.targetNode) in EdgesOf(links);
    }
  }

  lemma StartReleasing(deg: map<Id, nat>, links: seq<Link>, K: set<Id>, order: seq<Id>, node: Id, row: seq<Id>)
    requires CountsFrom(deg, links, K - ToSet(order)) && Sources(links) <= K && node !in order
    requires row == Succs(links, node)
    ensures Releasing(deg, links, K - ToSet(order + [node]), row)
  {
    var S := K - ToSet(order + [node]);
    assert ToSet(order + [node]) == ToSet(order) + {node};
    forall t | t in deg
      ensures deg[t] == CountInto(links, t, S) + multiset(row)[t]
    {
      CountSplit(links, t, S, node);
      if node in K {
        assert S + {node} == K - ToSet(order);
      } else {
        assert S == K - ToSet(order);
        NoLinkNoSuccs(links, node);
      }
    }
  }

  ghost predicate BatchSoFar(deg: map<Id, nat>, done: seq<Id>, batch: seq<Id>) {
    NoDup(batch) && forall t :: t in batch <==> t in done && t in deg && deg[t] == 0
  }

  /** The state of that loop after `j` neighbours. */
  ghost predicate ReleasedUpTo(deg: map<Id, nat>, links: seq<Link>, S: set<Id>, row: seq<Id>, j: nat, batch: seq<Id>)
    requires j <= |row|
  {
    Releasing(deg, links, S, row[j..]) && BatchSoFar(deg, row[..j], batch)
  }

  lemma ReleaseBegins(deg: map<Id, nat>, links: seq<Link>, S: set<Id>, row: seq<Id>)
    requires Releasing(deg, links, S, row)
    ensures ReleasedUpTo(deg, links, S, row, 0, [])
  {
    assert row[0..] == row;
  }

  lemma ReleaseOne(deg: map<Id, nat>, links: seq<Link>, S: set<Id>, row: seq<Id>, j: nat, batch: seq<Id>)
    requires j < |row| && row[j] in deg && ReleasedUpTo(deg, links, S, row, j, batch)
    ensures deg[row[j]] > 0
    ensures var deg' := deg[row[j] := deg[row[j]] - 1];
            ReleasedUpTo(deg', links, S, row, j + 1, if deg'[row[j]] == 0 then batch + [row[j]] else batch)
  {
    SliceStep(row, j);
    LowerOne(deg, links, S, row[j], row[j..], row[j + 1..]);
    CollectOne(deg, row[..j], row[j], row[..j + 1], batch);
  }

  lemma SliceStep(row: seq<Id>, j: nat)
    requires j < |row|
    ensures row[j..] == [row[j]] + row[j + 1..] && row[..j + 1] == row[..j] + [row[j]]
  {
  }

  lemma ReleaseEnds(deg: map<Id, nat>, links: seq<Link>, S: set<Id>, row: seq<Id>, batch: seq<Id>)
    requires ReleasedUpTo(deg, links, S, row, |row|, batch)
    ensures Releasing(deg, links, S, []) && BatchSoFar(deg, row, batch)
  {
    assert row[|row|..] == [] && row[..|row|] == row;
  }

  lemma LowerOne(deg: map<Id, nat>, links: seq<Link>, S: set<Id>, t: Id, all: seq<Id>, rest: seq<Id>)
    requires t in deg && all == [t] + rest && Releasing(deg, links, S, all)
    ensures deg[t] > 0 && Releasing(deg[t := deg[t] - 1], links, S, rest)
  {
    assert deg[t] == CountInto(links, t, S) + multiset(all)[t];
    var deg' := deg[t := deg[t] - 1];
    forall u | u in deg'
      ensures deg'[u] == CountInto(links, u, S) + multiset(rest)[u]
    {
      assert deg[u] == CountInto(links, u, S) + multiset(all)[u];
    }
  }

  lemma CollectOne(deg: map<Id, nat>, done: seq<Id>, t: Id, done': seq<Id>, batch: seq<Id>)
    requires t in deg && deg[t] > 0 && done' == done + [t] && BatchSoFar(deg, done, batch)
    ensures var deg' := deg[t := deg[t] - 1];
            BatchSoFar(deg', done', if deg'[t] == 0 then batch + [t] else batch)
  {
    assert forall u :: u in done' <==> u in done || u == t;
    assert forall u :: u in batch + [t] <==> u in batch || u == t;
  }

  /** A count of zero says that every predecessor has been emitted. */
  ghost predicate ZeroMeansReady(deg: map<Id, nat>, E: set<Edge>, done: set<Id>) {
    forall t :: t in deg ==> (deg[t] == 0 <==> PredecessorsIn(E, t, done))
  }

  lemma CountsGiveReady(deg: map<Id, nat>, links: seq<Link>, K: set<Id>, done: set<Id>)
    requires CountsFrom(deg, links, K - done) && Sources(links) <= K
    ensures ZeroMeansReady(deg, EdgesOf(links), done)
  {
    forall t | t in deg
      ensures deg[t] == 0 <==> PredecessorsIn(EdgesOf(links), t, done)
    {
      ReadyMeansZero(links, K, done, t);
    }
  }

  ghost function ZeroDegree(deg: map<Id, nat>): set<Id> {
    set t | t in deg && deg[t] == 0
  }

  lemma SeedIsReady(deg: map<Id, nat>, E: set<Edge>, queue: seq<Id>)
    requires ZeroMeansReady(deg, E, {}) && queue == SortedSeq(ZeroDegree(deg))
    ensures queue == SortedSeq(Kahn.Ready(deg.Keys, E, {}, {}))
  {
    assert Kahn.Ready(deg.Keys, E, {}, {}) == ZeroDegree(deg);
  }

  /** The successors whose count reached zero are exactly the newly ready vertices. */
  lemma ReleasedBatch(deg: map<Id, nat>, deg': map<Id, nat>, E: set<Edge>,
                      order: seq<Id>, queue: seq<Id>, row: seq<Id>, batch: seq<Id>)
    requires deg.Keys == deg'.Keys && queue != [] && Kahn.Frontier(deg.Keys, E, order, queue)
    requires ZeroMeansReady(deg, E, ToSet(order)) && ZeroMeansReady(deg', E, ToSet(order + [queue[0]]))
    requires forall t :: t in deg ==> deg[t] == deg'[t] + multiset(row)[t]
    requires BatchSoFar(deg', row, batch)
    requires forall t :: t in row ==> t in deg
    ensures Sort(batch) == Kahn.Batch(deg.Keys, E, order, queue)
  {
    var ready := Kahn.Ready(deg.Keys, E, ToSet(order + [queue[0]]), ToSet(order + queue));
    forall t
      ensures t in batch <==> t in ready
    {
      if t in deg {
        assert deg[t] == deg'[t] + multiset(row)[t];
      }
    }
    assert ToSet(batch) == ready;
    SortIsSortedSeq(batch);
  }

  lemma RowReleased(deg: map<Id, nat>, deg': map<Id, nat>, links: seq<Link>, K: set<Id>,
                    order: seq<Id>, queue: seq<Id>, row: seq<Id>, batch: seq<Id>)
    requires deg.Keys == deg'.Keys && queue != [] && Kahn.Frontier(deg.Keys, EdgesOf(links), order, queue)
    requires Sources(links) <= K && CountsFrom(deg, links, K - ToSet(order))
    requires Releasing(deg, links, K - ToSet(order + [queue[0]]), row)
    requires Releasing(deg', links, K - ToSet(order + [queue[0]]), [])
    requires BatchSoFar(deg', row, batch) && forall t :: t in row ==> t in deg
    ensures CountsFrom(deg', links, K - ToSet(order + [queue[0]]))
    ensures Sort(batch) == Kahn.Batch(deg.Keys, EdgesOf(links), order, queue)
  {
    CountsGiveReady(deg, links, K, ToSet(order));
    CountsGiveReady(deg', links, K, ToSet(order + [queue[0]]));
    ReleasedBatch(deg, deg', EdgesOf(links), order, queue, row, batch);
  }

  /** A row lists the targets in the order of the links, parallel ones as often as they occur. */
  lemma {:induction false} SuccsAddUp(a: seq<Link>, b: seq<Link>, s: Id)
    ensures Succs(a + b, s) == Succs(a, s) + Succs(b, s)
    decreases |b|
  {
    if b == [] {
      assert a + b == a;
    } else {
      assert (a + b)[..|a + b| - 1] == a + b[..|b| - 1];
      SuccsAddUp(a, b[..|b| - 1], s);
    }
  }

  lemma SuccsOfOne(l: Link, s: Id)
    ensures Succs([l], s) == if l.sourceNode == s then [l.targetNode] else []
  {
    assert [l][..0] == [];
  }

  lemma SuccsAreTargets(links: seq<Link>, s: Id)
    ensures forall t :: t in Succs(links, s) ==> t in Targets(links)
  {
    forall t | t in Succs(links, s)
      ensures t in Targets(links)
    {
      SuccsMembers(links, s, t);
    }
  }

  lemma LinksAreEdges(s: Schema)
    ensures EdgesOf(Values(s.links)) == Edges(s)
    ensures (set e | e in Edges(s) :: e.1) == Targets(Values(s.links))
  {
    ValuesMembers(s.links);
    var links := Values(s.links);
    forall e
      ensures e in EdgesOf(links) <==> e in Edges(s)
    {
    }
    TargetsOfEdges(links);
  }

  lemma TargetsOfEdges(links: seq<Link>)
    ensures (set e | e in EdgesOf(links) :: e.1) == Targets(links)
  {
    forall t | t in Targets(links)
      ensures t in (set e | e in EdgesOf(links) :: e.1)
    {
      var l :| l in links && l.targetNode == t;
      assert (l.sourceNode, l.targetNode) in EdgesOf(links);
    }
  }

  // ----- what the plan means -----

  /**
    * On a graph without dangling links the plan succeeds exactly when there is no directed cycle;
    * it then lists each node once, every link source before its target, and otherwise it names a
    * non-empty set of nodes each of which has a predecessor in that set.
    */
  lemma PlanIsExecutionOrder(s: Schema)
    requires LinksWellFormed(s)
    ensures var r := Plan(s.nodes.Keys, Edges(s));
            && (r.Ok? <==> Acyclic(Edges(s)))
            && (r.Ok? ==> NoDup(r.value) && ToSet(r.value) == s.nodes.Keys && PredecessorsFirst(Edges(s), r.value))
            && (r.Err? ==> && r.error.CycleDetected? && r.error.cycle != []
                           && StrictlySorted(r.error.cycle)
                           && EachHasPredecessorInside(Edges(s), ToSet(r.error.cycle)))
  {
    var V, E := s.nodes.Keys, Edges(s);
    assert V + (set e | e in E :: e.1) == V by {
      assert forall e :: e in E ==> e.1 in V;
    }
    EdgesWellFormed(s);
    KahnPlan(V, E);
  }

  /** The nodes named in the error are exactly those that some cycle reaches: none is left out, none is innocent. */
  lemma ErrorNamesWhatCyclesReach(s: Schema, v: Id)
    requires LinksWellFormed(s) && v in s.nodes && Plan(s.nodes.Keys, Edges(s)).Err?
    ensures v in Plan(s.nodes.Keys, Edges(s)).error.cycle <==> exists c :: IsCycle(Edges(s), c) && Reaches(Edges(s), c[0], v)
  {
    var L := LeftoverIs(s);
    if v in L {
      ListedIsNotReached(Edges(s), L, v);
    } else {
      var c := CycleBehind(Edges(s), s.nodes.Keys - ToSet(L), v);
    }
  }

  lemma LeftoverIs(s: Schema) returns (L: seq<Id>)
    requires LinksWellFormed(s) && Plan(s.nodes.Keys, Edges(s)).Err?
    ensures NoDup(L) && PredecessorsFirst(Edges(s), L)
    ensures EachHasPredecessorInside(Edges(s), s.nodes.Keys - ToSet(L))
    ensures forall v :: v in s.nodes ==> (v in Plan(s.nodes.Keys, Edges(s)).error.cycle <==> v !in L)
  {
    var V, E := s.nodes.Keys, Edges(s);
    EdgesWellFormed(s);
    KahnPlan(V, E);
    L := Kahn.Order(V, E);
    ErrorListIs(V, E, L);
    Listed(V - ToSet(L), SortedSeq(V - ToSet(L)));
  }

  lemma ErrorListIs(V: set<Id>, E: set<Edge>, L: seq<Id>)
    requires Kahn.WellFormed(V, E) && L == Kahn.Order(V, E) && Plan(V, E).Err?
    ensures Plan(V, E).error.CycleDetected? && Plan(V, E).error.cycle == SortedSeq(V - ToSet(L))
  {
    TargetsInside(V, E);
  }

  lemma TargetsInside(V: set<Id>, E: set<Edge>)
    requires Kahn.WellFormed(V, E)
    ensures V + (set e | e in E :: e.1) == V
  {
    assert forall e :: e in E ==> e.1 in V;
  }

  lemma Listed(S: set<Id>, L: seq<Id>)
    requires L == SortedSeq(S)
    ensures ToSet(L) == S && forall v :: v in L <==> v in S
  {
    assert forall v :: v in L <==> v in ToSet(L);
  }

  lemma ListedIsNotReached(E: set<Edge>, L: seq<Id>, v: Id)
    requires NoDup(L) && PredecessorsFirst(E, L) && v in L
    ensures forall c :: IsCycle(E, c) ==> !Reaches(E, c[0], v)
  {
    forall c | IsCycle(E, c) && Reaches(E, c[0], v)
      ensures false
    {
      var p :| IsWalk(E, p) && p[0] == c[0] && p[|p| - 1] == v;
      var j :| 0 <= j < |L| && L[j] == v;
      if |p| >= 2 {
        var i := WalkIntoListed(E, L, p, j);
      }
      NoCycleThroughListed(E, L, c);
    }
  }

  /** Walking back from a vertex inside such a set must repeat a vertex, and the repetition is a cycle that reaches it. */
  lemma CycleBehind(E: set<Edge>, S: set<Id>, v: Id) returns (c: seq<Id>)
    requires EachHasPredecessorInside(E, S) && v in S
    ensures IsCycle(E, c) && Reaches(E, c[0], v)
  {
    var p := WalkBack(E, S, v, |S|);
    var i, j := Pigeonhole(S, p);
    SubWalk(E, p, i, j + 1);
    c := p[i..j + 1];
    SubWalk(E, p, i, |p|);
    assert p[i..|p|][0] == c[0] && p[i..|p|][|p| - i - 1] == v;
  }

  /**
    * On an acyclic graph whose links all have sources, the plan reports a cycle exactly when some link's target
    * does not exist, which a patch can leave behind. `PlanVerdict` covers links with any endpoints.
    */
  lemma DanglingTargetLooksCyclic(nodes: set<Id>, E: set<Edge>)
    requires Acyclic(E) && forall d :: d in E ==> d.0 in nodes
    ensures Plan(nodes, E).Err? <==> exists e :: e in E && e.1 !in nodes
  {
    var all := nodes + set d | d in E :: d.1;
    assert forall d :: d in E ==> d.1 in all;
    Kahn.CompleteIffAcyclic(all, E);
    SubsetCardinality(nodes, all);
    if e :| e in E && e.1 !in nodes {
      assert e.1 in all;
    } else {
      assert all == nodes;
    }
  }

  lemma EdgesWellFormed(s: Schema)
    requires LinksWellFormed(s)
    ensures Kahn.WellFormed(s.nodes.Keys, Edges(s))
  {
  }

  lemma KahnPlan(V: set<Id>, E: set<Edge>)
    requires Kahn.WellFormed(V, E)
    ensures var L := Kahn.Order(V, E);
            && NoDup(L) && PredecessorsFirst(E, L)
            && (|L| == |V| <==> Acyclic(E)) && (|L| == |V| <==> ToSet(L) == V)
            && var rest := SortedSeq(V - ToSet(L));
            && (|L| != |V| ==> rest != [])
            && EachHasPredecessorInside(E, ToSet(rest))
  {
    Kahn.CompleteIffAcyclic(V, E);
    Kahn.LeftoverHasPredecessorInside(V, E);
    EmptyToSet(SortedSeq(V - ToSet(Kahn.Order(V, E))));
  }

  ghost function EdgeBag(links: seq<Link>): multiset<Edge> {
    if links == [] then multiset{} else
    var l := links[|links| - 1];
    EdgeBag(links[..|links| - 1]) + multiset{(l.sourceNode, l.targetNode)}
  }

  lemma {:induction false} EdgeBagMembers(links: seq<Link>, e: Edge)
    ensures e in EdgeBag(links) <==> e in EdgesOf(links)
  {
    if links != [] {
      var init, last := links[..|links| - 1], links[|links| - 1];
      EdgeBagMembers(init, e);
      assert links == init + [last];
    }
  }

  /** The order depends on node ids and (source, target) pairs only: not on link ids, ports or labels. */
  lemma PlanIgnoresLinkIdentity(a: Schema, b: Schema)
    requires a.nodes.Keys == b.nodes.Keys
    requires EdgeBag(Values(a.links)) == EdgeBag(Values(b.links))
    ensures Plan(a.nodes.Keys, Edges(a)) == Plan(b.nodes.Keys, Edges(b))
  {
    SameBagSameEdges(a, b);
  }

  lemma SameBagSameEdges(a: Schema, b: Schema)
    requires EdgeBag(Values(a.links)) == EdgeBag(Values(b.links))
    ensures Edges(a) == Edges(b)
  {
    LinksAreEdges(a);
    LinksAreEdges(b);
    forall e: Edge
      ensures e in Edges(a) <==> e in Edges(b)
    {
      EdgeBagMembers(Values(a.links), e);
      EdgeBagMembers(Values(b.links), e);
    }
  }

  // ----- the graph object -----

  datatype ExecutionState = Idle | Running | Progress | Complete | Failed | Cancelled

  class FlowGraph {
    var schema: Schema
    var executionStates: map<Id, ExecutionState>

    constructor (graphId: Id, dimensionId: Id)
      ensures schema == Schema(1, graphId, dimensionId, map[], map[], map[], map[], map[])
      ensures LinksWellFormed(schema) && executionStates == map[]
    {
      schema, executionStates := Schema(1, graphId, dimensionId, map[], map[], map[], map[], map[]), map[];
    }

    // ----- direct edits -----

    method AddNode(node: GraphNode) returns (id: Id)
      modifies this
      ensures id == node.id && ApplyEdit(old(schema), Edit.AddNode(node)) == Ok(schema)
      ensures schema == old(schema).(nodes := old(schema).nodes[node.id := node])
      ensures executionStates == old(executionStates)[id := Idle]
    {
      id := node.id;
      schema := schema.(nodes := schema.nodes[id := node]);
      executionStates := executionStates[id := Idle];
    }

    method RemoveNode(id: Id) returns (r: Result<GraphNode, GraphError>)
      modifies this
      ensures match ApplyEdit(old(schema), Edit.RemoveNode(id))
              case Ok(s) => && id in old(schema).nodes && r == Ok(old(schema).nodes[id]) && schema == s
                            && executionStates == old(executionStates) - {id}
              case Err(e) => r == Err(e) && schema == old(schema) && executionStates == old(executionStates)
      ensures if id in old(schema).nodes then NodeRemoved(old(schema), schema, id) else r == Err(NodeNotFound(id))
    {
      WithoutNodeMeans(schema, id);
      if id !in schema.nodes {
        return Err(NodeNotFound(id));
      }
      r := Ok(schema.nodes[id]);
      schema := schema.(nodes := schema.nodes - {id});
      executionStates := executionStates - {id};
      schema := schema.(links := map k | k in schema.links && !Touches(schema.links[k], id) :: schema.links[k]);
      schema := schema.(groups := map g | g in schema.groups ::
                                    schema.groups[g].(nodeIds := schema.groups[g].nodeIds - {id}));
    }

    method AddLink(link: Link) returns (r: Result<Id, GraphError>)
      modifies this`schema
      ensures match ApplyEdit(old(schema), Edit.AddLink(link))
              case Ok(s) => r == Ok(link.id) && schema == s
              case Err(e) => r == Err(e) && schema == old(schema)
      ensures forall e :: r == Err(e) <==> Refuses(old(schema), link, e)
      ensures r.Ok? ==> schema == old(schema).(links := old(schema).links[link.id := link])
    {
      CheckLinkMeans(schema, link);
      if link.sourceNode !in schema.nodes {
        return Err(NodeNotFound(link.sourceNode));
      }
      var source := schema.nodes[link.sourceNode];
      if link.sourcePort !in source.ports {
        return Err(PortNotFound(link.sourceNode, link.sourcePort));
      }
      if link.targetNode !in schema.nodes {
        return Err(NodeNotFound(link.targetNode));
      }
      var target := schema.nodes[link.targetNode];
      if link.targetPort !in target.ports {
        return Err(PortNotFound(link.targetNode, link.targetPort));
      }
      var st, tt := source.ports[link.sourcePort].dataType, target.ports[link.targetPort].dataType;
      if !st.CompatibleWith(tt) {
        return Err(TypeMismatch(link.id, st, tt));
      }
      schema := schema.(links := schema.links[link.id := link]);
      return Ok(link.id);
    }

    method RemoveLink(id: Id) returns (r: Result<Link, GraphError>)
      modifies this`schema
      ensures match ApplyEdit(old(schema), Edit.RemoveLink(id))
              case Ok(s) => id in old(schema).links && r == Ok(old(schema).links[id]) && schema == s
              case Err(e) => r == Err(e) && schema == old(schema)
      ensures if id in old(schema).links then schema == old(schema).(links := old(schema).links - {id})
              else r == Err(LinkNotFound(id))
    {
      if id !in schema.links {
        return Err(LinkNotFound(id));
      }
      r := Ok(schema.links[id]);
      schema := schema.(links := schema.links - {id});
    }

    /** All operations or none: a failing operation leaves the schema as it was. */
    method ApplyPatch(ops: seq<PatchOp>) returns (r: Result<(), GraphError>)
      modifies this`schema
      ensures match ApplyOps(old(schema), ops)
              case Ok(s) => r == Ok(()) && schema == s
              case Err(e) => r == Err(InvalidPatch(e)) && schema == old(schema)
    {
      var working := schema;
      for i := 0 to |ops|
        invariant schema == old(schema) && ApplyOps(schema, ops) == ApplyOps(working, ops[i..])
      {
        var step := ApplyOp(working, ops[i]);
        if step.Err? {
          return Err(InvalidPatch(step.error));
        }
        assert ops[i..][1..] == ops[i + 1..];
        working := step.value;
      }
      schema := working;
      return Ok(());
    }

    // ----- execution order and cycles -----

    function Links(): seq<Link>
      reads this
    {
      Values(schema.links)
    }

    method AdjacencyList() returns (adj: map<Id, seq<Id>>)
      ensures IsAdjacency(adj, schema.nodes.Keys, Links())
    {
      var links := Links();
      adj := map id | id in schema.nodes :: [];
      for i := 0 to |links|
        invariant IsAdjacency(adj, schema.nodes.Keys, links[..i])
      {
        adj := PushLink(adj, links, i);
      }
      assert links[..|links|] == links;
    }

    /** One link's target goes to the end of its source's row. */
    method PushLink(adj: map<Id, seq<Id>>, links: seq<Link>, i: nat) returns (adj': map<Id, seq<Id>>)
      requires i < |links| && IsAdjacency(adj, schema.nodes.Keys, links[..i])
      ensures IsAdjacency(adj', schema.nodes.Keys, links[..i + 1])
    {
      var l := links[i];
      PushTarget(adj, schema.nodes.Keys, links, i);
      adj' := adj[l.sourceNode := (if l.sourceNode in adj then adj[l.sourceNode] else []) + [l.targetNode]];
    }

    method CountRow(row: seq<Id>, deg: map<Id, nat>, ghost nodes: set<Id>, ghost links: seq<Link>,
                    ghost done: set<Id>, ghost s: Id)
      returns (deg': map<Id, nat>)
      requires row == Succs(links, s) && Tallied(deg, nodes, links, done, [])
      ensures Tallied(deg', nodes, links, done, row)
    {
      deg' := deg;
      for j := 0 to |row|
        invariant Tallied(deg', nodes, links, done, row[..j])
      {
        TallyOne(deg', nodes, links, done, s, j);
        deg' := deg'[row[j] := Deg(deg', row[j]) + 1];
      }
      assert row[..|row|] == row;
    }

    /** Row by row in whatever order the hash map yields them. */
    method InDegrees(adj: map<Id, seq<Id>>, ghost links: seq<Link>) returns (deg: map<Id, nat>)
      requires IsAdjacency(adj, schema.nodes.Keys, links)
      ensures deg.Keys == schema.nodes.Keys + Targets(links) && CountsFrom(deg, links, adj.Keys)
    {
      ghost var nodes := schema.nodes.Keys;
      deg := map id | id in schema.nodes :: 0;
      FirstTally(deg, nodes, links);
      ghost var done: set<Id> := {};
      var todo := adj.Keys;
      while todo != {}
        invariant todo !! done && todo + done == adj.Keys
        invariant Tallied(deg, nodes, links, done, [])
        decreases todo
      {
        var s :| s in todo;
        deg := CountRow(adj[s], deg, nodes, links, done, s);
        TallyRow(deg, nodes, links, done, s);
        todo, done := todo - {s}, done + {s};
      }
      AllTallied(deg, nodes, links, adj.Keys);
    }

    /** Nodes without incoming links, in ascending order. */
    method SeedQueue(deg: map<Id, nat>) returns (queue: seq<Id>)
      ensures queue == SortedSeq(ZeroDegree(deg))
    {
      ghost var zero := ZeroDegree(deg);
      var keys := SortedSeq(deg.Keys);
      queue := [];
      for i := 0 to |keys|
        invariant queue == SortedSeq(ToSet(keys[..i]) * zero)
      {
        assert keys[i] in ToSet(keys);
        CollectStep(keys, i, zero);
        if deg[keys[i]] == 0 {
          queue := queue + [keys[i]];
        }
      }
      assert keys[..|keys|] == keys && ToSet(keys) * zero == zero;
      SortIsSortedSeq(queue);
      queue := Sort(queue);
    }

    /** Lower the count of every target in `row`; collect those that reach zero. */
    method Release(row: seq<Id>, deg: map<Id, nat>, ghost links: seq<Link>, ghost S: set<Id>)
      returns (deg': map<Id, nat>, batch: seq<Id>)
      requires Releasing(deg, links, S, row) && forall t :: t in row ==> t in deg
      ensures deg'.Keys == deg.Keys && Releasing(deg', links, S, [])
      ensures BatchSoFar(deg', row, batch)
    {
      deg', batch := deg, [];
      ReleaseBegins(deg, links, S, row);
      for j := 0 to |row|
        invariant deg'.Keys == deg.Keys && ReleasedUpTo(deg', links, S, row, j, batch)
      {
        deg', batch := Lower(row, j, deg', batch, links, S);
      }
      ReleaseEnds(deg', links, S, row, batch);
    }

    /** One neighbour: its count goes down, and at zero it joins the batch. */
    method Lower(row: seq<Id>, j: nat, deg: map<Id, nat>, batch: seq<Id>, ghost links: seq<Link>, ghost S: set<Id>)
      returns (deg': map<Id, nat>, batch': seq<Id>)
      requires j < |row| && row[j] in deg && ReleasedUpTo(deg, links, S, row, j, batch)
      ensures deg'.Keys == deg.Keys && ReleasedUpTo(deg', links, S, row, j + 1, batch')
    {
      var t := row[j];
      ReleaseOne(deg, links, S, row, j, batch);
      deg' := deg[t := deg[t] - 1];
      batch' := if deg'[t] == 0 then batch + [t] else batch;
    }

    /** The part of the main loop that handles the neighbours of the emitted node. */
    method ReleaseNeighbours(node: Id, adj: map<Id, seq<Id>>, deg: map<Id, nat>, ghost nodes: set<Id>,
                             ghost links: seq<Link>, ghost order: seq<Id>, ghost queue: seq<Id>)
      returns (deg': map<Id, nat>, batch: seq<Id>)
      requires IsAdjacency(adj, nodes, links) && deg.Keys == nodes + Targets(links)
      requires CountsFrom(deg, links, adj.Keys - ToSet(order))
      requires queue != [] && queue[0] == node && Kahn.Frontier(deg.Keys, EdgesOf(links), order, queue)
      ensures deg'.Keys == deg.Keys && CountsFrom(deg', links, adj.Keys - ToSet(order + [node]))
      ensures batch == Kahn.Batch(deg.Keys, EdgesOf(links), order, queue)
    {
      Kahn.FrontierStep(deg.Keys, EdgesOf(links), order, queue);
      ghost var K := adj.Keys;
      ghost var row := Succs(links, node);
      StartReleasing(deg, links, K, order, node, row);
      SuccsAreTargets(links, node);
      deg', batch := deg, [];
      if node in adj {
        deg', batch := Release(adj[node], deg, links, K - ToSet(order + [node]));
      } else {
        NoLinkNoSuccs(links, node);
      }
      RowReleased(deg, deg', links, K, order, queue, row, batch);
      batch := Sort(batch);
    }

    /** The nodes that were never dequeued, in key order. */
    method Unlisted(order: seq<Id>) returns (rest: seq<Id>)
      ensures rest == SortedSeq(schema.nodes.Keys - ToSet(order))
    {
      ghost var missing := schema.nodes.Keys - ToSet(order);
      var keys := SortedSeq(schema.nodes.Keys);
      rest := [];
      for i := 0 to |keys|
        invariant rest == SortedSeq(ToSet(keys[..i]) * missing)
      {
        assert keys[i] in ToSet(keys);
        CollectStep(keys, i, missing);
        if keys[i] !in order {
          rest := rest + [keys[i]];
        }
      }
      assert keys[..|keys|] == keys && ToSet(keys) * missing == missing;
    }

    /** The main loop: emit the front of the queue until it is empty. */
    method EmitAll(adj: map<Id, seq<Id>>, deg0: map<Id, nat>, seeds: seq<Id>, ghost nodes: set<Id>, ghost links: seq<Link>)
      returns (order: seq<Id>)
      requires IsAdjacency(adj, nodes, links) && deg0.Keys == nodes + Targets(links)
      requires CountsFrom(deg0, links, adj.Keys)
      requires seeds == SortedSeq(ZeroDegree(deg0))
      ensures order == Kahn.Order(nodes + Targets(links), EdgesOf(links))
    {
      ghost var V, E := nodes + Targets(links), EdgesOf(links);
      var deg, queue := deg0, seeds;
      order := [];
      assert ToSet(order) == {} && adj.Keys - {} == adj.Keys;
      CountsGiveReady(deg, links, adj.Keys, {});
      SeedIsReady(deg, E, queue);
      Kahn.SeedFrontier(V, E);
      while queue != []
        invariant deg.Keys == V && CountsFrom(deg, links, adj.Keys - ToSet(order))
        invariant Kahn.Frontier(V, E, order, queue) && Kahn.Run(V, E, order, queue) == Kahn.Order(V, E)
        decreases V - ToSet(order)
      {
        var node := queue[0];
        Kahn.RunStep(V, E, order, queue);
        var batch;
        deg, batch := ReleaseNeighbours(node, adj, deg, nodes, links, order, queue);
        order, queue := order + [node], queue[1..] + batch;
      }
    }

    method TopologicalOrder() returns (r: Result<seq<Id>, GraphError>)
      ensures r == Plan(schema.nodes.Keys, Edges(schema))
    {
      ghost var links, nodes := Links(), schema.nodes.Keys;
      LinksAreEdges(schema);
      var adj := AdjacencyList();
      var deg := InDegrees(adj, links);
      var queue := SeedQueue(deg);
      var order := EmitAll(adj, deg, queue, nodes, links);
      if |order| != |schema.nodes| {
        var cycleNodes := Unlisted(order);
        return Err(CycleDetected(cycleNodes));
      }
      return Ok(order);
    }

    /** Reports a genuine cycle, and reports one exactly when some node reaches one, missing link ends included. */
    method DetectCycle() returns (r: Result<(), GraphError>)
      ensures r.Err? ==> r.error.CycleDetected? && IsSimpleCycle(Edges(schema), r.error.cycle)
      ensures r.Err? <==> CycleInReach(Edges(schema), schema.nodes.Keys)
      ensures r.Ok? ==> forall p :: IsCycle(Edges(schema), p) ==> p[0] !in schema.nodes
      ensures LinksWellFormed(schema) ==> (r.Ok? <==> Acyclic(Edges(schema)))
      ensures LinksWellFormed(schema) ==> (r.Ok? <==> Plan(schema.nodes.Keys, Edges(schema)).Ok?)
    {
      var adj := AdjacencyList();
      ghost var E, U := AdjacencyIsEdges(schema, adj);
      r := SearchFrom(SortedSeq(schema.nodes.Keys), adj, E, U);
      SearchVerdict(schema, E, r);
    }

    method SearchFrom(ids: seq<Id>, adj: map<Id, seq<Id>>, ghost E: set<Edge>, ghost U: set<Id>)
      returns (r: Result<(), GraphError>)
      requires AdjacencyOf(adj, E) && (forall e :: e in E ==> e.1 in U) && ToSet(ids) <= U
      ensures r.Err? ==> r.error.CycleDetected? && IsSimpleCycle(E, r.error.cycle)
      ensures r.Err? <==> CycleInReach(E, ToSet(ids))
    {
      var search := new CycleSearch(ToSet(ids));
      for i := 0 to |ids|
        invariant Searching(E, U, search.colour, search.stack, search.finished) && search.stack == []
        invariant forall k :: 0 <= k < i ==> ids[k] in search.finished
      {
        if ColourOf(search.colour, ids[i]) == 0 {
          assert ids[i] in ToSet(ids);
          r := search.Visit(ids[i], adj, E, U);
          if r.Err? {
            assert CycleFrom(E, ids[i], r);
            return;
          }
        }
      }
      NoCycleInReachOfListed(E, search.finished, ToSet(ids));
      return Ok(());
    }
  }

  lemma AdjacencyIsEdges(s: Schema, adj: map<Id, seq<Id>>) returns (E: set<Edge>, U: set<Id>)
    requires IsAdjacency(adj, s.nodes.Keys, Values(s.links))
    ensures E == Edges(s) && AdjacencyOf(adj, E)
    ensures s.nodes.Keys <= U && forall e :: e in E ==> e.1 in U
  {
    var links := Values(s.links);
    E, U := Edges(s), s.nodes.Keys + Targets(links);
    LinksAreEdges(s);
    forall u: Id, t: Id
      ensures HasEdge(adj, u, t) <==> (u, t) in Edges(s)
    {
      SuccsMembers(links, u, t);
      if (u, t) in EdgesOf(links) {
        var l :| l in links && (u, t) == (l.sourceNode, l.targetNode);
        assert l.sourceNode in Sources(links);
      }
    }
  }

  lemma SearchVerdict(s: Schema, E: set<Edge>, r: Result<(), GraphError>)
    requires E == Edges(s)
    requires r.Err? ==> r.error.CycleDetected? && IsSimpleCycle(E, r.error.cycle)
    requires r.Err? <==> CycleInReach(E, s.nodes.Keys)
    ensures r.Ok? ==> forall p :: IsCycle(E, p) ==> p[0] !in s.nodes
    ensures LinksWellFormed(s) ==> (r.Ok? <==> Acyclic(E)) && (r.Ok? <==> Plan(s.nodes.Keys, E).Ok?)
  {
    forall p | IsCycle(E, p) && p[0] in s.nodes
      ensures r.Err?
    {
      ReachesItself(E, p[0]);
      assert p[0] in s.nodes.Keys;
    }
    if LinksWellFormed(s) {
      CyclesStartAtNodes(s);
      PlanIsExecutionOrder(s);
    }
  }

  lemma CyclesStartAtNodes(s: Schema)
    requires LinksWellFormed(s)
    ensures forall p :: IsCycle(Edges(s), p) ==> p[0] in s.nodes
  {
    EdgesWellFormed(s);
    forall p | IsCycle(Edges(s), p)
      ensures p[0] in s.nodes
    {
      assert StepAt(Edges(s), p, 0);
      assert (p[0], p[1]).0 in s.nodes;
    }
  }
}
