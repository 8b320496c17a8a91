/** What Kahn's order is, beyond some topological order: depth by depth, and within a depth by last predecessor. */
module KahnDepth {
  import opened Sequences
  import opened Digraph
  import opened Kahn

  // ----- when a vertex becomes ready -----

  /** The length of the shortest prefix that holds all predecessors of `v`; 0 for a vertex without predecessors. */
  ghost function ReadyAt(E: set<Edge>, order: seq<Vertex>, v: Vertex): (k: nat)
    ensures k <= |order|
  {
    if order == [] then 0
    else if PredecessorsIn(E, v, ToSet(order[..|order| - 1])) then ReadyAt(E, order[..|order| - 1], v)
    else |order|
  }

  /** The vertex whose emission made `v` ready is a predecessor of `v`, and the last listed one. */
  lemma {:induction false} ReadyAtMeaning(E: set<Edge>, order: seq<Vertex>, v: Vertex)
    requires PredecessorsIn(E, v, ToSet(order))
    ensures var k := ReadyAt(E, order, v);
            PredecessorsIn(E, v, ToSet(order[..k])) && (k > 0 ==> (order[k - 1], v) in E)
  {
    if order != [] {
      var init, last := order[..|order| - 1], order[|order| - 1];
      assert order == init + [last];
      if PredecessorsIn(E, v, ToSet(init)) {
        ReadyAtMeaning(E, init, v);
        assert init[..ReadyAt(E, init, v)] == order[..ReadyAt(E, init, v)];
      } else {
        assert order[..|order|] == order;
        var e :| e in E && e.1 == v && e.0 !in ToSet(init);
        assert e.0 in ToSet(order);
      }
    }
  }

  lemma {:induction false} ReadyAtMost(E: set<Edge>, order: seq<Vertex>, v: Vertex, k: nat)
    requires k <= |order| && PredecessorsIn(E, v, ToSet(order[..k]))
    ensures ReadyAt(E, order, v) <= k
  {
    if k < |order| {
      var init := order[..|order| - 1];
      assert init[..k] == order[..k];
      assert forall x :: x in order[..k] ==> x in init;
      ReadyAtMost(E, init, v, k);
    }
  }

  /** By the moment of becoming ready, then by id. */
  predicate Earlier(k: nat, u: Vertex, l: nat, v: Vertex) {
    k < l || (k == l && u < v)
  }

  ghost predicate Ranked(E: set<Edge>, order: seq<Vertex>, all: seq<Vertex>) {
    forall i, j :: 0 <= i < j < |all| ==> Earlier(ReadyAt(E, order, all[i]), all[i], ReadyAt(E, order, all[j]), all[j])
  }

  lemma EmitKeepsRanked(V: set<Vertex>, E: set<Edge>, order: seq<Vertex>, queue: seq<Vertex>)
    requires Frontier(V, E, order, queue) && queue != [] && Ranked(E, order, order + queue)
    ensures var order', queue' := order + [queue[0]], queue[1..] + Batch(V, E, order, queue);
            Ranked(E, order', order' + queue')
  {
    var batch := Batch(V, E, order, queue);
    var order', all := order + [queue[0]], order + queue;
    var all' := order' + (queue[1..] + batch);
    assert all' == all + batch && order'[..|order|] == order;
    forall v | v in all
      ensures ReadyAt(E, order', v) == ReadyAt(E, order, v)
    {
    }
    forall v | v in batch
      ensures ReadyAt(E, order', v) == |order'|
    {
      BatchMembers(V, E, order, queue, v);
    }
    forall i, j | 0 <= i < j < |all'|
      ensures Earlier(ReadyAt(E, order', all'[i]), all'[i], ReadyAt(E, order', all'[j]), all'[j])
    {
      if j < |all| {
        assert all[i] in all && all[j] in all;
      } else if i < |all| {
        assert all[i] in all && batch[j - |all|] in batch;
      } else {
        assert batch[i - |all|] in batch && batch[j - |all|] in batch;
      }
    }
  }

  lemma {:induction false} RunIsRanked(V: set<Vertex>, E: set<Edge>, order: seq<Vertex>, queue: seq<Vertex>)
    requires Frontier(V, E, order, queue) && Ranked(E, order, order + queue)
    ensures Ranked(E, Run(V, E, order, queue), Run(V, E, order, queue))
    decreases V - ToSet(order)
  {
    if queue == [] {
      assert order + queue == order;
    } else {
      RunStep(V, E, order, queue);
      EmitKeepsRanked(V, E, order, queue);
      RunIsRanked(V, E, order + [queue[0]], queue[1..] + Batch(V, E, order, queue));
    }
  }

  /** The order lists vertices by the position of their last predecessor, then by id. */
  lemma OrderIsRanked(V: set<Vertex>, E: set<Edge>)
    ensures Ranked(E, Order(V, E), Order(V, E))
  {
    SeedFrontier(V, E);
    var q := SortedSeq(Ready(V, E, {}, {}));
    assert [] + q == q;
    RunIsRanked(V, E, [], q);
  }

  /** And that determines it: no other listing of the same vertices has this property. */
  lemma {:induction false} RankedIsUnique(E: set<Edge>, a: seq<Vertex>, b: seq<Vertex>, n: nat)
    requires NoDup(a) && NoDup(b) && ToSet(a) == ToSet(b)
    requires PredecessorsFirst(E, a) && PredecessorsFirst(E, b)
    requires Ranked(E, a, a) && Ranked(E, b, b) && n <= |a|
    ensures n <= |b| && a[..n] == b[..n]
  {
    NoDupCardinality(a);
    NoDupCardinality(b);
    if n > 0 {
      RankedIsUnique(E, a, b, n - 1);
      SameNext(E, a, b, n - 1);
      assert a[..n] == a[..n - 1] + [a[n - 1]] && b[..n] == b[..n - 1] + [b[n - 1]];
    }
  }

  lemma {:induction false} ReadyAtPrefix(E: set<Edge>, order: seq<Vertex>, n: nat, v: Vertex)
    requires n <= |order| && PredecessorsIn(E, v, ToSet(order[..n]))
    ensures ReadyAt(E, order, v) == ReadyAt(E, order[..n], v)
  {
    if n == |order| {
      assert order[..n] == order;
    } else {
      var init := order[..|order| - 1];
      assert init[..n] == order[..n];
      assert forall x :: x in order[..n] ==> x in init;
      ReadyAtPrefix(E, init, n, v);
    }
  }

  lemma SameNext(E: set<Edge>, a: seq<Vertex>, b: seq<Vertex>, n: nat)
    requires NoDup(a) && NoDup(b) && ToSet(a) == ToSet(b)
    requires PredecessorsFirst(E, a) && PredecessorsFirst(E, b)
    requires Ranked(E, a, a) && Ranked(E, b, b) && n < |a| == |b| && a[..n] == b[..n]
    ensures a[n] == b[n]
  {
    var u, v := a[n], b[n];
    assert PredecessorsIn(E, u, ToSet(a[..n])) && PredecessorsIn(E, v, ToSet(b[..n]));
    ReadyAtPrefix(E, a, n, u);
    ReadyAtPrefix(E, b, n, u);
    ReadyAtPrefix(E, a, n, v);
    ReadyAtPrefix(E, b, n, v);
    var i := PlaceAfter(b, a, n);
    var j := PlaceAfter(a, b, n);
    assert i > n ==> Earlier(ReadyAt(E, a, a[n]), a[n], ReadyAt(E, a, a[i]), a[i]);
    assert j > n ==> Earlier(ReadyAt(E, b, b[n]), b[n], ReadyAt(E, b, b[j]), b[j]);
  }

  /** Where `a[n]` is in another listing with the same first `n`. */
  lemma PlaceAfter(a: seq<Vertex>, b: seq<Vertex>, n: nat) returns (i: nat)
    requires NoDup(a) && ToSet(a) == ToSet(b) && n < |a| == |b| && a[..n] == b[..n]
    ensures n <= i < |b| && b[i] == a[n]
  {
    assert a[n] in ToSet(b);
    i :| 0 <= i < |b| && b[i] == a[n];
    assert forall k :: 0 <= k < n ==> a[..n][k] == a[k] && b[..n][k] == b[k];
  }

  lemma OrderIsTheRankedListing(V: set<Vertex>, E: set<Edge>, L: seq<Vertex>)
    requires NoDup(L) && ToSet(L) == ToSet(Order(V, E)) && PredecessorsFirst(E, L) && Ranked(E, L, L)
    ensures L == Order(V, E)
  {
    var M := Order(V, E);
    assert M + [] == M;
    OrderIsRanked(V, E);
    RankedIsUnique(E, L, M, |L|);
    NoDupCardinality(L);
    NoDupCardinality(M);
    assert L[..|L|] == L && M[..|L|] == M;
  }

  // ----- depth -----

  /** `d` is depth: 0 without predecessors, otherwise one more than the deepest predecessor. */
  ghost predicate IsDepth(E: set<Edge>, d: Vertex -> nat) {
    && (forall e :: e in E ==> d(e.0) < d(e.1))
    && (forall v {:trigger Above(E, d, v)} :: d(v) > 0 ==> Above(E, d, v) != {})
  }

  /** The predecessors one level up. */
  ghost function Above(E: set<Edge>, d: Vertex -> nat, v: Vertex): set<Vertex> {
    set e | e in E && e.1 == v && d(e.0) + 1 == d(v) :: e.0
  }

  /** Depth is the length of the longest walk that ends at the vertex. */
  lemma {:induction false} DepthBoundsWalks(E: set<Edge>, d: Vertex -> nat, p: seq<Vertex>)
    requires IsDepth(E, d) && IsWalk(E, p)
    ensures |p| - 1 <= d(p[|p| - 1])
    decreases |p|
  {
    if |p| > 1 {
      SubWalk(E, p, 0, |p| - 1);
      assert p[0..|p| - 1] == p[..|p| - 1];
      DepthBoundsWalks(E, d, p[..|p| - 1]);
      assert StepAt(E, p, |p| - 2);
    }
  }

  lemma {:induction false} DepthIsReached(E: set<Edge>, d: Vertex -> nat, v: Vertex) returns (p: seq<Vertex>)
    requires IsDepth(E, d)
    ensures IsWalk(E, p) && p[|p| - 1] == v && |p| - 1 == d(v)
    decreases d(v)
  {
    if d(v) == 0 {
      p := [v];
    } else {
      var u :| u in Above(E, d, v);
      var q := DepthIsReached(E, d, u);
      ExtendWalk(E, q, v);
      p := q + [v];
    }
  }

  // ----- every listed graph has a depth -----

  predicate OneAbove(E: set<Edge>, m: map<Vertex, nat>, v: Vertex) {
    exists e :: e in E && e.1 == v && e.0 in m && v in m && m[e.0] + 1 == m[v]
  }

  ghost predicate DepthOn(E: set<Edge>, m: map<Vertex, nat>) {
    && (forall e :: e in E && e.1 in m ==> e.0 in m && m[e.0] < m[e.1])
    && (forall v :: v in m && m[v] > 0 ==> OneAbove(E, m, v))
  }

  /** One level below the deepest predecessor. */
  ghost function Below(E: set<Edge>, m: map<Vertex, nat>, v: Vertex): nat {
    var levels := set e | e in E && e.1 == v && e.0 in m :: m[e.0];
    if levels == {} then 0 else Greatest(levels) + 1
  }

  lemma AddDepth(E: set<Edge>, m: map<Vertex, nat>, v: Vertex)
    requires DepthOn(E, m) && v !in m && forall e :: e in E && e.1 == v ==> e.0 in m
    ensures DepthOn(E, m[v := Below(E, m, v)])
  {
    var m' := m[v := Below(E, m, v)];
    forall e | e in E && e.1 in m'
      ensures e.0 in m' && m'[e.0] < m'[e.1]
    {
      NewDepthIsBelow(E, m, v, e);
    }
    forall u | u in m' && m'[u] > 0
      ensures OneAbove(E, m', u)
    {
      if u == v {
        NewDepthHasOneAbove(E, m, v);
      } else {
        OldDepthHasOneAbove(E, m, v, Below(E, m, v), u);
      }
    }
  }

  lemma NewDepthIsBelow(E: set<Edge>, m: map<Vertex, nat>, v: Vertex, e: Edge)
    requires DepthOn(E, m) && v !in m && (forall d :: d in E && d.1 == v ==> d.0 in m)
    requires e in E && (e.1 == v || e.1 in m)
    ensures var m' := m[v := Below(E, m, v)]; e.0 in m' && m'[e.0] < m'[e.1]
  {
    if e.1 == v {
      var levels := set d | d in E && d.1 == v && d.0 in m :: m[d.0];
      assert m[e.0] in levels;
    }
  }

  lemma OldDepthHasOneAbove(E: set<Edge>, m: map<Vertex, nat>, v: Vertex, level: nat, u: Vertex)
    requires u in m && v !in m && OneAbove(E, m, u)
    ensures OneAbove(E, m[v := level], u)
  {
    var e :| e in E && e.1 == u && e.0 in m && m[e.0] + 1 == m[u];
    assert m[v := level][e.0] + 1 == m[v := level][u];
  }

  lemma NewDepthHasOneAbove(E: set<Edge>, m: map<Vertex, nat>, v: Vertex)
    requires v !in m && Below(E, m, v) > 0
    ensures OneAbove(E, m[v := Below(E, m, v)], v)
  {
    var levels := set e | e in E && e.1 == v && e.0 in m :: m[e.0];
    assert Greatest(levels) in levels;
    var e :| e in E && e.1 == v && e.0 in m && m[e.0] == Greatest(levels);
    assert m[v := Below(E, m, v)][e.0] == m[e.0];
  }

  lemma {:induction false} DepthMap(E: set<Edge>, L: seq<Vertex>) returns (m: map<Vertex, nat>)
    requires NoDup(L) && PredecessorsFirst(E, L)
    ensures DepthOn(E, m) && m.Keys == ToSet(L)
    decreases |L|
  {
    if L == [] {
      m := map[];
    } else {
      var init, v := L[..|L| - 1], L[|L| - 1];
      assert L == init + [v];
      assert forall j :: 0 <= j < |init| ==> init[..j] == L[..j];
      var before := DepthMap(E, init);
      assert PredecessorsIn(E, v, ToSet(L[..|L| - 1]));
      AddDepth(E, before, v);
      m := before[v := Below(E, before, v)];
      assert m.Keys == ToSet(init) + {v} == ToSet(L);
    }
  }

  lemma DepthExists(E: set<Edge>, L: seq<Vertex>) returns (d: Vertex -> nat)
    requires NoDup(L) && PredecessorsFirst(E, L) && forall e :: e in E ==> e.1 in L
    ensures IsDepth(E, d)
  {
    var m := DepthMap(E, L);
    d := v => if v in m then m[v] else 0;
    forall e | e in E
      ensures d(e.0) < d(e.1)
    {
      assert e.1 in ToSet(L);
    }
    forall v | d(v) > 0
      ensures Above(E, d, v) != {}
    {
      assert OneAbove(E, m, v);
      var e :| e in E && e.1 == v && e.0 in m && m[e.0] + 1 == m[v];
      assert e.0 in Above(E, d, v);
    }
  }

  // ----- the order by positions: depths `D`, and for each entry the place `R` behind its last predecessor -----

  predicate StepsOne(D: seq<nat>, R: seq<nat>, i: nat)
    requires |R| == |D| && i < |D|
  {
    && R[i] <= i && (R[i] == 0 ==> D[i] == 0)
    && (R[i] > 0 ==> D[i] > 0 && D[R[i] - 1] < D[i] && exists m :: 0 <= m < R[i] && D[m] + 1 == D[i])
  }

  ghost predicate Profile(D: seq<nat>, R: seq<nat>) {
    |R| == |D| && forall i {:trigger StepsOne(D, R, i)} :: 0 <= i < |D| ==> StepsOne(D, R, i)
  }

  ghost predicate Rising(s: seq<nat>) {
    forall i, j :: 0 <= i < j < |s| ==> s[i] <= s[j]
  }

  ghost predicate LexSorted(L: seq<Vertex>, R: seq<nat>) {
    |R| == |L| && forall i, j {:trigger Earlier(R[i], L[i], R[j], L[j])} :: 0 <= i < j < |L| ==>
      Earlier(R[i], L[i], R[j], L[j])
  }

  function Depths(d: Vertex -> nat, L: seq<Vertex>): (D: seq<nat>)
    ensures |D| == |L| && forall i {:trigger D[i]} :: 0 <= i < |D| ==> D[i] == d(L[i])
  {
    seq(|L|, i requires 0 <= i < |L| => d(L[i]))
  }

  ghost function Releases(E: set<Edge>, L: seq<Vertex>): (R: seq<nat>)
    ensures |R| == |L| && forall i {:trigger R[i]} :: 0 <= i < |R| ==> R[i] == ReadyAt(E, L, L[i])
  {
    seq(|L|, i requires 0 <= i < |L| => ReadyAt(E, L, L[i]))
  }

  lemma ReleaseFacts(E: set<Edge>, L: seq<Vertex>, i: nat)
    requires PredecessorsFirst(E, L) && i < |L|
    ensures var k := ReadyAt(E, L, L[i]);
            k <= i && PredecessorsIn(E, L[i], ToSet(L[..k])) && (k > 0 ==> (L[k - 1], L[i]) in E)
  {
    assert PredecessorsIn(E, L[i], ToSet(L[..i]));
    ReadyAtMost(E, L, L[i], i);
    assert forall x :: x in L[..i] ==> x in L;
    ReadyAtMeaning(E, L, L[i]);
  }

  /** Where a predecessor of `L[i]` is listed. */
  lemma PredecessorPlace(E: set<Edge>, L: seq<Vertex>, i: nat, u: Vertex) returns (m: nat)
    requires PredecessorsFirst(E, L) && i < |L| && (u, L[i]) in E
    ensures m < ReadyAt(E, L, L[i]) <= i && L[m] == u
  {
    ReleaseFacts(E, L, i);
    var k := ReadyAt(E, L, L[i]);
    assert (u, L[i]).0 in ToSet(L[..k]);
    m :| 0 <= m < k && L[..k][m] == u;
  }

  lemma ProfileAt(E: set<Edge>, d: Vertex -> nat, L: seq<Vertex>, i: nat)
    requires IsDepth(E, d) && PredecessorsFirst(E, L) && i < |L|
    ensures StepsOne(Depths(d, L), Releases(E, L), i)
  {
    var D, R := Depths(d, L), Releases(E, L);
    ReleaseFacts(E, L, i);
    if d(L[i]) > 0 {
      var u :| u in Above(E, d, L[i]);
      AboveMeaning(E, d, L[i], u);
      var m := PredecessorPlace(E, L, i, u);
      assert D[m] + 1 == D[i];
    }
  }

  lemma OrderHasProfile(E: set<Edge>, d: Vertex -> nat, L: seq<Vertex>)
    requires IsDepth(E, d) && PredecessorsFirst(E, L)
    ensures Profile(Depths(d, L), Releases(E, L))
  {
    forall i | 0 <= i < |L|
      ensures StepsOne(Depths(d, L), Releases(E, L), i)
    {
      ProfileAt(E, d, L, i);
    }
  }

  // ----- depth by depth -----

  /** If depths do not fall before entry `i`, its releaser is exactly one level above it. */
  lemma ReleaserIsOneAbove(D: seq<nat>, R: seq<nat>, n: nat, i: nat)
    requires Profile(D, R) && i <= n < |D| && Rising(D[..n]) && R[i] > 0
    ensures R[i] <= i && D[R[i] - 1] + 1 == D[i]
  {
    assert StepsOne(D, R, i);
    var m :| 0 <= m < R[i] && D[m] + 1 == D[i];
    assert D[..n][m] == D[m] && D[..n][R[i] - 1] == D[R[i] - 1];
  }

  lemma {:induction false} DepthsRise(D: seq<nat>, R: seq<nat>, n: nat)
    requires Profile(D, R) && Rising(R) && n <= |D|
    ensures Rising(D[..n])
  {
    if n >= 2 {
      DepthsRise(D, R, n - 1);
      NextIsNoShallower(D, R, n - 1);
      RisingGrows(D, n - 1);
    }
  }

  lemma RisingGrows(D: seq<nat>, n: nat)
    requires 1 <= n < |D| && Rising(D[..n]) && D[n - 1] <= D[n]
    ensures Rising(D[..n + 1])
  {
    var s, s' := D[..n], D[..n + 1];
    assert forall i :: 0 <= i < n ==> s[i] == s'[i] && s[i] <= s[n - 1];
  }

  lemma NextIsNoShallower(D: seq<nat>, R: seq<nat>, n: nat)
    requires Profile(D, R) && Rising(R) && 1 <= n < |D| && Rising(D[..n])
    ensures D[n - 1] <= D[n]
  {
    var k, l := R[n - 1], R[n];
    assert StepsOne(D, R, n - 1) && StepsOne(D, R, n) && k <= l;
    if k > 0 {
      ReleaserIsOneAbove(D, R, n, n - 1);
      ReleaserIsOneAbove(D, R, n, n);
      assert D[..n][k - 1] <= D[..n][l - 1];
    }
  }

  // ----- within a depth -----

  /** Ids of one depth are listed in ascending order. */
  ghost predicate LevelAscending(L: seq<Vertex>, D: seq<nat>, level: nat)
    requires |D| == |L|
  {
    forall i, j :: 0 <= i < j < |L| && D[i] == D[j] == level ==> L[i] < L[j]
  }

  /** What the documentation promises: depth by depth, and by id within a depth. */
  ghost predicate SortedByDepthAndId(d: Vertex -> nat, L: seq<Vertex>) {
    && Rising(Depths(d, L))
    && forall level {:trigger LevelAscending(L, Depths(d, L), level)} :: LevelAscending(L, Depths(d, L), level)
  }

  /** The greatest predecessor one level above. */
  ghost function LastAbove(E: set<Edge>, d: Vertex -> nat, v: Vertex): Vertex {
    if Above(E, d, v) == {} then 0 else Greatest(Above(E, d, v))
  }

  /** Of two vertices of the same depth, the smaller one's last predecessor above is not the greater one. */
  ghost predicate PredecessorsInStep(V: set<Vertex>, E: set<Edge>, d: Vertex -> nat) {
    forall u, v :: u in V && v in V && u < v && d(u) == d(v) > 0 ==> LastAbove(E, d, u) <= LastAbove(E, d, v)
  }

  lemma LevelOrder(L: seq<Vertex>, D: seq<nat>, level: nat, m: nat, n: nat)
    requires |D| == |L| && LevelAscending(L, D, level) && m <= n < |L| && D[m] == D[n] == level
    ensures L[m] <= L[n] && (m < n ==> L[m] < L[n])
  {
  }

  lemma PlaceOrder(L: seq<Vertex>, D: seq<nat>, level: nat, i: nat, j: nat)
    requires |D| == |L| && LevelAscending(L, D, level) && i < |L| && j < |L| && D[i] == D[j] == level && L[i] < L[j]
    ensures i < j
  {
  }

  lemma AboveMeaning(E: set<Edge>, d: Vertex -> nat, v: Vertex, x: Vertex)
    ensures x in Above(E, d, v) <==> (x, v) in E && d(x) + 1 == d(v)
  {
  }

  lemma GreatestIs(S: set<nat>, x: nat)
    requires x in S && forall y :: y in S ==> y <= x
    ensures Greatest(S) == x
  {
  }

  /** When depths rise, the entry that released a deep one is one above it. */
  lemma RisingReleaser(D: seq<nat>, R: seq<nat>, i: nat)
    requires |R| == |D| && i < |D| && Rising(D) && StepsOne(D, R, i) && D[i] > 0
    ensures 0 < R[i] <= i && D[R[i] - 1] + 1 == D[i]
  {
    var m :| 0 <= m < R[i] && D[m] + 1 == D[i];
  }

  lemma ReleaserDepth(E: set<Edge>, d: Vertex -> nat, L: seq<Vertex>, i: nat, k: nat)
    requires IsDepth(E, d) && PredecessorsFirst(E, L) && Rising(Depths(d, L)) && i < |L| && d(L[i]) > 0
    requires k == ReadyAt(E, L, L[i])
    ensures 0 < k <= i && d(L[k - 1]) + 1 == d(L[i])
  {
    ProfileAt(E, d, L, i);
    RisingReleaser(Depths(d, L), Releases(E, L), i);
  }

  lemma ReleaserAbove(E: set<Edge>, d: Vertex -> nat, L: seq<Vertex>, i: nat)
    requires IsDepth(E, d) && PredecessorsFirst(E, L) && Rising(Depths(d, L)) && i < |L| && d(L[i]) > 0
    ensures 0 < Releases(E, L)[i] <= i
    ensures d(L[Releases(E, L)[i] - 1]) + 1 == d(L[i])
    ensures L[Releases(E, L)[i] - 1] in Above(E, d, L[i])
  {
    var k := ReadyAt(E, L, L[i]);
    ReleaserDepth(E, d, L, i, k);
    ReleaseFacts(E, L, i);
    AboveMeaning(E, d, L[i], L[k - 1]);
  }

  /** `x` is listed before position `n`, on that level. */
  ghost predicate ListedBefore(L: seq<Vertex>, D: seq<nat>, x: Vertex, level: nat, n: nat)
    requires |D| == |L|
  {
    exists m :: 0 <= m < n && m < |L| && L[m] == x && D[m] == level
  }

  lemma AboveIsListed(E: set<Edge>, d: Vertex -> nat, L: seq<Vertex>, i: nat, x: Vertex)
    requires PredecessorsFirst(E, L) && i < |L| && (x, L[i]) in E
    ensures ListedBefore(L, Depths(d, L), x, d(x), ReadyAt(E, L, L[i]))
  {
    var m := PredecessorPlace(E, L, i, x);
    assert Depths(d, L)[m] == d(x);
  }

  lemma ListedNoLater(L: seq<Vertex>, D: seq<nat>, x: Vertex, level: nat, k: nat)
    requires |D| == |L| && 0 < k <= |L| && D[k - 1] == level
    requires ListedBefore(L, D, x, level, k) && LevelAscending(L, D, level)
    ensures x <= L[k - 1]
  {
    var m :| 0 <= m < k && m < |L| && L[m] == x && D[m] == level;
    LevelOrder(L, D, level, m, k - 1);
  }

  lemma NoneAboveIsGreater(E: set<Edge>, d: Vertex -> nat, L: seq<Vertex>, i: nat, k: nat, level: nat)
    requires PredecessorsFirst(E, L) && i < |L| && k == ReadyAt(E, L, L[i]) && 0 < k
    requires d(L[k - 1]) == level && d(L[i]) == level + 1 && LevelAscending(L, Depths(d, L), level)
    ensures forall x :: x in Above(E, d, L[i]) ==> x <= L[k - 1]
  {
    forall x | x in Above(E, d, L[i])
      ensures x <= L[k - 1]
    {
      AboveMeaning(E, d, L[i], x);
      AboveIsListed(E, d, L, i, x);
      ListedNoLater(L, Depths(d, L), x, level, k);
    }
  }

  /** On an ascending level the releaser is the greatest predecessor there. */
  lemma ReleaserIsGreatest(E: set<Edge>, d: Vertex -> nat, L: seq<Vertex>, i: nat)
    requires IsDepth(E, d) && PredecessorsFirst(E, L) && Rising(Depths(d, L)) && i < |L| && d(L[i]) > 0
    requires LevelAscending(L, Depths(d, L), d(L[i]) - 1)
    ensures 0 < Releases(E, L)[i] <= i
    ensures d(L[Releases(E, L)[i] - 1]) + 1 == d(L[i])
    ensures L[Releases(E, L)[i] - 1] == LastAbove(E, d, L[i])
  {
    ReleaserAbove(E, d, L, i);
    var k := Releases(E, L)[i];
    NoneAboveIsGreater(E, d, L, i, k, d(L[i]) - 1);
    GreatestIs(Above(E, d, L[i]), L[k - 1]);
  }

  /** `h` names the releasers on ascending levels. */
  ghost predicate Names(L: seq<Vertex>, D: seq<nat>, R: seq<nat>, h: seq<Vertex>) {
    && |D| == |R| == |h| == |L|
    && forall i {:trigger NamedAt(L, D, R, h, i)} :: 0 <= i < |L| ==> NamedAt(L, D, R, h, i)
  }

  ghost predicate NamedAt(L: seq<Vertex>, D: seq<nat>, R: seq<nat>, h: seq<Vertex>, i: nat)
    requires |D| == |R| == |h| == |L| && i < |L|
  {
    && (D[i] == 0 ==> R[i] == 0)
    && (D[i] > 0 && LevelAscending(L, D, D[i] - 1) ==> 0 < R[i] <= i && D[R[i] - 1] + 1 == D[i] && L[R[i] - 1] == h[i])
  }

  ghost predicate InStep(L: seq<Vertex>, D: seq<nat>, h: seq<Vertex>)
    requires |D| == |h| == |L|
  {
    forall i, j :: 0 <= i < |L| && 0 <= j < |L| && D[i] == D[j] > 0 && L[i] < L[j] ==> h[i] <= h[j]
  }

  lemma {:induction false} LevelAscends(L: seq<Vertex>, D: seq<nat>, R: seq<nat>, h: seq<Vertex>, level: nat)
    requires NoDup(L) && LexSorted(L, R) && Names(L, D, R, h) && InStep(L, D, h)
    ensures LevelAscending(L, D, level)
    decreases level
  {
    if level > 0 {
      LevelAscends(L, D, R, h, level - 1);
    }
    forall i, j | 0 <= i < j < |L| && D[i] == D[j] == level
      ensures L[i] < L[j]
    {
      assert Earlier(R[i], L[i], R[j], L[j]) && NamedAt(L, D, R, h, i) && NamedAt(L, D, R, h, j);
      if level > 0 {
        LevelOrder(L, D, level - 1, R[i] - 1, R[j] - 1);
      }
    }
  }

  lemma InStepPair(L: seq<Vertex>, D: seq<nat>, R: seq<nat>, h: seq<Vertex>, i: nat, j: nat)
    requires LexSorted(L, R) && Names(L, D, R, h)
    requires i < |L| && j < |L| && D[i] == D[j] > 0 && L[i] < L[j]
    requires LevelAscending(L, D, D[i]) && LevelAscending(L, D, D[i] - 1)
    ensures h[i] <= h[j]
  {
    PlaceOrder(L, D, D[i], i, j);
    assert Earlier(R[i], L[i], R[j], L[j]) && NamedAt(L, D, R, h, i) && NamedAt(L, D, R, h, j);
    LevelOrder(L, D, D[i] - 1, R[i] - 1, R[j] - 1);
  }

  lemma AscendingMeansInStep(L: seq<Vertex>, D: seq<nat>, R: seq<nat>, h: seq<Vertex>)
    requires LexSorted(L, R) && Names(L, D, R, h)
    requires forall level {:trigger LevelAscending(L, D, level)} :: LevelAscending(L, D, level)
    ensures InStep(L, D, h)
  {
    forall i, j | 0 <= i < |L| && 0 <= j < |L| && D[i] == D[j] > 0 && L[i] < L[j]
      ensures h[i] <= h[j]
    {
      assert LevelAscending(L, D, D[i]) && LevelAscending(L, D, D[i] - 1);
      InStepPair(L, D, R, h, i, j);
    }
  }

  ghost function Lasts(E: set<Edge>, d: Vertex -> nat, L: seq<Vertex>): (h: seq<Vertex>)
    ensures |h| == |L| && forall i {:trigger h[i]} :: 0 <= i < |h| ==> h[i] == LastAbove(E, d, L[i])
  {
    seq(|L|, i requires 0 <= i < |L| => LastAbove(E, d, L[i]))
  }

  lemma LastsAreReleasers(E: set<Edge>, d: Vertex -> nat, L: seq<Vertex>)
    requires IsDepth(E, d) && PredecessorsFirst(E, L) && Rising(Depths(d, L))
    ensures Names(L, Depths(d, L), Releases(E, L), Lasts(E, d, L))
  {
    var D, R, h := Depths(d, L), Releases(E, L), Lasts(E, d, L);
    forall i | 0 <= i < |L|
      ensures NamedAt(L, D, R, h, i)
    {
      ProfileAt(E, d, L, i);
      if D[i] > 0 && LevelAscending(L, D, D[i] - 1) {
        ReleaserIsGreatest(E, d, L, i);
      }
    }
  }

  lemma InStepByVertices(V: set<Vertex>, E: set<Edge>, d: Vertex -> nat, L: seq<Vertex>)
    requires ToSet(L) == V
    ensures PredecessorsInStep(V, E, d) <==> InStep(L, Depths(d, L), Lasts(E, d, L))
  {
    assert forall i :: 0 <= i < |L| ==> L[i] in ToSet(L);
    if InStep(L, Depths(d, L), Lasts(E, d, L)) {
      forall u, v | u in V && v in V && u < v && d(u) == d(v) > 0
        ensures LastAbove(E, d, u) <= LastAbove(E, d, v)
      {
        var i :| 0 <= i < |L| && L[i] == u;
        var j :| 0 <= j < |L| && L[j] == v;
        assert Lasts(E, d, L)[i] <= Lasts(E, d, L)[j];
      }
    }
  }

  /**
    * The order always goes depth by depth. It is sorted by id within every depth, as documented, exactly when
    * the last predecessors of equally deep vertices are in step with their ids.
    */
  lemma SortedWithinDepthsExactlyWhen(V: set<Vertex>, E: set<Edge>, d: Vertex -> nat)
    requires WellFormed(V, E) && Acyclic(E) && IsDepth(E, d)
    ensures Rising(Depths(d, Order(V, E)))
    ensures SortedByDepthAndId(d, Order(V, E)) <==> PredecessorsInStep(V, E, d)
  {
    var L := Order(V, E);
    var D, R, h := Depths(d, L), Releases(E, L), Lasts(E, d, L);
    CompleteIffAcyclic(V, E);
    OrderIsRanked(V, E);
    OrderHasProfile(E, d, L);
    assert LexSorted(L, R);
    RankedRises(L, R);
    DepthsRise(D, R, |D|);
    assert D[..|D|] == D;
    LastsAreReleasers(E, d, L);
    InStepByVertices(V, E, d, L);
    if InStep(L, D, h) {
      forall level: nat
        ensures LevelAscending(L, D, level)
      {
        LevelAscends(L, D, R, h, level);
      }
    }
    if SortedByDepthAndId(d, L) {
      AscendingMeansInStep(L, D, R, h);
    }
  }

  lemma RankedRises(L: seq<Vertex>, R: seq<nat>)
    requires LexSorted(L, R)
    ensures Rising(R)
  {
    forall i, j | 0 <= i < j < |R|
      ensures R[i] <= R[j]
    {
      assert Earlier(R[i], L[i], R[j], L[j]);
    }
  }

  /** Links 1 -> 4 and 2 -> 3: 3 and 4 are equally deep, and are not listed in ascending order. */
  lemma SameDepthNotSorted(E: set<Edge>, d: Vertex -> nat)
    requires E == {(1, 4), (2, 3)} && IsDepth(E, d)
    ensures WellFormed({1, 2, 3, 4}, E) && Acyclic(E)
    ensures d(3) == d(4) && !SortedByDepthAndId(d, Order({1, 2, 3, 4}, E))
  {
    TwoLinksDepth(E, d);
    var V: set<Vertex> := {1, 2, 3, 4};
    OutOfStep(V, E, d);
    SortedWithinDepthsExactlyWhen(V, E, d);
  }

  lemma OutOfStep(V: set<Vertex>, E: set<Edge>, d: Vertex -> nat)
    requires 3 in V && 4 in V && d(3) == d(4) == 1 && Above(E, d, 3) == {2} && Above(E, d, 4) == {1}
    ensures !PredecessorsInStep(V, E, d)
  {
    GreatestIs({2}, 2);
    GreatestIs({1}, 1);
    assert LastAbove(E, d, 3) > LastAbove(E, d, 4);
  }

  lemma TwoLinksDepth(E: set<Edge>, d: Vertex -> nat)
    requires E == {(1, 4), (2, 3)} && IsDepth(E, d)
    ensures WellFormed({1, 2, 3, 4}, E) && Acyclic(E)
    ensures d(3) == d(4) == 1 && Above(E, d, 3) == {2} && Above(E, d, 4) == {1}
  {
    assert (1, 4) in E && (2, 3) in E;
    assert Above(E, d, 1) == {} && Above(E, d, 2) == {};
    assert Above(E, d, 3) <= {2} && Above(E, d, 4) <= {1};
    TwoLinksAcyclic(E);
  }

  lemma TwoLinksAcyclic(E: set<Edge>)
    requires E == {(1, 4), (2, 3)}
    ensures Acyclic(E)
  {
    var L: seq<Vertex> := [1, 2];
    assert L[0] == 1 && L[1] == 2 && forall e :: e in E ==> e.1 !in L;
    assert PredecessorsFirst(E, L);
    ListingImpliesAcyclic(E, L);
  }
}
