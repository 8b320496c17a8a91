/** The depth-first cycle search: white, grey and black vertices and a recursion stack. */
module CycleSearching {
  import opened Sequences
  import opened Digraph
  import opened GraphSchema

  function ColourOf(colour: map<Id, nat>, v: Id): nat {
    if v in colour then colour[v] else 0
  }

  predicate HasEdge(adj: map<Id, seq<Id>>, s: Id, t: Id) {
    s in adj && t in adj[s]
  }

  ghost predicate AdjacencyOf(adj: map<Id, seq<Id>>, E: set<Edge>) {
    forall s: Id, t: Id :: HasEdge(adj, s, t) <==> (s, t) in E
  }

  /** Grey vertices form a walk, black ones a listing with successors first, and the rest is white. */
  ghost predicate Searching(E: set<Edge>, U: set<Id>, colour: map<Id, nat>, stack: seq<Id>, finished: seq<Id>) {
    && (stack == [] || IsWalk(E, stack))
    && NoDup(stack) && NoDup(finished)
    && (forall v :: v in stack ==> v in U && ColourOf(colour, v) == 1)
    && (forall v :: v in finished ==> v in U && ColourOf(colour, v) == 2)
    && (forall v :: ColourOf(colour, v) == 0 || v in stack || v in finished)
    && SuccessorsFirst(E, finished)
  }

  ghost function White(U: set<Id>, colour: map<Id, nat>): set<Id> {
    set v | v in U && ColourOf(colour, v) == 0
  }

  function FirstIndex(s: seq<Id>, x: Id): (i: nat)
    requires x in s
    ensures i < |s| && s[i] == x
  {
    if s[0] == x then 0 else 1 + FirstIndex(s[1..], x)
  }

  lemma BackEdgeClosesCycle(E: set<Edge>, stack: seq<Id>, next: Id)
    requires stack != [] && IsWalk(E, stack) && NoDup(stack)
    requires (stack[|stack| - 1], next) in E && next in stack
    ensures IsSimpleCycle(E, stack[FirstIndex(stack, next)..] + [next]) && Reaches(E, stack[0], next)
  {
    var k := FirstIndex(stack, next);
    SubWalk(E, stack, k, |stack|);
    assert stack[k..] == stack[k..|stack|];
    ExtendWalk(E, stack[k..], next);
    SubWalk(E, stack, 0, k + 1);
    assert stack[0..k + 1][0] == stack[0] && stack[0..k + 1][k] == next;
    var c := stack[k..] + [next];
    assert c[..|c| - 1] == stack[k..];
  }

  lemma PushGrey(E: set<Edge>, U: set<Id>, colour: map<Id, nat>, stack: seq<Id>, finished: seq<Id>, node: Id)
    requires Searching(E, U, colour, stack, finished) && ColourOf(colour, node) == 0 && node in U
    requires stack == [] || (stack[|stack| - 1], node) in E
    ensures Searching(E, U, colour[node := 1], stack + [node], finished)
    ensures White(U, colour[node := 1]) < White(U, colour)
  {
    if stack != [] {
      ExtendWalk(E, stack, node);
    }
    var colour' := colour[node := 1];
    assert node !in stack && node !in finished;
    forall v
      ensures ColourOf(colour', v) == if v == node then 1 else ColourOf(colour, v)
    {
    }
    assert node in White(U, colour) && node !in White(U, colour');
  }

  lemma PopBlack(E: set<Edge>, U: set<Id>, colour: map<Id, nat>, stack: seq<Id>, finished: seq<Id>, node: Id)
    requires Searching(E, U, colour, stack + [node], finished)
    requires SuccessorsIn(E, node, ToSet(finished))
    ensures Searching(E, U, colour[node := 2], stack, finished + [node])
  {
    StackTop(E, stack, node);
    assert node in stack + [node] && node !in finished;
    AppendListed(E, finished, node);
    var colour', finished' := colour[node := 2], finished + [node];
    forall v
      ensures ColourOf(colour', v) == if v == node then 2 else ColourOf(colour, v)
      ensures v in stack ==> v in stack + [node]
    {
    }
  }

  lemma StackTop(E: set<Edge>, stack: seq<Id>, node: Id)
    requires IsWalk(E, stack + [node]) && NoDup(stack + [node])
    ensures (stack == [] || IsWalk(E, stack)) && NoDup(stack) && node !in stack
    ensures forall v :: v in stack + [node] <==> v in stack || v == node
  {
    var grey := stack + [node];
    assert grey[|stack|] == node && forall i :: 0 <= i < |stack| ==> grey[i] == stack[i];
    if stack != [] {
      SubWalk(E, grey, 0, |stack|);
      assert grey[0..|stack|] == stack;
    }
  }

  ghost predicate Covered(row: seq<Id>, n: nat, finished: seq<Id>)
    requires n <= |row|
  {
    forall k :: 0 <= k < n ==> row[k] in finished
  }

  lemma CoveredGrows(row: seq<Id>, n: nat, before: seq<Id>, after: seq<Id>)
    requires n < |row| && Covered(row, n, before) && before <= after && row[n] in after
    ensures Covered(row, n + 1, after)
  {
    forall x | x in before
      ensures x in after
    {
      var i :| 0 <= i < |before| && before[i] == x;
      assert after[i] == x;
    }
  }

  lemma AllNeighboursFinished(adj: map<Id, seq<Id>>, E: set<Edge>, node: Id, row: seq<Id>, finished: seq<Id>)
    requires AdjacencyOf(adj, E) && row == (if node in adj then adj[node] else []) && Covered(row, |row|, finished)
    ensures SuccessorsIn(E, node, ToSet(finished))
  {
    forall e | e in E && e.0 == node
      ensures e.1 in ToSet(finished)
    {
      assert HasEdge(adj, node, e.1);
    }
  }

  /** A simple cycle in reach of `root`. */
  ghost predicate CycleFrom(E: set<Edge>, root: Id, r: Result<(), GraphError>) {
    r.Err? && r.error.CycleDetected? && IsSimpleCycle(E, r.error.cycle) && Reaches(E, root, r.error.cycle[0])
  }

  class CycleSearch {
    var colour: map<Id, nat>
    var stack: seq<Id>
    ghost var finished: seq<Id>

    constructor (ids: set<Id>)
      ensures colour == (map id | id in ids :: 0) && stack == [] && finished == []
    {
      colour, stack, finished := map id | id in ids :: 0, [], [];
    }

    /** `dfs_cycle`: grey the vertex, look at its neighbours, blacken it. */
    method Visit(node: Id, adj: map<Id, seq<Id>>, ghost E: set<Edge>, ghost U: set<Id>)
      returns (r: Result<(), GraphError>)
      requires AdjacencyOf(adj, E) && (forall e :: e in E ==> e.1 in U)
      requires Searching(E, U, colour, stack, finished)
      requires ColourOf(colour, node) == 0 && node in U
      requires stack == [] || (stack[|stack| - 1], node) in E
      modifies this
      ensures r.Err? ==> CycleFrom(E, (old(stack) + [node])[0], r)
      ensures r.Ok? ==> Searching(E, U, colour, stack, finished)
      ensures r.Ok? ==> stack == old(stack) && old(finished) <= finished && node in finished
      ensures White(U, colour) <= White(U, old(colour))
      decreases White(U, colour), 0
    {
      PushGrey(E, U, colour, stack, finished, node);
      colour := colour[node := 1];
      stack := stack + [node];
      var neighbours := if node in adj then adj[node] else [];
      for i := 0 to |neighbours|
        invariant Searching(E, U, colour, stack, finished)
        invariant stack == old(stack) + [node] && old(finished) <= finished
        invariant White(U, colour) < White(U, old(colour))
        invariant Covered(neighbours, i, finished)
      {
        assert HasEdge(adj, node, neighbours[i]);
        ghost var before := finished;
        r := Look(neighbours[i], adj, E, U);
        if r.Err? {
          return;
        }
        CoveredGrows(neighbours, i, before, finished);
      }
      AllNeighboursFinished(adj, E, node, neighbours, finished);
      Leave(node, E, U, old(stack));
      return Ok(());
    }

    /** Every neighbour is finished: pop the vertex and blacken it. */
    method Leave(node: Id, ghost E: set<Edge>, ghost U: set<Id>, ghost below: seq<Id>)
      requires stack == below + [node] && Searching(E, U, colour, stack, finished)
      requires SuccessorsIn(E, node, ToSet(finished))
      modifies this
      ensures Searching(E, U, colour, stack, finished)
      ensures stack == below && finished == old(finished) + [node]
      ensures White(U, colour) == White(U, old(colour))
    {
      PopBlack(E, U, colour, below, finished, node);
      assert node in stack;
      stack := stack[..|stack| - 1];
      colour := colour[node := 2];
      finished := finished + [node];
    }

    /** One neighbour of the vertex on top of the stack: grey closes a cycle, white is visited. */
    method Look(next: Id, adj: map<Id, seq<Id>>, ghost E: set<Edge>, ghost U: set<Id>)
      returns (r: Result<(), GraphError>)
      requires AdjacencyOf(adj, E) && (forall e :: e in E ==> e.1 in U)
      requires Searching(E, U, colour, stack, finished)
      requires stack != [] && (stack[|stack| - 1], next) in E
      modifies this
      ensures r.Err? ==> CycleFrom(E, old(stack)[0], r)
      ensures r.Ok? ==> Searching(E, U, colour, stack, finished)
      ensures r.Ok? ==> stack == old(stack) && old(finished) <= finished && next in finished
      ensures White(U, colour) <= White(U, old(colour))
      decreases White(U, colour), 1
    {
      match ColourOf(colour, next)
      case 1 =>
        BackEdgeClosesCycle(E, stack, next);
        return Err(CycleDetected(stack[FirstIndex(stack, next)..] + [next]));
      case 0 =>
        assert (stack[|stack| - 1], next).1 in U;
        r := Visit(next, adj, E, U);
      case _ =>
        return Ok(());
    }
  }
}
