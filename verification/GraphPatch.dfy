/** Patch operations, the patch interpreter and the diff that produces patches. */
module GraphPatching {
  import opened Sequences
  import opened GraphSchema

  datatype PatchOp =
    | PutNode(node: GraphNode)
    | DropNode(id: Id)
    | UpdateNodeLabel(id: Id, newLabel: string)
    | UpdateNodeParams(id: Id, params: map<string, Json>)
    | MoveNode(id: Id, position: (real, real))
    | PutLink(link: Link)
    | DropLink(id: Id)
    | PutGroup(group: Group)
    | DropGroup(id: Id)
    | AddNodeToGroup(nodeId: Id, groupId: Id)
    | RemoveNodeFromGroup(nodeId: Id, groupId: Id)
    | PutSubgraph(subgraph: Subgraph)
    | DropSubgraph(id: Id)

  function ApplyOp(s: Schema, op: PatchOp): Result<Schema, GraphError> {
    match op
    case PutNode(n) =>
      if n.id in s.nodes then Err(AlreadyExists(n.id)) else Ok(s.(nodes := s.nodes[n.id := n]))
    case DropNode(id) =>
      if id in s.nodes then Ok(WithoutNode(s, id)) else Err(NodeNotFound(id))
    case UpdateNodeLabel(id, newLabel) =>
      if id !in s.nodes then Err(NodeNotFound(id))
      else Ok(s.(nodes := s.nodes[id := s.nodes[id].(nodeLabel := newLabel)]))
    case UpdateNodeParams(id, params) =>
      if id !in s.nodes then Err(NodeNotFound(id))
      else Ok(s.(nodes := s.nodes[id := s.nodes[id].(parameters := s.nodes[id].parameters + params)]))
    case MoveNode(id, position) =>
      if id !in s.nodes then Err(NodeNotFound(id))
      else Ok(s.(nodes := s.nodes[id := s.nodes[id].(position := position)]))
    case PutLink(l) =>
      if l.id in s.links then Err(AlreadyExists(l.id)) else Ok(s.(links := s.links[l.id := l]))
    case DropLink(id) =>
      if id in s.links then Ok(s.(links := s.links - {id})) else Err(LinkNotFound(id))
    case PutGroup(g) =>
      if g.id in s.groups then Err(AlreadyExists(g.id)) else Ok(s.(groups := s.groups[g.id := g]))
    case DropGroup(id) =>
      if id in s.groups then Ok(s.(groups := s.groups - {id})) else Err(GroupNotFound(id))
    case AddNodeToGroup(nodeId, g) =>
      if g !in s.groups then Err(GroupNotFound(g))
      else Ok(s.(groups := s.groups[g := s.groups[g].(nodeIds := s.groups[g].nodeIds + {nodeId})]))
    case RemoveNodeFromGroup(nodeId, g) =>
      if g !in s.groups then Err(GroupNotFound(g))
      else Ok(s.(groups := s.groups[g := s.groups[g].(nodeIds := s.groups[g].nodeIds - {nodeId})]))
    case PutSubgraph(g) =>
      if g.id in s.subgraphs then Err(AlreadyExists(g.id)) else Ok(s.(subgraphs := s.subgraphs[g.id := g]))
    case DropSubgraph(id) =>
      if id in s.subgraphs then Ok(s.(subgraphs := s.subgraphs - {id})) else Err(SubgraphNotFound(id))
  }

  // ----- what an operation means -----

  /** Every collection but the nodes is as before, and so is every other node. */
  ghost predicate NodeBecomes(s: Schema, s': Schema, id: Id, n: GraphNode) {
    && s' == s.(nodes := s'.nodes) && s'.nodes.Keys == s.nodes.Keys + {id} && s'.nodes[id] == n
    && forall k :: k in s.nodes && k != id ==> s'.nodes[k] == s.nodes[k]
  }

  ghost predicate LinkBecomes(s: Schema, s': Schema, id: Id, l: Link) {
    && s' == s.(links := s'.links) && s'.links.Keys == s.links.Keys + {id} && s'.links[id] == l
    && forall k :: k in s.links && k != id ==> s'.links[k] == s.links[k]
  }

  ghost predicate GroupBecomes(s: Schema, s': Schema, id: Id, g: Group) {
    && s' == s.(groups := s'.groups) && s'.groups.Keys == s.groups.Keys + {id} && s'.groups[id] == g
    && forall k :: k in s.groups && k != id ==> s'.groups[k] == s.groups[k]
  }

  ghost predicate SubgraphBecomes(s: Schema, s': Schema, id: Id, g: Subgraph) {
    && s' == s.(subgraphs := s'.subgraphs) && s'.subgraphs.Keys == s.subgraphs.Keys + {id} && s'.subgraphs[id] == g
    && forall k :: k in s.subgraphs && k != id ==> s'.subgraphs[k] == s.subgraphs[k]
  }

  ghost predicate Without<V>(before: map<Id, V>, after: map<Id, V>, id: Id) {
    after.Keys == before.Keys - {id} && forall k :: k in after ==> after[k] == before[k]
  }

  /** The given values over the old ones. */
  ghost predicate Overlaid(before: map<string, Json>, given: map<string, Json>, after: map<string, Json>) {
    && after.Keys == before.Keys + given.Keys
    && forall k :: k in after ==> after[k] == if k in given then given[k] else before[k]
  }

  /** The effect of an operation that succeeds, and the reason of one that does not. */
  ghost predicate OpMeans(s: Schema, op: PatchOp, r: Result<Schema, GraphError>) {
    match op
    case PutNode(n) =>
      if n.id in s.nodes then r == Err(AlreadyExists(n.id)) else r.Ok? && NodeBecomes(s, r.value, n.id, n)
    case DropNode(id) =>
      if id !in s.nodes then r == Err(NodeNotFound(id)) else r.Ok? && NodeRemoved(s, r.value, id)
    case UpdateNodeLabel(id, text) =>
      if id !in s.nodes then r == Err(NodeNotFound(id)) else
      var o := s.nodes[id];
      r.Ok? && NodeBecomes(s, r.value, id,
                           GraphNode(o.id, o.kind, text, o.ports, o.parameters, o.position, o.subgraphRef, o.provenance))
    case UpdateNodeParams(id, given) =>
      if id !in s.nodes then r == Err(NodeNotFound(id)) else
      var o := s.nodes[id];
      && r.Ok? && id in r.value.nodes && Overlaid(o.parameters, given, r.value.nodes[id].parameters)
      && NodeBecomes(s, r.value, id, GraphNode(o.id, o.kind, o.nodeLabel, o.ports, r.value.nodes[id].parameters, o.position,
                                               o.subgraphRef, o.provenance))
    case MoveNode(id, to) =>
      if id !in s.nodes then r == Err(NodeNotFound(id)) else
      var o := s.nodes[id];
      r.Ok? && NodeBecomes(s, r.value, id,
                           GraphNode(o.id, o.kind, o.nodeLabel, o.ports, o.parameters, to, o.subgraphRef, o.provenance))
    case PutLink(l) =>
      if l.id in s.links then r == Err(AlreadyExists(l.id)) else r.Ok? && LinkBecomes(s, r.value, l.id, l)
    case DropLink(id) =>
      if id !in s.links then r == Err(LinkNotFound(id))
      else r.Ok? && r.value == s.(links := r.value.links) && Without(s.links, r.value.links, id)
    case PutGroup(g) =>
      if g.id in s.groups then r == Err(AlreadyExists(g.id)) else r.Ok? && GroupBecomes(s, r.value, g.id, g)
    case DropGroup(id) =>
      if id !in s.groups then r == Err(GroupNotFound(id))
      else r.Ok? && r.value == s.(groups := r.value.groups) && Without(s.groups, r.value.groups, id)
    case AddNodeToGroup(n, id) =>
      if id !in s.groups then r == Err(GroupNotFound(id)) else
      r.Ok? && GroupBecomes(s, r.value, id, Group(s.groups[id].id, s.groups[id].name, s.groups[id].nodeIds + {n}))
    case RemoveNodeFromGroup(n, id) =>
      if id !in s.groups then r == Err(GroupNotFound(id)) else
      r.Ok? && GroupBecomes(s, r.value, id, Group(s.groups[id].id, s.groups[id].name, s.groups[id].nodeIds - {n}))
    case PutSubgraph(g) =>
      if g.id in s.subgraphs then r == Err(AlreadyExists(g.id)) else r.Ok? && SubgraphBecomes(s, r.value, g.id, g)
    case DropSubgraph(id) =>
      if id !in s.subgraphs then r == Err(SubgraphNotFound(id))
      else r.Ok? && r.value == s.(subgraphs := r.value.subgraphs) && Without(s.subgraphs, r.value.subgraphs, id)
  }

  lemma NodeOpMeans(s: Schema, op: PatchOp)
    requires op.PutNode? || op.DropNode? || op.UpdateNodeLabel? || op.UpdateNodeParams? || op.MoveNode?
    ensures OpMeans(s, op, ApplyOp(s, op))
  {
    if op.DropNode? {
      WithoutNodeMeans(s, op.id);
    }
  }

  lemma ApplyOpMeans(s: Schema, op: PatchOp)
    ensures OpMeans(s, op, ApplyOp(s, op))
  {
    if op.PutNode? || op.DropNode? || op.UpdateNodeLabel? || op.UpdateNodeParams? || op.MoveNode? {
      NodeOpMeans(s, op);
    }
  }

  /** States of the schema between the operations of a patch, as far as they all succeed. */
  ghost predicate Stages(states: seq<Schema>, s: Schema, ops: seq<PatchOp>) {
    && 0 < |states| <= |ops| + 1 && states[0] == s
    && forall i :: 0 <= i < |states| - 1 ==> StageStep(states, ops, i)
  }

  ghost predicate StageStep(states: seq<Schema>, ops: seq<PatchOp>, i: nat)
    requires i < |states| - 1 && i < |ops|
  {
    OpMeans(states[i], ops[i], Ok(states[i + 1]))
  }

  /** A patch goes through its operations in order, each with its meaning, up to the last or the first that fails. */
  lemma {:induction false} PatchGoesInOrder(s: Schema, ops: seq<PatchOp>) returns (states: seq<Schema>)
    ensures Stages(states, s, ops)
    ensures match ApplyOps(s, ops)
            case Ok(s') => |states| == |ops| + 1 && s' == states[|ops|]
            case Err(e) => |states| <= |ops| && OpMeans(states[|states| - 1], ops[|states| - 1], Err(e))
    decreases |ops|
  {
    if ops == [] {
      return [s];
    }
    ApplyOpMeans(s, ops[0]);
    var r := ApplyOp(s, ops[0]);
    if r.Err? {
      return [s];
    }
    var rest := PatchGoesInOrder(r.value, ops[1..]);
    states := [s] + rest;
    forall i | 0 <= i < |states| - 1
      ensures StageStep(states, ops, i)
    {
      if i > 0 {
        assert StageStep(rest, ops[1..], i - 1);
      }
    }
  }

  /** Apply the operations one after the other and stop at the first that fails. */
  function ApplyOps(s: Schema, ops: seq<PatchOp>): Result<Schema, GraphError>
    decreases |ops|
  {
    if ops == [] then Ok(s) else
    var r := ApplyOp(s, ops[0]);
    if r.Err? then r else ApplyOps(r.value, ops[1..])
  }

  lemma {:induction false} ApplyOpsConcat(s: Schema, a: seq<PatchOp>, b: seq<PatchOp>)
    ensures ApplyOps(s, a + b) == var r := ApplyOps(s, a); if r.Err? then r else ApplyOps(r.value, b)
    decreases |a|
  {
    if a == [] {
      assert a + b == b;
    } else {
      assert (a + b)[1..] == a[1..] + b;
      var r := ApplyOp(s, a[0]);
      if r.Ok? {
        ApplyOpsConcat(r.value, a[1..], b);
      }
    }
  }

  // ----- the diff: one pass over the ordered keys of each collection of each schema -----

  /** One operation per key that is not to be skipped, in the order of the keys. */
  function Emit(ops: map<Id, PatchOp>, ks: seq<Id>, skip: set<Id>): seq<PatchOp>
    requires forall k :: k in ks ==> k in ops
  {
    if ks == [] then [] else (if ks[0] in skip then [] else [ops[ks[0]]]) + Emit(ops, ks[1..], skip)
  }

  function NodePuts(m: map<Id, GraphNode>): map<Id, PatchOp> {
    map k | k in m :: PutNode(m[k])
  }

  function NodeDrops(ids: set<Id>): map<Id, PatchOp> {
    map k | k in ids :: DropNode(k)
  }

  function LinkPuts(m: map<Id, Link>): map<Id, PatchOp> {
    map k | k in m :: PutLink(m[k])
  }

  function LinkDrops(ids: set<Id>): map<Id, PatchOp> {
    map k | k in ids :: DropLink(k)
  }

  function GroupPuts(m: map<Id, Group>): map<Id, PatchOp> {
    map k | k in m :: PutGroup(m[k])
  }

  function GroupDrops(ids: set<Id>): map<Id, PatchOp> {
    map k | k in ids :: DropGroup(k)
  }

  function SubgraphPuts(m: map<Id, Subgraph>): map<Id, PatchOp> {
    map k | k in m :: PutSubgraph(m[k])
  }

  function SubgraphDrops(ids: set<Id>): map<Id, PatchOp> {
    map k | k in ids :: DropSubgraph(k)
  }

  function Ordered<V>(m: map<Id, V>): (ks: seq<Id>)
    ensures StrictlySorted(ks) && NoDup(ks) && ToSet(ks) == m.Keys && forall k :: k in ks <==> k in m
  {
    var ks := SortedSeq(m.Keys);
    assert forall k :: k in ks <==> k in ToSet(ks);
    ks
  }

  function NodeOps(from: Schema, to: Schema): seq<PatchOp> {
    Emit(NodePuts(to.nodes), Ordered(to.nodes), from.nodes.Keys) + Emit(NodeDrops(from.nodes.Keys), Ordered(from.nodes), to.nodes.Keys)
  }

  function LinkOps(from: Schema, to: Schema): seq<PatchOp> {
    Emit(LinkPuts(to.links), Ordered(to.links), from.links.Keys) + Emit(LinkDrops(from.links.Keys), Ordered(from.links), to.links.Keys)
  }

  function GroupOps(from: Schema, to: Schema): seq<PatchOp> {
    Emit(GroupPuts(to.groups), Ordered(to.groups), from.groups.Keys)
    + Emit(GroupDrops(from.groups.Keys), Ordered(from.groups), to.groups.Keys)
  }

  function SubgraphOps(from: Schema, to: Schema): seq<PatchOp> {
    Emit(SubgraphPuts(to.subgraphs), Ordered(to.subgraphs), from.subgraphs.Keys)
    + Emit(SubgraphDrops(from.subgraphs.Keys), Ordered(from.subgraphs), to.subgraphs.Keys)
  }

  function Diff(from: Schema, to: Schema): seq<PatchOp> {
    NodeOps(from, to) + LinkOps(from, to) + GroupOps(from, to) + SubgraphOps(from, to)
  }

  // ----- computing the diff: each loop pushes onto the operations collected so far -----

  lemma PushThenRest<T>(ops: seq<T>, head: seq<T>, rest: seq<T>)
    ensures ops + (head + rest) == (ops + head) + rest
  {
  }

  lemma EmitStep(pushed: seq<PatchOp>, ops: map<Id, PatchOp>, ks: seq<Id>, i: nat, skip: set<Id>)
    requires i < |ks| && forall k :: k in ks ==> k in ops
    ensures pushed + Emit(ops, ks[i..], skip)
         == (if ks[i] in skip then pushed else pushed + [ops[ks[i]]]) + Emit(ops, ks[i + 1..], skip)
  {
    var tail, rest := ks[i..], ks[i + 1..];
    assert tail[0] == ks[i] && tail[1..] == rest;
    Regroup(pushed, if ks[i] in skip then [] else [ops[ks[i]]], Emit(ops, rest, skip));
  }

  lemma Regroup(a: seq<PatchOp>, b: seq<PatchOp>, c: seq<PatchOp>)
    ensures a + (b + c) == (a + b) + c && a + [] == a && [] + c == c
  {
  }

  /** The loop over the ordered keys of one collection. */
  method Push(pushed: seq<PatchOp>, ops: map<Id, PatchOp>, ks: seq<Id>, skip: set<Id>) returns (r: seq<PatchOp>)
    requires forall k :: k in ks ==> k in ops
    ensures r == pushed + Emit(ops, ks, skip)
  {
    r := pushed;
    assert ks[0..] == ks;
    for i := 0 to |ks|
      invariant r + Emit(ops, ks[i..], skip) == pushed + Emit(ops, ks, skip)
    {
      EmitStep(r, ops, ks, i, skip);
      if ks[i] !in skip {
        r := r + [ops[ks[i]]];
      }
    }
  }

  method PushNodeOps(ops: seq<PatchOp>, from: Schema, to: Schema) returns (ops': seq<PatchOp>)
    ensures ops' == ops + NodeOps(from, to)
  {
    ops' := Push(ops, NodePuts(to.nodes), Ordered(to.nodes), from.nodes.Keys);
    ops' := Push(ops', NodeDrops(from.nodes.Keys), Ordered(from.nodes), to.nodes.Keys);
    PushThenRest(ops, Emit(NodePuts(to.nodes), Ordered(to.nodes), from.nodes.Keys),
                 Emit(NodeDrops(from.nodes.Keys), Ordered(from.nodes), to.nodes.Keys));
  }

  method PushLinkOps(ops: seq<PatchOp>, from: Schema, to: Schema) returns (ops': seq<PatchOp>)
    ensures ops' == ops + LinkOps(from, to)
  {
    ops' := Push(ops, LinkPuts(to.links), Ordered(to.links), from.links.Keys);
    ops' := Push(ops', LinkDrops(from.links.Keys), Ordered(from.links), to.links.Keys);
    PushThenRest(ops, Emit(LinkPuts(to.links), Ordered(to.links), from.links.Keys),
                 Emit(LinkDrops(from.links.Keys), Ordered(from.links), to.links.Keys));
  }

  method PushGroupOps(ops: seq<PatchOp>, from: Schema, to: Schema) returns (ops': seq<PatchOp>)
    ensures ops' == ops + GroupOps(from, to)
  {
    ops' := Push(ops, GroupPuts(to.groups), Ordered(to.groups), from.groups.Keys);
    ops' := Push(ops', GroupDrops(from.groups.Keys), Ordered(from.groups), to.groups.Keys);
    PushThenRest(ops, Emit(GroupPuts(to.groups), Ordered(to.groups), from.groups.Keys),
                 Emit(GroupDrops(from.groups.Keys), Ordered(from.groups), to.groups.Keys));
  }

  method PushSubgraphOps(ops: seq<PatchOp>, from: Schema, to: Schema) returns (ops': seq<PatchOp>)
    ensures ops' == ops + SubgraphOps(from, to)
  {
    ops' := Push(ops, SubgraphPuts(to.subgraphs), Ordered(to.subgraphs), from.subgraphs.Keys);
    ops' := Push(ops', SubgraphDrops(from.subgraphs.Keys), Ordered(from.subgraphs), to.subgraphs.Keys);
    PushThenRest(ops, Emit(SubgraphPuts(to.subgraphs), Ordered(to.subgraphs), from.subgraphs.Keys),
                 Emit(SubgraphDrops(from.subgraphs.Keys), Ordered(from.subgraphs), to.subgraphs.Keys));
  }

  method ComputeDiff(from: Schema, to: Schema) returns (ops: seq<PatchOp>)
    ensures ops == Diff(from, to)
  {
    ops := PushNodeOps([], from, to);
    assert ops == NodeOps(from, to);
    ops := PushLinkOps(ops, from, to);
    ops := PushGroupOps(ops, from, to);
    ops := PushSubgraphOps(ops, from, to);
  }

  // ----- what each pass does -----

  function Pick<V>(m: map<Id, V>, S: set<Id>): map<Id, V> {
    map k | k in m && k in S :: m[k]
  }

  predicate TouchesAny(l: Link, S: set<Id>) {
    l.sourceNode in S || l.targetNode in S
  }

  /** Remove several nodes with their links and group memberships. */
  function WithoutNodes(s: Schema, S: set<Id>): Schema {
    s.(nodes := s.nodes - S,
       links := map k | k in s.links && !TouchesAny(s.links[k], S) :: s.links[k],
       groups := map g | g in s.groups :: s.groups[g].(nodeIds := s.groups[g].nodeIds - S))
  }

  lemma PickStep<V>(cur: map<Id, V>, m: map<Id, V>, ks: seq<Id>, known: set<Id>)
    requires ks != [] && ks[0] in m && NoDup(ks)
    ensures var k, rest := ks[0], ks[1..];
            && NoDup(rest) && k !in rest
            && cur + Pick(m, ToSet(ks) - known)
               == (if k in known then cur else cur[k := m[k]]) + Pick(m, ToSet(rest) - known)
  {
    var k, rest := ks[0], ks[1..];
    assert ks == [k] + rest;
    assert ToSet(ks) == ToSet(rest) + {k};
    if k in known {
      assert ToSet(ks) - known == ToSet(rest) - known;
    } else {
      assert ToSet(ks) - known == (ToSet(rest) - known) + {k};
      PickOneMore(cur, m, k, ToSet(rest) - known);
    }
  }

  lemma PickOneMore<V>(cur: map<Id, V>, m: map<Id, V>, k: Id, S: set<Id>)
    requires k in m && k !in S
    ensures cur + Pick(m, S + {k}) == cur[k := m[k]] + Pick(m, S)
  {
  }

  lemma PickNone<V>(cur: map<Id, V>, m: map<Id, V>, known: set<Id>)
    ensures cur + Pick(m, ToSet([]) - known) == cur
  {
  }

  lemma {:induction false} PutNodesPass(s: Schema, m: map<Id, GraphNode>, ks: seq<Id>, known: set<Id>)
    requires NoDup(ks) && forall k :: k in ks ==> k in m && m[k].id == k && (k !in known ==> k !in s.nodes)
    ensures ApplyOps(s, Emit(NodePuts(m), ks, known)) == Ok(s.(nodes := s.nodes + Pick(m, ToSet(ks) - known)))
    decreases |ks|
  {
    if ks == [] {
      PickNone(s.nodes, m, known);
    } else {
      PickStep(s.nodes, m, ks, known);
      var head: seq<PatchOp> := if ks[0] in known then [] else [PutNode(m[ks[0]])];
      PutNodesPass(if ks[0] in known then s else s.(nodes := s.nodes[ks[0] := m[ks[0]]]), m, ks[1..], known);
      ApplyOpsConcat(s, head, Emit(NodePuts(m), ks[1..], known));
    }
  }

  lemma {:induction false} PutLinksPass(s: Schema, m: map<Id, Link>, ks: seq<Id>, known: set<Id>)
    requires NoDup(ks) && forall k :: k in ks ==> k in m && m[k].id == k && (k !in known ==> k !in s.links)
    ensures ApplyOps(s, Emit(LinkPuts(m), ks, known)) == Ok(s.(links := s.links + Pick(m, ToSet(ks) - known)))
    decreases |ks|
  {
    if ks == [] {
      PickNone(s.links, m, known);
    } else {
      PickStep(s.links, m, ks, known);
      var head: seq<PatchOp> := if ks[0] in known then [] else [PutLink(m[ks[0]])];
      PutLinksPass(if ks[0] in known then s else s.(links := s.links[ks[0] := m[ks[0]]]), m, ks[1..], known);
      ApplyOpsConcat(s, head, Emit(LinkPuts(m), ks[1..], known));
    }
  }

  lemma {:induction false} PutGroupsPass(s: Schema, m: map<Id, Group>, ks: seq<Id>, known: set<Id>)
    requires NoDup(ks) && forall k :: k in ks ==> k in m && m[k].id == k && (k !in known ==> k !in s.groups)
    ensures ApplyOps(s, Emit(GroupPuts(m), ks, known)) == Ok(s.(groups := s.groups + Pick(m, ToSet(ks) - known)))
    decreases |ks|
  {
    if ks == [] {
      PickNone(s.groups, m, known);
    } else {
      PickStep(s.groups, m, ks, known);
      var head: seq<PatchOp> := if ks[0] in known then [] else [PutGroup(m[ks[0]])];
      PutGroupsPass(if ks[0] in known then s else s.(groups := s.groups[ks[0] := m[ks[0]]]), m, ks[1..], known);
      ApplyOpsConcat(s, head, Emit(GroupPuts(m), ks[1..], known));
    }
  }

  lemma {:induction false} PutSubgraphsPass(s: Schema, m: map<Id, Subgraph>, ks: seq<Id>, known: set<Id>)
    requires NoDup(ks) && forall k :: k in ks ==> k in m && m[k].id == k && (k !in known ==> k !in s.subgraphs)
    ensures ApplyOps(s, Emit(SubgraphPuts(m), ks, known)) == Ok(s.(subgraphs := s.subgraphs + Pick(m, ToSet(ks) - known)))
    decreases |ks|
  {
    if ks == [] {
      PickNone(s.subgraphs, m, known);
    } else {
      PickStep(s.subgraphs, m, ks, known);
      var head: seq<PatchOp> := if ks[0] in known then [] else [PutSubgraph(m[ks[0]])];
      PutSubgraphsPass(if ks[0] in known then s else s.(subgraphs := s.subgraphs[ks[0] := m[ks[0]]]), m, ks[1..], known);
      ApplyOpsConcat(s, head, Emit(SubgraphPuts(m), ks[1..], known));
    }
  }

  lemma DropStep<V>(cur: map<Id, V>, ks: seq<Id>, kept: set<Id>)
    requires ks != [] && NoDup(ks)
    ensures var k, rest := ks[0], ks[1..];
            && NoDup(rest) && k !in rest
            && cur - (ToSet(ks) - kept) == (if k in kept then cur else cur - {k}) - (ToSet(rest) - kept)
  {
    var k, rest := ks[0], ks[1..];
    assert ks == [k] + rest;
    assert ToSet(ks) == ToSet(rest) + {k};
  }

  lemma DropNone<V>(cur: map<Id, V>, kept: set<Id>)
    ensures cur - (ToSet([]) - kept) == cur
  {
  }

  lemma {:induction false} DropGroupsPass(s: Schema, ids: set<Id>, ks: seq<Id>, kept: set<Id>)
    requires NoDup(ks) && (forall k :: k in ks ==> k in ids) && forall k :: k in ks ==> k in s.groups || k in kept
    ensures ApplyOps(s, Emit(GroupDrops(ids), ks, kept)) == Ok(s.(groups := s.groups - (ToSet(ks) - kept)))
    decreases |ks|
  {
    if ks == [] {
      DropNone(s.groups, kept);
    } else {
      DropStep(s.groups, ks, kept);
      var head: seq<PatchOp> := if ks[0] in kept then [] else [DropGroup(ks[0])];
      DropGroupsPass(if ks[0] in kept then s else s.(groups := s.groups - {ks[0]}), ids, ks[1..], kept);
      ApplyOpsConcat(s, head, Emit(GroupDrops(ids), ks[1..], kept));
    }
  }

  lemma {:induction false} DropSubgraphsPass(s: Schema, ids: set<Id>, ks: seq<Id>, kept: set<Id>)
    requires NoDup(ks) && (forall k :: k in ks ==> k in ids) && forall k :: k in ks ==> k in s.subgraphs || k in kept
    ensures ApplyOps(s, Emit(SubgraphDrops(ids), ks, kept)) == Ok(s.(subgraphs := s.subgraphs - (ToSet(ks) - kept)))
    decreases |ks|
  {
    if ks == [] {
      DropNone(s.subgraphs, kept);
    } else {
      DropStep(s.subgraphs, ks, kept);
      var head: seq<PatchOp> := if ks[0] in kept then [] else [DropSubgraph(ks[0])];
      DropSubgraphsPass(if ks[0] in kept then s else s.(subgraphs := s.subgraphs - {ks[0]}), ids, ks[1..], kept);
      ApplyOpsConcat(s, head, Emit(SubgraphDrops(ids), ks[1..], kept));
    }
  }

  lemma {:induction false} DropNodesPass(s: Schema, ids: set<Id>, ks: seq<Id>, kept: set<Id>)
    requires NoDup(ks) && (forall k :: k in ks ==> k in ids) && forall k :: k in ks && k !in kept ==> k in s.nodes
    ensures ApplyOps(s, Emit(NodeDrops(ids), ks, kept)) == Ok(WithoutNodes(s, ToSet(ks) - kept))
    decreases |ks|
  {
    if ks == [] {
      WithoutNone(s, ToSet(ks) - kept);
    } else {
      var k, rest := ks[0], ks[1..];
      assert ks == [k] + rest && k !in rest;
      assert ToSet(ks) == ToSet(rest) + {k};
      if k in kept {
        assert Emit(NodeDrops(ids), ks, kept) == Emit(NodeDrops(ids), rest, kept);
        DropNodesPass(s, ids, rest, kept);
        assert ToSet(ks) - kept == ToSet(rest) - kept;
      } else {
        assert Emit(NodeDrops(ids), ks, kept)[1..] == Emit(NodeDrops(ids), rest, kept);
        DropNodesPass(WithoutNode(s, k), ids, rest, kept);
        WithoutOneMore(s, k, ToSet(rest) - kept);
        assert ToSet(ks) - kept == {k} + (ToSet(rest) - kept);
      }
    }
  }

  lemma WithoutNone(s: Schema, S: set<Id>)
    requires S == {}
    ensures WithoutNodes(s, S) == s
  {
    var t := WithoutNodes(s, S);
    assert t.nodes == s.nodes && t.links == s.links;
    assert forall g :: g in s.groups ==> t.groups[g] == s.groups[g];
    assert t.groups == s.groups;
  }

  lemma WithoutOneMore(s: Schema, k: Id, S: set<Id>)
    ensures WithoutNodes(WithoutNode(s, k), S) == WithoutNodes(s, {k} + S)
  {
    var a, b := WithoutNodes(WithoutNode(s, k), S), WithoutNodes(s, {k} + S);
    assert a.nodes == b.nodes && a.links == b.links;
    forall g | g in s.groups
      ensures a.groups[g] == b.groups[g]
    {
      assert a.groups[g].nodeIds == b.groups[g].nodeIds;
    }
    assert a.groups == b.groups;
  }

  /** Dropping links stops at the first key that is no longer there. */
  lemma {:induction false} DropLinksPass(s: Schema, ids: set<Id>, ks: seq<Id>, kept: set<Id>)
    requires NoDup(ks) && (forall k :: k in ks ==> k in ids)
    ensures var r := ApplyOps(s, Emit(LinkDrops(ids), ks, kept));
            if forall k :: k in ks && k !in kept ==> k in s.links
            then r == Ok(s.(links := s.links - (ToSet(ks) - kept)))
            else r.Err? && r.error.LinkNotFound? && r.error.id in ks && r.error.id !in kept && r.error.id !in s.links
    decreases |ks|
  {
    if ks == [] {
      DropNone(s.links, kept);
    } else {
      var k, rest := ks[0], ks[1..];
      DropStep(s.links, ks, kept);
      assert ks == [k] + rest;
      if k in kept {
        DropLinksPass(s, ids, rest, kept);
        assert Emit(LinkDrops(ids), ks, kept) == Emit(LinkDrops(ids), rest, kept);
      } else {
        ApplyOpsConcat(s, [DropLink(k)], Emit(LinkDrops(ids), rest, kept));
        assert ApplyOps(s, [DropLink(k)]) == ApplyOp(s, DropLink(k));
        if k in s.links {
          DropLinksPass(s.(links := s.links - {k}), ids, rest, kept);
        }
      }
    }
  }

  // ----- what a diff does to the schema it was computed from -----

  ghost predicate KeysAreIds(s: Schema) {
    && (forall k :: k in s.nodes ==> s.nodes[k].id == k)
    && (forall k :: k in s.links ==> s.links[k].id == k)
    && (forall k :: k in s.groups ==> s.groups[k].id == k)
    && (forall k :: k in s.subgraphs ==> s.subgraphs[k].id == k)
  }

  ghost function Removed(from: Schema, to: Schema): set<Id> {
    from.nodes.Keys - to.nodes.Keys
  }

  /** The link has been dropped by `to` and touches a node dropped by `to`. */
  ghost predicate Cascaded(from: Schema, to: Schema, k: Id) {
    k in from.links && k !in to.links && TouchesAny(from.links[k], Removed(from, to))
  }

  ghost predicate DropsCascadedLink(from: Schema, to: Schema) {
    exists k :: Cascaded(from, to, k)
  }

  function Prefer<V>(from: map<Id, V>, to: map<Id, V>): map<Id, V> {
    map k | k in to :: if k in from then from[k] else to[k]
  }

  /** The schema a successful diff leads to: the keys of `to`, with the values `from` already had. */
  ghost function Patched(from: Schema, to: Schema): Schema {
    var gone := Removed(from, to);
    from.(
      nodes := Prefer(from.nodes, to.nodes),
      links := map k | k in to.links && (k in from.links ==> !TouchesAny(from.links[k], gone)) ::
                 if k in from.links then from.links[k] else to.links[k],
      groups := map k | k in to.groups ::
                 if k in from.groups then from.groups[k].(nodeIds := from.groups[k].nodeIds - gone) else to.groups[k],
      subgraphs := Prefer(from.subgraphs, to.subgraphs))
  }

  lemma PreferIsPutThenDrop<V>(from: map<Id, V>, to: map<Id, V>)
    ensures (from + Pick(to, to.Keys - from.Keys)) - (from.Keys - to.Keys) == Prefer(from, to)
  {
  }

  lemma NodePasses(from: Schema, to: Schema) returns (s: Schema)
    requires KeysAreIds(to)
    ensures ApplyOps(from, NodeOps(from, to)) == Ok(s)
    ensures s == WithoutNodes(from, Removed(from, to)).(nodes := Prefer(from.nodes, to.nodes))
  {
    var put := Emit(NodePuts(to.nodes), Ordered(to.nodes), from.nodes.Keys);
    var drop := Emit(NodeDrops(from.nodes.Keys), Ordered(from.nodes), to.nodes.Keys);
    PutNodesPass(from, to.nodes, Ordered(to.nodes), from.nodes.Keys);
    var s1 := from.(nodes := from.nodes + Pick(to.nodes, to.nodes.Keys - from.nodes.Keys));
    DropNodesPass(s1, from.nodes.Keys, Ordered(from.nodes), to.nodes.Keys);
    ApplyOpsConcat(from, put, drop);
    PreferIsPutThenDrop(from.nodes, to.nodes);
    s := WithoutNodes(s1, Removed(from, to));
  }

  /** Every link that the second pass drops is still there. */
  ghost predicate DropsFindTheirLinks(from: Schema, to: Schema, put: map<Id, Link>) {
    forall k :: k in from.links && k !in to.links ==> k in put
  }

  lemma LinksAfterPasses(from: Schema, to: Schema, links: map<Id, Link>, put: map<Id, Link>)
    requires links == WithoutNodes(from, Removed(from, to)).links
    requires put == links + Pick(to.links, to.links.Keys - from.links.Keys)
    ensures links.Keys <= from.links.Keys
    ensures forall k :: k in from.links && k !in to.links ==> (k in put <==> !Cascaded(from, to, k))
    ensures DropsFindTheirLinks(from, to, put) <==> !DropsCascadedLink(from, to)
    ensures DropsFindTheirLinks(from, to, put) ==> put - (from.links.Keys - to.links.Keys) == Patched(from, to).links
  {
    forall k | k in from.links && k !in to.links
      ensures k in put <==> !Cascaded(from, to, k)
    {
    }
    if DropsCascadedLink(from, to) {
      var k :| Cascaded(from, to, k);
      assert k !in put;
    }
  }

  lemma GroupsAfterPasses(from: Schema, to: Schema, groups: map<Id, Group>)
    requires groups == WithoutNodes(from, Removed(from, to)).groups
    ensures (groups + Pick(to.groups, to.groups.Keys - from.groups.Keys)) - (from.groups.Keys - to.groups.Keys)
         == Patched(from, to).groups
  {
  }

  lemma LinkOpsFrom(from: Schema, to: Schema, s: Schema)
    requires KeysAreIds(to) && s.links.Keys <= from.links.Keys
    ensures var r := ApplyOps(s, LinkOps(from, to));
            var put := s.links + Pick(to.links, to.links.Keys - from.links.Keys);
            if DropsFindTheirLinks(from, to, put)
            then r == Ok(s.(links := put - (from.links.Keys - to.links.Keys)))
            else r.Err? && r.error.LinkNotFound? && r.error.id in from.links && r.error.id !in to.links && r.error.id !in put
  {
    var put := Emit(LinkPuts(to.links), Ordered(to.links), from.links.Keys);
    var drop := Emit(LinkDrops(from.links.Keys), Ordered(from.links), to.links.Keys);
    PutLinksPass(s, to.links, Ordered(to.links), from.links.Keys);
    var s1 := s.(links := s.links + Pick(to.links, to.links.Keys - from.links.Keys));
    DropLinksPass(s1, from.links.Keys, Ordered(from.links), to.links.Keys);
    ApplyOpsConcat(s, put, drop);
  }

  /** `s` is the schema after the node passes, so cascaded links are already gone from it. */
  lemma LinkPasses(from: Schema, to: Schema, s: Schema)
    requires KeysAreIds(to) && s.links == WithoutNodes(from, Removed(from, to)).links
    ensures var r := ApplyOps(s, LinkOps(from, to));
            if DropsCascadedLink(from, to) then r.Err? && r.error.LinkNotFound? && Cascaded(from, to, r.error.id)
            else r == Ok(s.(links := Patched(from, to).links))
  {
    LinksAfterPasses(from, to, s.links, s.links + Pick(to.links, to.links.Keys - from.links.Keys));
    LinkOpsFrom(from, to, s);
  }

  lemma GroupPasses(from: Schema, to: Schema, s: Schema)
    requires KeysAreIds(to) && s.groups == WithoutNodes(from, Removed(from, to)).groups
    ensures ApplyOps(s, GroupOps(from, to))
         == Ok(s.(groups := Patched(from, to).groups))
  {
    var put := Emit(GroupPuts(to.groups), Ordered(to.groups), from.groups.Keys);
    var drop := Emit(GroupDrops(from.groups.Keys), Ordered(from.groups), to.groups.Keys);
    PutGroupsPass(s, to.groups, Ordered(to.groups), from.groups.Keys);
    var s1 := s.(groups := s.groups + Pick(to.groups, to.groups.Keys - from.groups.Keys));
    DropGroupsPass(s1, from.groups.Keys, Ordered(from.groups), to.groups.Keys);
    ApplyOpsConcat(s, put, drop);
    GroupsAfterPasses(from, to, s.groups);
  }

  lemma SubgraphPasses(from: Schema, to: Schema, s: Schema)
    requires KeysAreIds(to) && s.subgraphs == from.subgraphs
    ensures ApplyOps(s, SubgraphOps(from, to))
         == Ok(s.(subgraphs := Prefer(from.subgraphs, to.subgraphs)))
  {
    var put := Emit(SubgraphPuts(to.subgraphs), Ordered(to.subgraphs), from.subgraphs.Keys);
    var drop := Emit(SubgraphDrops(from.subgraphs.Keys), Ordered(from.subgraphs), to.subgraphs.Keys);
    PutSubgraphsPass(s, to.subgraphs, Ordered(to.subgraphs), from.subgraphs.Keys);
    var s1 := s.(subgraphs := s.subgraphs + Pick(to.subgraphs, to.subgraphs.Keys - from.subgraphs.Keys));
    DropSubgraphsPass(s1, from.subgraphs.Keys, Ordered(from.subgraphs), to.subgraphs.Keys);
    ApplyOpsConcat(s, put, drop);
    PreferIsPutThenDrop(from.subgraphs, to.subgraphs);
  }

  lemma ConcatRight<T>(a: seq<T>, b: seq<T>, c: seq<T>, d: seq<T>)
    ensures a + b + c + d == a + (b + (c + d))
  {
  }

  /** A diff applies to its own origin unless it drops a link that one of its node removals already took. */
  lemma DiffApplied(from: Schema, to: Schema)
    requires KeysAreIds(to)
    ensures var r := ApplyOps(from, Diff(from, to));
            if DropsCascadedLink(from, to) then r.Err? && r.error.LinkNotFound? && Cascaded(from, to, r.error.id)
            else r == Ok(Patched(from, to))
  {
    var nodes, links, groups, subs := NodeOps(from, to), LinkOps(from, to), GroupOps(from, to), SubgraphOps(from, to);
    ConcatRight(nodes, links, groups, subs);
    var s1 := NodePasses(from, to);
    ApplyOpsConcat(from, nodes, links + (groups + subs));
    RestPasses(from, to, s1);
  }

  lemma RestPasses(from: Schema, to: Schema, s: Schema)
    requires KeysAreIds(to)
    requires s == WithoutNodes(from, Removed(from, to)).(nodes := Prefer(from.nodes, to.nodes))
    ensures var r := ApplyOps(s, LinkOps(from, to) + (GroupOps(from, to) + SubgraphOps(from, to)));
            if DropsCascadedLink(from, to) then r.Err? && r.error.LinkNotFound? && Cascaded(from, to, r.error.id)
            else r == Ok(Patched(from, to))
  {
    LinkPasses(from, to, s);
    ApplyOpsConcat(s, LinkOps(from, to), GroupOps(from, to) + SubgraphOps(from, to));
    var s2 := s.(links := Patched(from, to).links);
    GroupPasses(from, to, s2);
    ApplyOpsConcat(s2, GroupOps(from, to), SubgraphOps(from, to));
    SubgraphPasses(from, to, s2.(groups := Patched(from, to).groups));
  }

  /** What `from` must share with `to` for the round trip; each clause can be checked before the call. */
  ghost predicate SharedAgree(from: Schema, to: Schema) {
    var gone := Removed(from, to);
    && from.(nodes := map[], links := map[], groups := map[], subgraphs := map[])
       == to.(nodes := map[], links := map[], groups := map[], subgraphs := map[])
    && (forall k :: k in from.nodes && k in to.nodes ==> from.nodes[k] == to.nodes[k])
    && (forall k :: k in from.links && k in to.links ==> from.links[k] == to.links[k] && !TouchesAny(from.links[k], gone))
    && (forall k :: k in from.groups && k in to.groups ==>
          from.groups[k].(nodeIds := from.groups[k].nodeIds - gone) == to.groups[k])
    && (forall k :: k in from.subgraphs && k in to.subgraphs ==> from.subgraphs[k] == to.subgraphs[k])
  }

  lemma PreferIsTarget<V>(from: map<Id, V>, to: map<Id, V>)
    ensures Prefer(from, to) == to <==> forall k :: k in from && k in to ==> from[k] == to[k]
  {
    if Prefer(from, to) == to {
      forall k | k in from && k in to
        ensures from[k] == to[k]
      {
        assert Prefer(from, to)[k] == to[k];
      }
    }
  }

  lemma PatchedIsTarget(from: Schema, to: Schema)
    ensures Patched(from, to) == to <==> SharedAgree(from, to)
  {
    var p, gone := Patched(from, to), Removed(from, to);
    PreferIsTarget(from.nodes, to.nodes);
    PreferIsTarget(from.subgraphs, to.subgraphs);
    if p == to {
      forall k | k in from.links && k in to.links
        ensures from.links[k] == to.links[k] && !TouchesAny(from.links[k], gone)
      {
        assert k in p.links && p.links[k] == to.links[k];
      }
      forall k | k in from.groups && k in to.groups
        ensures from.groups[k].(nodeIds := from.groups[k].nodeIds - gone) == to.groups[k]
      {
        assert p.groups[k] == to.groups[k];
      }
    }
    if SharedAgree(from, to) {
      assert p.links == to.links && p.groups == to.groups;
      assert p == to;
    }
  }

  /** The exact condition under which applying the diff of two schemas to the first gives the second. */
  lemma DiffRoundTrip(from: Schema, to: Schema)
    requires KeysAreIds(to)
    ensures ApplyOps(from, Diff(from, to)) == Ok(to) <==> !DropsCascadedLink(from, to) && SharedAgree(from, to)
  {
    DiffApplied(from, to);
    PatchedIsTarget(from, to);
  }

  /** A link between two nodes diffed against the graph of its target alone: removing the source takes the link first. */
  lemma RemovingLinkedNodeFails(from: Schema, to: Schema, a: GraphNode, b: GraphNode, l: Link)
    requires a.id != b.id && l.sourceNode == a.id && l.targetNode == b.id
    requires from.nodes == map[a.id := a, b.id := b] && from.links == map[l.id := l]
    requires to == from.(nodes := map[b.id := b], links := map[]) && KeysAreIds(from)
    ensures var r := ApplyOps(from, Diff(from, to)); r == Err(LinkNotFound(l.id))
  {
    assert a.id in from.nodes && a.id !in to.nodes && l.id in from.links && from.links[l.id] == l;
    assert a.id in Removed(from, to);
    OnlyCascade(from, to, l.id);
  }

  lemma OnlyCascade(from: Schema, to: Schema, k: Id)
    requires KeysAreIds(to) && Cascaded(from, to, k) && forall j :: j in from.links ==> j == k
    ensures ApplyOps(from, Diff(from, to)) == Err(LinkNotFound(k))
  {
    DiffApplied(from, to);
  }

  /** With nothing dangling in `to`, identical shared entries are enough, and only a cascaded link can make it fail. */
  lemma DiffRoundTripOfCleanTarget(from: Schema, to: Schema)
    requires KeysAreIds(to) && LinksWellFormed(to)
    requires forall g :: g in to.groups ==> to.groups[g].nodeIds <= to.nodes.Keys
    requires from.(nodes := map[], links := map[], groups := map[], subgraphs := map[])
             == to.(nodes := map[], links := map[], groups := map[], subgraphs := map[])
    requires forall k :: k in from.nodes && k in to.nodes ==> from.nodes[k] == to.nodes[k]
    requires forall k :: k in from.links && k in to.links ==> from.links[k] == to.links[k]
    requires forall k :: k in from.groups && k in to.groups ==> from.groups[k] == to.groups[k]
    requires forall k :: k in from.subgraphs && k in to.subgraphs ==> from.subgraphs[k] == to.subgraphs[k]
    ensures ApplyOps(from, Diff(from, to)).Ok? <==> forall k :: !Cascaded(from, to, k)
    ensures ApplyOps(from, Diff(from, to)).Ok? ==> ApplyOps(from, Diff(from, to)).value == to
  {
    DiffApplied(from, to);
    PatchedIsTarget(from, to);
    if !DropsCascadedLink(from, to) {
      CleanTargetAgrees(from, to);
    }
  }

  lemma CleanTargetAgrees(from: Schema, to: Schema)
    requires KeysAreIds(to) && LinksWellFormed(to)
    requires forall g :: g in to.groups ==> to.groups[g].nodeIds <= to.nodes.Keys
    requires from.(nodes := map[], links := map[], groups := map[], subgraphs := map[])
             == to.(nodes := map[], links := map[], groups := map[], subgraphs := map[])
    requires forall k :: k in from.nodes && k in to.nodes ==> from.nodes[k] == to.nodes[k]
    requires forall k :: k in from.links && k in to.links ==> from.links[k] == to.links[k]
    requires forall k :: k in from.groups && k in to.groups ==> from.groups[k] == to.groups[k]
    requires forall k :: k in from.subgraphs && k in to.subgraphs ==> from.subgraphs[k] == to.subgraphs[k]
    ensures SharedAgree(from, to)
  {
    forall k | k in from.groups && k in to.groups
      ensures from.groups[k].(nodeIds := from.groups[k].nodeIds - Removed(from, to)) == to.groups[k]
    {
      assert from.groups[k].nodeIds - Removed(from, to) == from.groups[k].nodeIds;
    }
  }
}
