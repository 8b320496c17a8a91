/** The in-process artifact store: five indexes kept in step with the primary map, garbage collection, replication. */
module MeshStoreRuntime {
  import opened Sequences
  import opened MeshModel
  import R = MeshRevisions

  datatype MeshError =
    | NotFound(id: nat)
    | AlreadyConsumed(id: nat)
    | EmptyBatch
    | BatchMismatch(field: string)
    | AlreadyExists(id: nat)
    | Edit(conflict: R.Conflict)

  datatype Snapshot = Snapshot(
    id: nat, dimensionId: nat, taskId: nat, nodeId: nat, state: string, provenance: Provenance,
    capturedAtMs: nat, revision: R.Revision)

  datatype Patch = Patch(
    id: nat, dimensionId: nat, taskId: nat, nodeId: nat, provenance: Provenance, createdAtMs: nat,
    base: R.Revision, new_: R.Revision, conflict: bool, content: string)

  datatype Policy = Policy(
    activeDimensions: set<nat>, removeConsumedEphemeral: bool, removeOrphanedNodes: bool, expireBeforeMs: Option<nat>)

  datatype Report = Report(artifactsRemoved: nat, snapshotsRemoved: nat, patchesRemoved: nat)

  function NodeProvenance(task: nat, node: nat): Provenance {
    Provenance(task, None, Some(node), None, "1.0.0")
  }

  // ----- the store as a value -----

  datatype Store = Store(artifacts: map<nat, Artifact>, index: IndexMaps, nodes: R.States)

  const EMPTY_INDEX := IndexMaps(map[], map[], map[], map[], map[])

  function Fresh(a: Artifact, now: nat): Artifact {
    Prepare(a, now).(consumed := false)
  }

  function TouchOwner(nodes: R.States, a: Artifact, now: nat): R.States {
    if a.nodeId.Some? then R.TouchArtifact(nodes, a.nodeId.value, a.id, now) else nodes
  }

  function FreshAll(batch: seq<Artifact>, now: nat): (r: seq<Artifact>)
    ensures |r| == |batch| && forall i :: 0 <= i < |r| ==> r[i] == Fresh(batch[i], now)
  {
    seq(|batch|, i requires 0 <= i < |batch| => Fresh(batch[i], now))
  }

  /** The field a batch member disagrees on with the first one, in the order the fields are compared. */
  function Mismatch(base: Artifact, a: Artifact): Option<string> {
    if a.dimensionId != base.dimensionId then Some("dimension_id")
    else if a.taskId != base.taskId then Some("task_id")
    else if a.nodeId != base.nodeId then Some("node_id")
    else if a.contentType != base.contentType then Some("content_type")
    else if a.tags != base.tags then Some("tags")
    else None
  }

  /** The mismatch of the first batch member that has one. */
  function FirstMismatch(base: Artifact, batch: seq<Artifact>): (r: Option<string>)
    ensures r.None? <==> forall a :: a in batch ==> Mismatch(base, a).None?
    decreases |batch|
  {
    if batch == [] then None else
    assert batch == [batch[0]] + batch[1..];
    if Mismatch(base, batch[0]).Some? then Mismatch(base, batch[0]) else FirstMismatch(base, batch[1..])
  }

  function PutArtifacts(artifacts: map<nat, Artifact>, batch: seq<Artifact>): map<nat, Artifact>
    decreases |batch|
  {
    if batch == [] then artifacts else PutArtifacts(artifacts[batch[0].id := batch[0]], batch[1..])
  }

  function PutIndex(m: IndexMaps, artifacts: map<nat, Artifact>, batch: seq<Artifact>): IndexMaps
    decreases |batch|
  {
    if batch == [] then m
    else PutIndex(Put(m, artifacts, batch[0]), artifacts[batch[0].id := batch[0]], batch[1..])
  }

  /** Member `i` of the batch is the first that differs from the base, and `field` is the first field it differs in. */
  ghost predicate DiffersFirst(base: Artifact, batch: seq<Artifact>, i: nat, field: string) {
    && i < |batch| && (forall j :: 0 <= j < i ==> Agrees(base, batch[j], 5))
    && ( || (field == "dimension_id" && Agrees(base, batch[i], 0) && batch[i].dimensionId != base.dimensionId)
         || (field == "task_id" && Agrees(base, batch[i], 1) && batch[i].taskId != base.taskId)
         || (field == "node_id" && Agrees(base, batch[i], 2) && batch[i].nodeId != base.nodeId)
         || (field == "content_type" && Agrees(base, batch[i], 3) && batch[i].contentType != base.contentType)
         || (field == "tags" && Agrees(base, batch[i], 4) && batch[i].tags != base.tags))
  }

  /** The first `n` of the five fields a batch must share are equal. */
  predicate Agrees(a: Artifact, b: Artifact, n: nat) {
    && (n > 0 ==> a.dimensionId == b.dimensionId) && (n > 1 ==> a.taskId == b.taskId)
    && (n > 2 ==> a.nodeId == b.nodeId) && (n > 3 ==> a.contentType == b.contentType) && (n > 4 ==> a.tags == b.tags)
  }

  lemma {:induction false} FirstMismatchMeans(base: Artifact, batch: seq<Artifact>) returns (i: nat)
    ensures FirstMismatch(base, batch).None? <==> forall a :: a in batch ==> Agrees(base, a, 5)
    ensures FirstMismatch(base, batch).Some? ==> DiffersFirst(base, batch, i, FirstMismatch(base, batch).value)
    decreases |batch|
  {
    i := 0;
    if batch != [] && Mismatch(base, batch[0]).None? {
      var rest := batch[1..];
      assert batch == [batch[0]] + rest;
      i := FirstMismatchMeans(base, rest);
      assert forall j :: 0 <= j < |rest| ==> rest[j] == batch[j + 1];
      i := i + 1;
    }
  }

  /** A batch is accepted when its prepared members agree on the five fields; the error names the first disagreement. */
  lemma BatchVerdict(batch: seq<Artifact>, now: nat)
    requires batch != []
    ensures BatchAccepted(batch, now) <==>
            forall i :: 0 <= i < |batch| ==> Agrees(Prepare(batch[0], now), Prepare(batch[i], now), 5)
    ensures !BatchAccepted(batch, now) ==>
              var bad := FirstMismatch(Prepare(batch[0], now), FreshAll(batch, now));
              bad.Some? && exists i :: DiffersFirst(Prepare(batch[0], now), FreshAll(batch, now), i, bad.value)
  {
    var made := FreshAll(batch, now);
    var at := FirstMismatchMeans(Prepare(batch[0], now), made);
    forall i | 0 <= i < |batch|
      ensures made[i] in made
      ensures Agrees(Prepare(batch[0], now), made[i], 5) == Agrees(Prepare(batch[0], now), Prepare(batch[i], now), 5)
    {
    }
  }

  /** An accepted batch stores each of its members prepared and unconsumed, unless a later one has the same id. */
  lemma BatchStores(s: Store, batch: seq<Artifact>, now: nat, i: nat)
    requires BatchAccepted(batch, now) && i < |batch| && forall j :: i < j < |batch| ==> batch[j].id != batch[i].id
    ensures var z := Apply(s, ProduceBatch(batch, now)).artifacts;
            batch[i].id in z && PreparedFrom(batch[i], now, z[batch[i].id]) && !z[batch[i].id].consumed
  {
    LastOfBatchWins(s.artifacts, FreshAll(batch, now), batch[i].id);
    PrepareMeans(batch[i], now);
    assert FreshAll(batch, now)[i].id == batch[i].id;
  }

  /** Other artifacts stay. */
  lemma BatchLeaves(s: Store, batch: seq<Artifact>, now: nat, id: nat)
    requires BatchAccepted(batch, now) && forall i :: 0 <= i < |batch| ==> batch[i].id != id
    ensures var z := Apply(s, ProduceBatch(batch, now)).artifacts;
            (id in z <==> id in s.artifacts) && (id in z ==> z[id] == s.artifacts[id])
  {
    LastOfBatchWins(s.artifacts, FreshAll(batch, now), id);
  }

  /** The node of the batch has its last member as its last artifact. */
  lemma BatchTouches(s: Store, batch: seq<Artifact>, now: nat)
    requires BatchAccepted(batch, now)
    ensures OwnerTouched(s.nodes, Apply(s, ProduceBatch(batch, now)).nodes, batch[0].nodeId, batch[|batch| - 1].id, now)
  {
    BatchVerdict(batch, now);
    assert Agrees(Prepare(batch[0], now), Prepare(batch[|batch| - 1], now), 5);
    var made := FreshAll(batch, now);
    TouchOwnerMeans(s.nodes, made[|batch| - 1], now);
  }

  lemma TouchOwnerMeans(nodes: R.States, a: Artifact, now: nat)
    ensures OwnerTouched(nodes, TouchOwner(nodes, a, now), a.nodeId, a.id, now)
  {
  }

  /** The artifact's node, if it has one, has it as its last artifact; nothing else about any node changes. */
  ghost predicate OwnerTouched(before: R.States, after: R.States, node: Option<nat>, id: nat, now: nat) {
    match node
    case None => after == before
    case Some(n) =>
      && R.Only(before, after, n) && after[n].lastArtifact == Some(id) && after[n].updatedAtMs == now
      && (n in before ==> after[n] == before[n].(lastArtifact := Some(id), updatedAtMs := now))
      && (n !in before ==> after[n] == R.NodeState(n, 0, Some(id), None, None, now))
  }

  /** The ids of the first `n` artifacts, in order. */
  ghost predicate IdsAre(ids: seq<nat>, batch: seq<Artifact>, n: nat) {
    |ids| == n <= |batch| && forall k :: 0 <= k < n ==> ids[k] == batch[k].id
  }

  lemma IdsGrow(ids: seq<nat>, batch: seq<Artifact>, n: nat)
    requires IdsAre(ids, batch, n) && n < |batch|
    ensures IdsAre(ids + [batch[n].id], batch, n + 1)
  {
  }

  lemma PutAllUnfolds(artifacts: map<nat, Artifact>, m: IndexMaps, batch: seq<Artifact>, i: nat)
    requires i < |batch|
    ensures PutArtifacts(artifacts, batch[i..]) == PutArtifacts(artifacts[batch[i].id := batch[i]], batch[i + 1..])
    ensures PutIndex(m, artifacts, batch[i..])
         == PutIndex(Put(m, artifacts, batch[i]), artifacts[batch[i].id := batch[i]], batch[i + 1..])
  {
    assert batch[i..][1..] == batch[i + 1..];
  }

  /** An id repeated in a batch keeps its last artifact; ids not in the batch keep theirs. */
  lemma {:induction false} LastOfBatchWins(artifacts: map<nat, Artifact>, batch: seq<Artifact>, id: nat)
    ensures var r := PutArtifacts(artifacts, batch);
            && (id in r <==> id in artifacts || exists i :: 0 <= i < |batch| && batch[i].id == id)
            && (forall i :: 0 <= i < |batch| && batch[i].id == id && (forall j :: i < j < |batch| ==> batch[j].id != id)
                  ==> r[id] == batch[i])
            && ((forall i :: 0 <= i < |batch| ==> batch[i].id != id) && id in artifacts ==> r[id] == artifacts[id])
    decreases |batch|
  {
    if batch != [] {
      var rest := batch[1..];
      assert forall i :: 0 <= i < |rest| ==> rest[i] == batch[i + 1];
      LastOfBatchWins(artifacts[batch[0].id := batch[0]], rest, id);
      if exists i :: 0 <= i < |batch| && batch[i].id == id {
        var i :| 0 <= i < |batch| && batch[i].id == id;
        assert i > 0 ==> rest[i - 1].id == id;
      }
    }
  }

  lemma {:induction false} PutAllKeepsConsistent(artifacts: map<nat, Artifact>, m: IndexMaps, batch: seq<Artifact>)
    requires Consistent(artifacts, m) && forall a :: a in batch ==> NoDup(a.tags)
    ensures Consistent(PutArtifacts(artifacts, batch), PutIndex(m, artifacts, batch))
    decreases |batch|
  {
    if batch != [] {
      PutKeepsConsistent(artifacts, m, batch[0]);
      PutAllKeepsConsistent(artifacts[batch[0].id := batch[0]], Put(m, artifacts, batch[0]), batch[1..]);
    }
  }

  // ----- garbage collection -----

  predicate Expired(p: Policy, madeAtMs: nat) {
    p.expireBeforeMs.Some? && madeAtMs < p.expireBeforeMs.value
  }

  predicate Inactive(p: Policy, dimension: nat) {
    p.activeDimensions != {} && dimension !in p.activeDimensions
  }

  predicate Removable(p: Policy, a: Artifact) {
    || Expired(p, a.createdAtMs)
    || (Inactive(p, a.dimensionId) && a.immutabilityTier <= 1)
    || (p.removeConsumedEphemeral && a.immutabilityTier == 0 && a.consumed)
  }

  predicate SnapshotRemovable(p: Policy, known: set<nat>, s: Snapshot) {
    Expired(p, s.capturedAtMs) || Inactive(p, s.dimensionId) || (p.removeOrphanedNodes && s.nodeId !in known)
  }

  predicate PatchRemovable(p: Policy, q: Patch) {
    Expired(p, q.createdAtMs) || Inactive(p, q.dimensionId)
  }

  function KeptSnapshots(p: Policy, known: set<nat>, snapshots: map<nat, Snapshot>): map<nat, Snapshot> {
    map id | id in snapshots && !SnapshotRemovable(p, known, snapshots[id]) :: snapshots[id]
  }

  function KeptPatches(p: Policy, patches: map<nat, Patch>): map<nat, Patch> {
    map id | id in patches && !PatchRemovable(p, patches[id]) :: patches[id]
  }

  function Kept(p: Policy, artifacts: map<nat, Artifact>): map<nat, Artifact> {
    map id | id in artifacts && !Removable(p, artifacts[id]) :: artifacts[id]
  }

  /** The removed artifacts in the order the hash map happened to visit them. */
  ghost predicate RemovalOrder(p: Policy, artifacts: map<nat, Artifact>, removed: seq<Artifact>) {
    NoDup(removed) && forall a :: a in removed <==> a.id in artifacts && artifacts[a.id] == a && Removable(p, a)
  }

  /** The sweep with the ids in `todo` still to be looked at. */
  ghost predicate Swept(p: Policy, before: map<nat, Artifact>, todo: set<nat>, now: map<nat, Artifact>, removed: seq<Artifact>) {
    && todo <= now.Keys <= before.Keys && NoDup(removed)
    && (forall id :: id in now ==> now[id] == before[id])
    && (forall id :: id in before && id !in todo ==> (id in now <==> !Removable(p, before[id])))
    && (forall a :: a in removed <==> a.id in before && before[a.id] == a && a.id !in todo && Removable(p, a))
  }

  lemma SweepOne(p: Policy, before: map<nat, Artifact>, todo: set<nat>, now: map<nat, Artifact>, removed: seq<Artifact>, id: nat)
    requires Stored(before) && Swept(p, before, todo, now, removed) && id in todo
    ensures var a := now[id];
            if Removable(p, a) then Swept(p, before, todo - {id}, now - {id}, removed + [a])
            else Swept(p, before, todo - {id}, now, removed)
  {
    var all := removed + [now[id]];
    assert forall a :: a in all <==> a in removed || a == now[id];
  }

  lemma SweepEnds(p: Policy, before: map<nat, Artifact>, now: map<nat, Artifact>, removed: seq<Artifact>)
    requires Swept(p, before, {}, now, removed)
    ensures now == Kept(p, before) && RemovalOrder(p, before, removed)
  {
  }

  function DeleteAll(m: IndexMaps, removed: seq<Artifact>): IndexMaps
    decreases |removed|
  {
    if removed == [] then m else DeleteAll(Deleted(m, removed[0]), removed[1..])
  }

  function ClearLast(nodes: R.States, a: Artifact): R.States {
    if a.nodeId.Some? && a.nodeId.value in nodes && nodes[a.nodeId.value].lastArtifact == Some(a.id)
    then nodes[a.nodeId.value := nodes[a.nodeId.value].(lastArtifact := None)]
    else nodes
  }

  function ClearAll(nodes: R.States, removed: seq<Artifact>): R.States
    decreases |removed|
  {
    if removed == [] then nodes else ClearAll(ClearLast(nodes, removed[0]), removed[1..])
  }

  function Ids(xs: seq<Artifact>): (r: set<nat>)
    ensures forall id :: id in r <==> exists a :: a in xs && a.id == id
  {
    set a | a in xs :: a.id
  }

  lemma {:induction false} DeleteAllKeepsConsistent(artifacts: map<nat, Artifact>, m: IndexMaps, removed: seq<Artifact>)
    requires Consistent(artifacts, m) && NoDup(removed)
    requires forall a :: a in removed ==> a.id in artifacts && artifacts[a.id] == a
    ensures Consistent(artifacts - Ids(removed), DeleteAll(m, removed))
    decreases |removed|
  {
    if removed == [] {
      assert artifacts - Ids(removed) == artifacts;
    } else {
      var a, rest := removed[0], removed[1..];
      assert removed == [a] + rest && a !in rest;
      DeleteKeepsConsistent(artifacts, m, a.id);
      DeleteAllKeepsConsistent(artifacts - {a.id}, Deleted(m, a), rest);
      assert Ids(removed) == {a.id} + Ids(rest);
      assert artifacts - Ids(removed) == (artifacts - {a.id}) - Ids(rest);
    }
  }

  lemma CollectKeepsConsistent(p: Policy, artifacts: map<nat, Artifact>, m: IndexMaps, removed: seq<Artifact>)
    requires Consistent(artifacts, m) && RemovalOrder(p, artifacts, removed)
    ensures Consistent(Kept(p, artifacts), DeleteAll(m, removed))
  {
    DeleteAllKeepsConsistent(artifacts, m, removed);
    assert forall id :: id in artifacts ==> (artifacts[id] in removed <==> Removable(p, artifacts[id]));
    assert Kept(p, artifacts) == artifacts - Ids(removed);
  }

  /** Collection forgets a node's last artifact exactly when that artifact belonged to the node and was removed. */
  lemma {:induction false} ClearAllMeaning(nodes: R.States, removed: seq<Artifact>, n: nat)
    requires n in nodes
    ensures n in ClearAll(nodes, removed)
    ensures var lost := exists a :: a in removed && a.nodeId == Some(n) && nodes[n].lastArtifact == Some(a.id);
            ClearAll(nodes, removed)[n] == if lost then nodes[n].(lastArtifact := None) else nodes[n]
    decreases |removed|
  {
    if removed != [] {
      assert removed == [removed[0]] + removed[1..];
      ClearAllMeaning(ClearLast(nodes, removed[0]), removed[1..], n);
    }
  }

  lemma {:induction false} ClearAllKeys(nodes: R.States, removed: seq<Artifact>)
    ensures ClearAll(nodes, removed).Keys == nodes.Keys
    decreases |removed|
  {
    if removed != [] {
      assert ClearLast(nodes, removed[0]).Keys == nodes.Keys;
      ClearAllKeys(ClearLast(nodes, removed[0]), removed[1..]);
    }
  }

  /** What a policy spares among artifacts, spelled out. */
  lemma PolicySpares(p: Policy, artifacts: map<nat, Artifact>, id: nat)
    requires id in artifacts
    ensures var a := artifacts[id];
            id in Kept(p, artifacts) <==>
            && !(p.expireBeforeMs.Some? && a.createdAtMs < p.expireBeforeMs.value)
            && !(p.activeDimensions != {} && a.dimensionId !in p.activeDimensions
                 && (a.immutabilityTier == 0 || a.immutabilityTier == 1))
            && !(p.removeConsumedEphemeral && a.consumed && a.immutabilityTier == 0)
    ensures id in Kept(p, artifacts) ==> Kept(p, artifacts)[id] == artifacts[id]
  {
  }

  lemma PolicySparesSnapshots(p: Policy, known: set<nat>, snapshots: map<nat, Snapshot>, id: nat)
    requires id in snapshots
    ensures var s := snapshots[id];
            id in KeptSnapshots(p, known, snapshots) <==>
            && !(p.expireBeforeMs.Some? && s.capturedAtMs < p.expireBeforeMs.value)
            && !(p.activeDimensions != {} && s.dimensionId !in p.activeDimensions)
            && !(p.removeOrphanedNodes && s.nodeId !in known)
    ensures id in KeptSnapshots(p, known, snapshots) ==> KeptSnapshots(p, known, snapshots)[id] == snapshots[id]
  {
  }

  lemma PolicySparesPatches(p: Policy, patches: map<nat, Patch>, id: nat)
    requires id in patches
    ensures var q := patches[id];
            id in KeptPatches(p, patches) <==>
            && !(p.expireBeforeMs.Some? && q.createdAtMs < p.expireBeforeMs.value)
            && !(p.activeDimensions != {} && q.dimensionId !in p.activeDimensions)
    ensures id in KeptPatches(p, patches) ==> KeptPatches(p, patches)[id] == patches[id]
  {
  }

  /** A policy that names nothing removes nothing. */
  lemma EmptyPolicyKeepsAll(artifacts: map<nat, Artifact>, known: set<nat>, snapshots: map<nat, Snapshot>, patches: map<nat, Patch>)
    ensures var p := Policy({}, false, false, None);
            Kept(p, artifacts) == artifacts && KeptSnapshots(p, known, snapshots) == snapshots && KeptPatches(p, patches) == patches
  {
  }

  // ----- runs over a network of stores -----

  datatype Op =
    | Produce(a: Artifact, now: nat)
    | ProduceBatch(batch: seq<Artifact>, now: nat)
    | Consume(id: nat)
    | Collect(policy: Policy, removed: seq<Artifact>)

  ghost predicate Possible(s: Store, op: Op) {
    op.Collect? ==> RemovalOrder(op.policy, s.artifacts, op.removed)
  }

  predicate BatchAccepted(batch: seq<Artifact>, now: nat) {
    batch != [] && FirstMismatch(Prepare(batch[0], now), FreshAll(batch, now)).None?
  }

  /** The store after an operation; a refused operation leaves it as it was. */
  function Apply(s: Store, op: Op): Store {
    match op
    case Produce(a, now) =>
      var f := Fresh(a, now);
      Store(s.artifacts[f.id := f], Put(s.index, s.artifacts, f), TouchOwner(s.nodes, f, now))
    case ProduceBatch(batch, now) =>
      if !BatchAccepted(batch, now) then s else
      var fs := FreshAll(batch, now);
      Store(PutArtifacts(s.artifacts, fs), PutIndex(s.index, s.artifacts, fs), TouchOwner(s.nodes, fs[|fs| - 1], now))
    case Consume(id) =>
      if id !in s.artifacts || s.artifacts[id].consumed then s
      else s.(artifacts := s.artifacts[id := s.artifacts[id].(consumed := true)])
    case Collect(p, removed) =>
      Store(Kept(p, s.artifacts), DeleteAll(s.index, removed), ClearAll(s.nodes, removed))
  }

  /** A replicated artifact is stored as the source has it, consumed flag included, and never overwrites. */
  function Replicated(s: Store, a: Artifact, now: nat): Store {
    if a.id in s.artifacts then s
    else Store(s.artifacts[a.id := a], Inserted(s.index, a), TouchOwner(s.nodes, a, now))
  }

  datatype NetworkOp = At(store: nat, op: Op) | Replicate(from: nat, to: nat, id: nat, now: nat)

  function NetworkApply(net: seq<Store>, op: NetworkOp): seq<Store> {
    match op
    case At(i, o) => if i < |net| then net[i := Apply(net[i], o)] else net
    case Replicate(i, j, id, now) =>
      if i < |net| && j < |net| && id in net[i].artifacts then net[j := Replicated(net[j], net[i].artifacts[id], now)] else net
  }

  function NetworkRun(net: seq<Store>, ops: seq<NetworkOp>): seq<Store>
    decreases |ops|
  {
    if ops == [] then net else NetworkRun(NetworkApply(net, ops[0]), ops[1..])
  }

  ghost predicate RunPossible(net: seq<Store>, ops: seq<NetworkOp>)
    decreases |ops|
  {
    ops == [] || (
      && (ops[0].At? && ops[0].store < |net| ==> Possible(net[ops[0].store], ops[0].op))
      && RunPossible(NetworkApply(net, ops[0]), ops[1..]))
  }

  ghost predicate AllConsistent(net: seq<Store>) {
    forall i :: 0 <= i < |net| ==> Consistent(net[i].artifacts, net[i].index)
  }

  /** A step acts on one store; replication stores the source's artifact, unless the target has one with its id. */
  lemma NetworkStepMeans(net: seq<Store>, op: NetworkOp)
    requires AllConsistent(net)
    ensures var z := NetworkApply(net, op);
            && |z| == |net|
            && match op
               case At(i, o) =>
                 (forall k :: 0 <= k < |net| && k != i ==> z[k] == net[k]) && (i < |net| ==> z[i] == Apply(net[i], o))
               case Replicate(i, j, id, now) =>
                 && (forall k :: 0 <= k < |net| && k != j ==> z[k] == net[k])
                 && (j < |net| ==>
                       if i < |net| && id in net[i].artifacts && id !in net[j].artifacts
                       then && z[j].artifacts == net[j].artifacts[id := net[i].artifacts[id]]
                            && OwnerTouched(net[j].nodes, z[j].nodes, net[i].artifacts[id].nodeId, id, now)
                       else z[j] == net[j])
  {
    if op.Replicate? && op.from < |net| && op.to < |net| && op.id in net[op.from].artifacts {
      assert Consistent(net[op.from].artifacts, net[op.from].index);
    }
  }

  /** The operation stores no artifact under this id. */
  predicate Spares(op: Op, id: nat) {
    match op
    case Produce(a, _) => a.id != id
    case ProduceBatch(batch, _) => forall i :: 0 <= i < |batch| ==> batch[i].id != id
    case _ => true
  }

  lemma ApplyKeepsConsumed(s: Store, op: Op, id: nat)
    requires Spares(op, id) && (id in s.artifacts ==> s.artifacts[id].consumed)
    ensures id in Apply(s, op).artifacts ==> Apply(s, op).artifacts[id].consumed
  {
    if op.ProduceBatch? && BatchAccepted(op.batch, op.now) {
      LastOfBatchWins(s.artifacts, FreshAll(op.batch, op.now), id);
    }
  }

  function RunOne(s: Store, ops: seq<Op>): Store
    decreases |ops|
  {
    if ops == [] then s else RunOne(Apply(s, ops[0]), ops[1..])
  }

  /** Once consumed an artifact is never handed out again, whatever the store does, until its id is produced anew. */
  lemma {:induction false} ConsumedOnce(s: Store, ops: seq<Op>, id: nat)
    requires id in s.artifacts && forall k :: 0 <= k < |ops| ==> Spares(ops[k], id)
    ensures var z := RunOne(Apply(s, Consume(id)), ops);
            id in z.artifacts ==> z.artifacts[id].consumed && Apply(z, Consume(id)) == z
  {
    StaysConsumed(Apply(s, Consume(id)), ops, id);
  }

  lemma {:induction false} StaysConsumed(s: Store, ops: seq<Op>, id: nat)
    requires (id in s.artifacts ==> s.artifacts[id].consumed) && forall k :: 0 <= k < |ops| ==> Spares(ops[k], id)
    ensures var z := RunOne(s, ops); id in z.artifacts ==> z.artifacts[id].consumed
    decreases |ops|
  {
    if ops != [] {
      ApplyKeepsConsumed(s, ops[0], id);
      StaysConsumed(Apply(s, ops[0]), ops[1..], id);
    }
  }

  lemma ConsumeKeepsConsistent(artifacts: map<nat, Artifact>, m: IndexMaps, id: nat)
    requires Consistent(artifacts, m) && id in artifacts
    ensures Consistent(artifacts[id := artifacts[id].(consumed := true)], m)
  {
    var all := artifacts[id := artifacts[id].(consumed := true)];
    forall key
      ensures ScanOf(all, key, Lookup(m, key))
    {
      assert ScanOf(artifacts, key, Lookup(m, key));
      assert forall x :: x in all ==> (HasKey(all[x], key) <==> HasKey(artifacts[x], key));
    }
  }

  lemma ApplyKeepsConsistent(s: Store, op: Op)
    requires Consistent(s.artifacts, s.index) && Possible(s, op)
    ensures Consistent(Apply(s, op).artifacts, Apply(s, op).index)
  {
    match op
    case Produce(a, now) => PutKeepsConsistent(s.artifacts, s.index, Fresh(a, now));
    case ProduceBatch(batch, now) => PutAllKeepsConsistent(s.artifacts, s.index, FreshAll(batch, now));
    case Consume(id) => if id in s.artifacts { ConsumeKeepsConsistent(s.artifacts, s.index, id); }
    case Collect(p, removed) => CollectKeepsConsistent(p, s.artifacts, s.index, removed);
  }

  /**
    * Any number of stores, any run of produce, batch produce, consume, collect and replicate between them:
    * every index of every store answers every query with exactly the stored artifacts that a full scan finds.
    */
  lemma {:induction false} EveryRunKeepsIndexes(net: seq<Store>, ops: seq<NetworkOp>)
    requires AllConsistent(net) && RunPossible(net, ops)
    ensures AllConsistent(NetworkRun(net, ops))
    decreases |ops|
  {
    if ops != [] {
      match ops[0] {
        case At(i, o) => if i < |net| { ApplyKeepsConsistent(net[i], o); }
        case Replicate(i, j, id, now) =>
          if i < |net| && j < |net| && id in net[i].artifacts && id !in net[j].artifacts {
            InsertKeepsConsistent(net[j].artifacts, net[j].index, net[i].artifacts[id]);
          }
      }
      EveryRunKeepsIndexes(NetworkApply(net, ops[0]), ops[1..]);
    }
  }

  lemma EmptyStoreIsConsistent()
    ensures Consistent(map[], EMPTY_INDEX)
  {
  }

  // ----- the index object -----

  class ArtifactIndex {
    var byDimension: map<nat, seq<nat>>
    var byTask: map<nat, seq<nat>>
    var byNode: map<nat, seq<nat>>
    var byAgent: map<string, seq<nat>>
    var byTag: map<string, seq<nat>>

    function Maps(): IndexMaps
      reads this
    {
      IndexMaps(byDimension, byTask, byNode, byAgent, byTag)
    }

    constructor ()
      ensures Maps() == EMPTY_INDEX
    {
      byDimension, byTask, byNode, byAgent, byTag := map[], map[], map[], map[], map[];
    }

    method Insert(a: Artifact)
      modifies this
      ensures Maps() == Inserted(old(Maps()), a)
    {
      byDimension := Push(byDimension, a.dimensionId, a.id);
      byTask := Push(byTask, a.taskId, a.id);
      if a.nodeId.Some? {
        byNode := Push(byNode, a.nodeId.value, a.id);
      }
      if a.provenance.agentId.Some? {
        byAgent := Push(byAgent, a.provenance.agentId.value, a.id);
      }
      for i := 0 to |a.tags|
        invariant byTag == PushTags(old(byTag), a.tags[..i], a.id)
        invariant Maps() == Inserted(old(Maps()), a).(byTag := byTag)
      {
        assert a.tags[..i + 1][..i] == a.tags[..i];
        byTag := Push(byTag, a.tags[i], a.id);
      }
      assert a.tags[..|a.tags|] == a.tags;
    }

    method Remove(a: Artifact)
      modifies this
      ensures Maps() == Deleted(old(Maps()), a)
    {
      byDimension := Retain(byDimension, a.dimensionId, a.id);
      byTask := Retain(byTask, a.taskId, a.id);
      if a.nodeId.Some? {
        byNode := Retain(byNode, a.nodeId.value, a.id);
      }
      if a.provenance.agentId.Some? {
        byAgent := Retain(byAgent, a.provenance.agentId.value, a.id);
      }
      for i := 0 to |a.tags|
        invariant byTag == RetainTags(old(byTag), a.tags[..i], a.id)
        invariant Maps() == Deleted(old(Maps()), a).(byTag := byTag)
      {
        assert a.tags[..i + 1][..i] == a.tags[..i];
        byTag := Retain(byTag, a.tags[i], a.id);
      }
      assert a.tags[..|a.tags|] == a.tags;
    }
  }

  class MeshStore {
    var artifacts: map<nat, Artifact>
    var snapshots: map<nat, Snapshot>
    var patches: map<nat, Patch>
    var nodeStates: R.States
    const index: ArtifactIndex

    ghost predicate Valid()
      reads this, index
    {
      Consistent(artifacts, index.Maps())
    }

    ghost function State(): Store
      reads this, index
    {
      Store(artifacts, index.Maps(), nodeStates)
    }

    constructor ()
      ensures Valid() && fresh(index) && State() == Store(map[], EMPTY_INDEX, map[]) && snapshots == map[] && patches == map[]
    {
      artifacts, snapshots, patches, nodeStates := map[], map[], map[], map[];
      index := new ArtifactIndex();
      new;
      EmptyStoreIsConsistent();
    }

    /** Each query returns exactly the stored artifacts with the key, each once. */
    method Query(key: IndexKey) returns (ids: seq<nat>)
      requires Valid()
      ensures ScanOf(artifacts, key, ids) && ids == Lookup(index.Maps(), key)
      ensures forall id :: id in ids <==>
                id in artifacts &&
                match key
                case DimensionKey(d) => artifacts[id].dimensionId == d
                case TaskKey(t) => artifacts[id].taskId == t
                case NodeKey(n) => artifacts[id].nodeId == Some(n)
                case AgentKey(g) => artifacts[id].provenance.agentId == Some(g)
                case TagKey(t) => t in artifacts[id].tags
    {
      match key {
        case DimensionKey(d) => ids := if d in index.byDimension then index.byDimension[d] else [];
        case TaskKey(t) => ids := if t in index.byTask then index.byTask[t] else [];
        case NodeKey(n) => ids := if n in index.byNode then index.byNode[n] else [];
        case AgentKey(a) => ids := if a in index.byAgent then index.byAgent[a] else [];
        case TagKey(t) => ids := if t in index.byTag then index.byTag[t] else [];
      }
      assert ids == Lookup(index.Maps(), key);
      assert ScanOf(artifacts, key, Lookup(index.Maps(), key));
    }

    /** The critical section both producers share: forget an overwritten artifact, index and store the new one. */
    method StoreIndexed(a: Artifact)
      requires Valid() && NoDup(a.tags)
      modifies this`artifacts, index
      ensures Valid()
      ensures artifacts == old(artifacts)[a.id := a]
      ensures index.Maps() == Put(old(index.Maps()), old(artifacts), a)
    {
      PutKeepsConsistent(artifacts, index.Maps(), a);
      if a.id in artifacts {
        index.Remove(artifacts[a.id]);
      }
      index.Insert(a);
      artifacts := artifacts[a.id := a];
    }

    method Produce(a: Artifact, now: nat) returns (id: nat)
      requires Valid()
      modifies this`artifacts, this`nodeStates, index
      ensures Valid() && id == a.id
      ensures State() == Apply(old(State()), Op.Produce(a, now))
      ensures a.id in artifacts && artifacts == old(artifacts)[a.id := artifacts[a.id]]
      ensures PreparedFrom(a, now, artifacts[a.id]) && !artifacts[a.id].consumed
      ensures OwnerTouched(old(nodeStates), nodeStates, a.nodeId, a.id, now)
    {
      PrepareMeans(a, now);
      var f := Prepare(a, now).(consumed := false);
      id := f.id;
      StoreIndexed(f);
      if f.nodeId.Some? {
        nodeStates := R.TouchArtifact(nodeStates, f.nodeId.value, id, now);
      }
    }

    method CheckBatch(batch: seq<Artifact>) returns (r: Option<string>)
      requires batch != []
      ensures r == FirstMismatch(batch[0], batch)
    {
      for i := 0 to |batch|
        invariant FirstMismatch(batch[0], batch) == FirstMismatch(batch[0], batch[i..])
      {
        assert batch[i..][1..] == batch[i + 1..];
        r := Mismatch(batch[0], batch[i]);
        if r.Some? {
          return;
        }
      }
      r := None;
    }

    method StoreBatch(batch: seq<Artifact>) returns (ids: seq<nat>)
      requires Valid() && forall a :: a in batch ==> NoDup(a.tags)
      modifies this`artifacts, index
      ensures Valid()
      ensures artifacts == PutArtifacts(old(artifacts), batch)
      ensures index.Maps() == PutIndex(old(index.Maps()), old(artifacts), batch)
      ensures IdsAre(ids, batch, |batch|)
    {
      ids := [];
      for i := 0 to |batch|
        invariant Valid()
        invariant PutArtifacts(artifacts, batch[i..]) == PutArtifacts(old(artifacts), batch)
        invariant PutIndex(index.Maps(), artifacts, batch[i..]) == PutIndex(old(index.Maps()), old(artifacts), batch)
        invariant IdsAre(ids, batch, i)
      {
        PutAllUnfolds(artifacts, index.Maps(), batch, i);
        StoreIndexed(batch[i]);
        IdsGrow(ids, batch, i);
        ids := ids + [batch[i].id];
      }
    }

    method ProduceBatch(batch: seq<Artifact>, now: nat) returns (r: Result<seq<nat>, MeshError>)
      requires Valid()
      modifies this`artifacts, this`nodeStates, index
      ensures Valid() && State() == Apply(old(State()), Op.ProduceBatch(batch, now))
      ensures r.Ok? <==> BatchAccepted(batch, now)
      ensures r.Ok? ==> |r.value| == |batch| && forall i :: 0 <= i < |batch| ==> r.value[i] == batch[i].id
      ensures batch == [] ==> r == Err(EmptyBatch)
      ensures batch != [] && r.Err? ==>
                r.error == BatchMismatch(FirstMismatch(Prepare(batch[0], now), FreshAll(batch, now)).value)
    {
      if batch == [] {
        return Err(EmptyBatch);
      }
      var prepared := FreshAll(batch, now);
      var bad := CheckBatch(prepared);
      assert FirstMismatch(prepared[0], prepared) == FirstMismatch(Prepare(batch[0], now), prepared) by {
        SameFieldsSameMismatch(prepared[0], Prepare(batch[0], now), prepared);
      }
      if bad.Some? {
        return Err(BatchMismatch(bad.value));
      }
      var ids := StoreBatch(prepared);
      var last := prepared[|prepared| - 1];
      assert last in prepared;
      if prepared[0].nodeId.Some? {
        nodeStates := R.TouchArtifact(nodeStates, prepared[0].nodeId.value, ids[|ids| - 1], now);
      }
      return Ok(ids);
    }

    method Consume(id: nat) returns (r: Result<Artifact, MeshError>)
      requires Valid()
      modifies this`artifacts
      ensures Valid() && State() == Apply(old(State()), Op.Consume(id))
      ensures id !in old(artifacts) ==> r == Err(NotFound(id))
      ensures id in old(artifacts) && old(artifacts)[id].consumed ==> r == Err(AlreadyConsumed(id))
      ensures id in old(artifacts) && !old(artifacts)[id].consumed ==> r == Ok(old(artifacts)[id].(consumed := true))
      ensures artifacts == if r.Ok? then old(artifacts)[id := r.value] else old(artifacts)
    {
      if id !in artifacts {
        return Err(NotFound(id));
      }
      if artifacts[id].consumed {
        return Err(AlreadyConsumed(id));
      }
      ConsumeKeepsConsistent(artifacts, index.Maps(), id);
      artifacts := artifacts[id := artifacts[id].(consumed := true)];
      r := Ok(artifacts[id]);
    }

    method InsertReplicatedArtifact(a: Artifact, now: nat) returns (r: Result<(), MeshError>)
      requires Valid() && NoDup(a.tags)
      modifies this`artifacts, this`nodeStates, index
      ensures Valid() && State() == Replicated(old(State()), a, now)
      ensures r == if a.id in old(artifacts) then Err(AlreadyExists(a.id)) else Ok(())
      ensures artifacts == if r.Ok? then old(artifacts)[a.id := a] else old(artifacts)
      ensures if r.Ok? then OwnerTouched(old(nodeStates), nodeStates, a.nodeId, a.id, now) else nodeStates == old(nodeStates)
    {
      if a.id in artifacts {
        return Err(AlreadyExists(a.id));
      }
      InsertKeepsConsistent(artifacts, index.Maps(), a);
      index.Insert(a);
      artifacts := artifacts[a.id := a];
      if a.nodeId.Some? {
        nodeStates := R.TouchArtifact(nodeStates, a.nodeId.value, a.id, now);
      }
      r := Ok(());
    }

    // ----- snapshots, patches, revisions -----

    method AdvanceRevision(n: nat, expected: R.Revision, strategy: R.Strategy, patch: nat, now: nat)
      returns (r: Result<R.Advance, R.Conflict>)
      modifies this`nodeStates
      ensures (nodeStates, r) == R.AdvanceRevision(old(nodeStates), n, expected, strategy, patch, now)
    {
      if n !in nodeStates {
        nodeStates := nodeStates[n := R.NewNode(n, now)];
      }
      var st := nodeStates[n];
      assert st == R.StateOf(old(nodeStates), n, now) && nodeStates == old(nodeStates)[n := st];
      var conflict := st.revision != expected;
      if conflict && strategy == R.Reject {
        return Err(R.ConcurrentEdit(n, expected, st.revision));
      }
      var next := R.Bump(st.revision);
      nodeStates := nodeStates[n := st.(revision := next, lastPatch := Some(patch), updatedAtMs := now)];
      assert nodeStates == old(nodeStates)[n := st.(revision := next, lastPatch := Some(patch), updatedAtMs := now)];
      r := Ok(R.Advance(st.revision, next, conflict));
    }

    /** Rejection stores no patch; otherwise the stored patch carries the step the node's revision made. */
    method PatchWithRevision(id: nat, n: nat, expected: R.Revision, strategy: R.Strategy, task: nat, dimension: nat,
                             content: string, now: nat)
      returns (r: Result<R.Advance, MeshError>)
      requires Valid()
      modifies this`nodeStates, this`patches
      ensures Valid()
      ensures var (states, adv) := R.AdvanceRevision(old(nodeStates), n, expected, strategy, id, now);
              && nodeStates == states
              && r == (if adv.Ok? then Ok(adv.value) else Err(Edit(adv.error)))
      ensures r.Err? <==> strategy == R.Reject && R.CurrentRevision(old(nodeStates), n) != expected
      ensures r.Err? ==> patches == old(patches)
      ensures r.Ok? ==> patches == old(patches)[id := Patch(id, dimension, task, n, Provenance(task, None, Some(n), None, "1.0.0"),
                                                           now, r.value.base, r.value.new_, r.value.conflict, content)]
      ensures r.Ok? ==> && r.value.base == R.CurrentRevision(old(nodeStates), n) && R.OneUp(r.value.base, r.value.new_)
                        && (r.value.conflict <==> r.value.base != expected) && n in nodeStates
                        && nodeStates[n].revision == r.value.new_ && nodeStates[n].lastPatch == Some(id)
    {
      var adv := AdvanceRevision(n, expected, strategy, id, now);
      if adv.Err? {
        return Err(Edit(adv.error));
      }
      patches := patches[id := Patch(id, dimension, task, n, NodeProvenance(task, n), now,
                                     adv.value.base, adv.value.new_, adv.value.conflict, content)];
      r := Ok(adv.value);
    }

    /** A snapshot carries the revision its node has. */
    method SnapshotNode(id: nat, n: nat, state: string, task: nat, dimension: nat, now: nat)
      requires Valid()
      modifies this`nodeStates, this`snapshots
      ensures Valid() && nodeStates == R.TouchSnapshot(old(nodeStates), n, id, now)
      ensures snapshots == old(snapshots)[id := Snapshot(id, dimension, task, n, state,
                                                         Provenance(task, None, Some(n), None, "1.0.0"), now,
                                                         if n in old(nodeStates) then old(nodeStates)[n].revision else 0)]
    {
      var revision := R.CurrentRevision(nodeStates, n);
      snapshots := snapshots[id := Snapshot(id, dimension, task, n, state, NodeProvenance(task, n), now, revision)];
      nodeStates := R.TouchSnapshot(nodeStates, n, id, now);
    }

    method InsertReplicatedPatch(p: Patch, now: nat) returns (r: Result<(), MeshError>)
      requires Valid()
      modifies this`nodeStates, this`patches
      ensures Valid()
      ensures p.id in old(patches) ==> r == Err(AlreadyExists(p.id)) && patches == old(patches) && nodeStates == old(nodeStates)
      ensures p.id !in old(patches) ==> r == Ok(()) && patches == old(patches)[p.id := p]
      ensures p.id !in old(patches) ==> nodeStates == R.DeliverPatch(old(nodeStates), p.nodeId, p.id, p.new_, now)
    {
      if p.id in patches {
        return Err(AlreadyExists(p.id));
      }
      patches := patches[p.id := p];
      nodeStates := R.DeliverPatch(nodeStates, p.nodeId, p.id, p.new_, now);
      r := Ok(());
    }

    method InsertReplicatedSnapshot(s: Snapshot, now: nat) returns (r: Result<(), MeshError>)
      requires Valid()
      modifies this`nodeStates, this`snapshots
      ensures Valid()
      ensures s.id in old(snapshots) ==> r == Err(AlreadyExists(s.id)) && snapshots == old(snapshots) && nodeStates == old(nodeStates)
      ensures s.id !in old(snapshots) ==> r == Ok(()) && snapshots == old(snapshots)[s.id := s]
      ensures s.id !in old(snapshots) ==> nodeStates == R.DeliverSnapshot(old(nodeStates), s.nodeId, s.id, s.revision, now)
    {
      if s.id in snapshots {
        return Err(AlreadyExists(s.id));
      }
      snapshots := snapshots[s.id := s];
      nodeStates := R.DeliverSnapshot(nodeStates, s.nodeId, s.id, s.revision, now);
      r := Ok(());
    }

    // ----- garbage collection -----

    /** `retain` on the primary map: the removed artifacts are collected in visiting order. */
    method SweepArtifacts(p: Policy) returns (removed: seq<Artifact>)
      requires Stored(artifacts)
      modifies this`artifacts
      ensures artifacts == Kept(p, old(artifacts)) && RemovalOrder(p, old(artifacts), removed)
    {
      removed := [];
      var todo := artifacts.Keys;
      ghost var before := artifacts;
      while todo != {}
        invariant Swept(p, before, todo, artifacts, removed)
        decreases |todo|
      {
        var id :| id in todo;
        var a := artifacts[id];
        SweepOne(p, before, todo, artifacts, removed, id);
        todo := todo - {id};
        if Removable(p, a) {
          removed := removed + [a];
          artifacts := artifacts - {id};
        }
      }
      SweepEnds(p, before, artifacts, removed);
    }

    method SweepIndex(removed: seq<Artifact>)
      modifies index
      ensures index.Maps() == DeleteAll(old(index.Maps()), removed)
    {
      for i := 0 to |removed|
        invariant DeleteAll(index.Maps(), removed[i..]) == DeleteAll(old(index.Maps()), removed)
      {
        assert removed[i..][1..] == removed[i + 1..];
        index.Remove(removed[i]);
      }
    }

    method SweepNodes(removed: seq<Artifact>)
      modifies this`nodeStates
      ensures nodeStates == ClearAll(old(nodeStates), removed)
    {
      for i := 0 to |removed|
        invariant ClearAll(nodeStates, removed[i..]) == ClearAll(old(nodeStates), removed)
      {
        assert removed[i..][1..] == removed[i + 1..];
        var a := removed[i];
        if a.nodeId.Some? && a.nodeId.value in nodeStates {
          var n := a.nodeId.value;
          if nodeStates[n].lastArtifact == Some(a.id) {
            nodeStates := nodeStates[n := nodeStates[n].(lastArtifact := None)];
          }
        }
      }
    }

    method SweepSnapshots(p: Policy) returns (count: nat)
      modifies this`snapshots
      ensures snapshots == KeptSnapshots(p, nodeStates.Keys, old(snapshots))
      ensures count == |old(snapshots).Keys| - |snapshots.Keys|
    {
      count := 0;
      var known, todo := nodeStates.Keys, snapshots.Keys;
      while todo != {}
        invariant todo <= snapshots.Keys <= old(snapshots).Keys
        invariant forall id :: id in snapshots ==> snapshots[id] == old(snapshots)[id]
        invariant forall id :: id in old(snapshots) && id !in todo ==>
                    (id in snapshots <==> !SnapshotRemovable(p, known, old(snapshots)[id]))
        invariant count == |old(snapshots).Keys| - |snapshots.Keys|
        decreases |todo|
      {
        var id :| id in todo;
        todo := todo - {id};
        if SnapshotRemovable(p, known, snapshots[id]) {
          count := count + 1;
          assert (snapshots - {id}).Keys == snapshots.Keys - {id};
          snapshots := snapshots - {id};
        }
      }
    }

    method SweepPatches(p: Policy) returns (count: nat)
      modifies this`patches
      ensures patches == KeptPatches(p, old(patches))
      ensures count == |old(patches).Keys| - |patches.Keys|
    {
      count := 0;
      var todo := patches.Keys;
      while todo != {}
        invariant todo <= patches.Keys <= old(patches).Keys
        invariant forall id :: id in patches ==> patches[id] == old(patches)[id]
        invariant forall id :: id in old(patches) && id !in todo ==> (id in patches <==> !PatchRemovable(p, old(patches)[id]))
        invariant count == |old(patches).Keys| - |patches.Keys|
        decreases |todo|
      {
        var id :| id in todo;
        todo := todo - {id};
        if PatchRemovable(p, patches[id]) {
          count := count + 1;
          assert (patches - {id}).Keys == patches.Keys - {id};
          patches := patches - {id};
        }
      }
    }

    method CollectGarbage(p: Policy) returns (report: Report, ghost removed: seq<Artifact>)
      requires Valid()
      modifies this, index
      ensures Valid() && RemovalOrder(p, old(artifacts), removed)
      ensures State() == Apply(old(State()), Collect(p, removed))
      ensures snapshots == KeptSnapshots(p, old(nodeStates).Keys, old(snapshots))
      ensures patches == KeptPatches(p, old(patches))
      ensures report.artifactsRemoved == |removed|
      ensures report.snapshotsRemoved == |old(snapshots).Keys| - |snapshots.Keys|
      ensures report.patchesRemoved == |old(patches).Keys| - |patches.Keys|
    {
      var gone := SweepArtifacts(p);
      removed := gone;
      CollectKeepsConsistent(p, old(artifacts), old(index.Maps()), gone);
      SweepIndex(gone);
      SweepNodes(gone);
      ClearAllKeys(old(nodeStates), gone);
      var s := SweepSnapshots(p);
      var q := SweepPatches(p);
      report := Report(|gone|, s, q);
    }
  }

  lemma {:induction false} SameFieldsSameMismatch(x: Artifact, y: Artifact, batch: seq<Artifact>)
    requires Mismatch(x, y).None?
    ensures FirstMismatch(x, batch) == FirstMismatch(y, batch)
    decreases |batch|
  {
    if batch != [] {
      SameFieldsSameMismatch(x, y, batch[1..]);
    }
  }

  /** One link between two stores: fetch from the source, insert into the target. */
  method ReplicateArtifact(source: MeshStore, target: MeshStore, id: nat, now: nat) returns (r: Result<nat, MeshError>)
    requires source.Valid() && target.Valid()
    modifies target`artifacts, target`nodeStates, target.index
    ensures target.Valid()
    ensures id !in old(source.artifacts) ==> r == Err(NotFound(id)) && target.State() == old(target.State())
    ensures id in old(source.artifacts) ==> target.State() == Replicated(old(target.State()), old(source.artifacts)[id], now)
    ensures id in old(source.artifacts) ==> r == if id in old(target.artifacts) then Err(AlreadyExists(id)) else Ok(id)
  {
    if id !in source.artifacts {
      return Err(NotFound(id));
    }
    var inserted := target.InsertReplicatedArtifact(source.artifacts[id], now);
    r := if inserted.Err? then Err(inserted.error) else Ok(id);
  }
}
