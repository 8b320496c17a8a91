/** Mesh artifacts, their preparation, and the secondary index over five kinds of key. */
module MeshModel {
  import opened Sequences
  import Strings

  datatype Provenance = Provenance(
    taskId: nat, agentId: Option<string>, nodeId: Option<nat>, controllerId: Option<nat>, schemaVersion: string)

  datatype Artifact = Artifact(
    id: nat, dimensionId: nat, taskId: nat, nodeId: Option<nat>, contentType: string, tags: seq<string>,
    payload: string, provenance: Provenance, createdAtMs: nat, immutabilityTier: nat, consumed: bool)

  /** Every character is Unicode white space, so that trimming leaves nothing. */
  predicate Blank(s: string) {
    forall c :: c in s ==>
      || '\t' <= c <= '\r' || c in [' ', '\U{85}', '\U{A0}', '\U{1680}', '\U{2028}', '\U{2029}', '\U{202F}', '\U{205F}', '\U{3000}']
      || '\U{2000}' <= c <= '\U{200A}'
  }

  /** `prepare_artifact`: defaults for blank fields, provenance tied to the artifact, tags sorted without repeats. */
  function Prepare(a: Artifact, now: nat): (r: Artifact)
    ensures r.id == a.id && NoDup(r.tags) && forall t :: t in r.tags <==> t in a.tags
  {
    Strings.SortDedupSorted(a.tags);
    Strings.AscendingNoDup(Strings.SortDedup(a.tags));
    a.(contentType := if Blank(a.contentType) then "application/json" else a.contentType,
       provenance := a.provenance.(
         schemaVersion := if Blank(a.provenance.schemaVersion) then "1.0.0" else a.provenance.schemaVersion,
         taskId := a.taskId,
         nodeId := if a.provenance.nodeId.None? then a.nodeId else a.provenance.nodeId),
       createdAtMs := if a.createdAtMs == 0 then now else a.createdAtMs,
       tags := Strings.SortDedup(a.tags))
  }

  /** Joining keeps blankness, and among the ASCII characters the blank ones are tab, newline, their kin and space. */
  lemma BlankMeans(s: string, t: string, c: char)
    ensures Blank("") && (Blank(s + t) <==> Blank(s) && Blank(t))
    ensures c < '\U{80}' ==> (Blank([c]) <==> c == ' ' || c == '\t' || c == '\n' || c == '\r' || c == '\U{0B}' || c == '\U{0C}')
  {
    assert forall x :: x in s + t <==> x in s || x in t;
    assert c in [c];
  }

  /** The artifact a producer stores: what the caller gave, with the gaps filled. */
  ghost predicate PreparedFrom(a: Artifact, now: nat, r: Artifact) {
    && r.id == a.id && r.dimensionId == a.dimensionId && r.taskId == a.taskId && r.nodeId == a.nodeId
    && r.payload == a.payload && r.immutabilityTier == a.immutabilityTier
    && (Blank(a.contentType) ==> r.contentType == "application/json")
    && (!Blank(a.contentType) ==> r.contentType == a.contentType)
    && (a.createdAtMs == 0 ==> r.createdAtMs == now) && (a.createdAtMs != 0 ==> r.createdAtMs == a.createdAtMs)
    && Strings.StrictlyAscending(r.tags) && (forall t :: t in r.tags <==> t in a.tags)
    && r.provenance.taskId == a.taskId && r.provenance.agentId == a.provenance.agentId
    && r.provenance.controllerId == a.provenance.controllerId
    && (a.provenance.nodeId.Some? ==> r.provenance.nodeId == a.provenance.nodeId)
    && (a.provenance.nodeId.None? ==> r.provenance.nodeId == a.nodeId)
    && (Blank(a.provenance.schemaVersion) ==> r.provenance.schemaVersion == "1.0.0")
    && (!Blank(a.provenance.schemaVersion) ==> r.provenance.schemaVersion == a.provenance.schemaVersion)
  }

  lemma PrepareMeans(a: Artifact, now: nat)
    ensures PreparedFrom(a, now, Prepare(a, now)) && Prepare(a, now).consumed == a.consumed
  {
    Strings.SortDedupSorted(a.tags);
  }

  lemma NotBlank(s: string)
    requires s != [] && ('!' <= s[0] <= '~')
    ensures !Blank(s)
  {
    assert s[0] in s;
  }

  /** Validated production prepares twice: the second time changes nothing, except a creation time still zero. */
  lemma PrepareTwice(a: Artifact, now: nat, later: nat)
    ensures Prepare(Prepare(a, now), later) == Prepare(a, now) <==> a.createdAtMs > 0 || now > 0 || later == 0
  {
    Strings.SortDedupSorted(a.tags);
    Strings.SortDedupFixed(Strings.SortDedup(a.tags));
    NotBlank("application/json");
    NotBlank("1.0.0");
  }

  datatype IndexKey = DimensionKey(d: nat) | TaskKey(t: nat) | NodeKey(n: nat) | AgentKey(a: string) | TagKey(tag: string)

  predicate HasKey(a: Artifact, key: IndexKey) {
    match key
    case DimensionKey(d) => a.dimensionId == d
    case TaskKey(t) => a.taskId == t
    case NodeKey(n) => a.nodeId == Some(n)
    case AgentKey(g) => a.provenance.agentId == Some(g)
    case TagKey(t) => t in a.tags
  }

  /** The list for one key names exactly the stored artifacts with that key, each once: what a full scan finds. */
  ghost predicate ScanOf(artifacts: map<nat, Artifact>, key: IndexKey, ids: seq<nat>) {
    NoDup(ids) && forall id :: id in ids <==> id in artifacts && HasKey(artifacts[id], key)
  }

  function Entries<K>(m: map<K, seq<nat>>, k: K): seq<nat> {
    if k in m then m[k] else []
  }

  function Push<K>(m: map<K, seq<nat>>, k: K, id: nat): map<K, seq<nat>> {
    m[k := Entries(m, k) + [id]]
  }

  function Without(ids: seq<nat>, id: nat): (r: seq<nat>)
    ensures forall x :: x in r <==> x in ids && x != id
  {
    if ids == [] then []
    else assert ids == [ids[0]] + ids[1..]; (if ids[0] == id then [] else [ids[0]]) + Without(ids[1..], id)
  }

  lemma {:induction false} WithoutNoDup(ids: seq<nat>, id: nat)
    requires NoDup(ids)
    ensures NoDup(Without(ids, id))
  {
    if ids != [] {
      assert ids == [ids[0]] + ids[1..] && ids[0] !in ids[1..];
      WithoutNoDup(ids[1..], id);
    }
  }

  lemma {:induction false} WithoutTwice(ids: seq<nat>, id: nat)
    requires id !in ids
    ensures Without(ids, id) == ids
  {
    if ids != [] {
      assert ids == [ids[0]] + ids[1..];
      WithoutTwice(ids[1..], id);
    }
  }

  /** `retain(|x| x != id)` on the list of one key, if there is one. */
  function Retain<K>(m: map<K, seq<nat>>, k: K, id: nat): map<K, seq<nat>> {
    if k in m then m[k := Without(m[k], id)] else m
  }

  function PushTags(m: map<string, seq<nat>>, tags: seq<string>, id: nat): map<string, seq<nat>> {
    if tags == [] then m else Push(PushTags(m, tags[..|tags| - 1], id), tags[|tags| - 1], id)
  }

  function RetainTags(m: map<string, seq<nat>>, tags: seq<string>, id: nat): map<string, seq<nat>> {
    if tags == [] then m else Retain(RetainTags(m, tags[..|tags| - 1], id), tags[|tags| - 1], id)
  }

  lemma {:induction false} PushTagsEntries(m: map<string, seq<nat>>, tags: seq<string>, id: nat, t: string)
    requires NoDup(tags)
    ensures Entries(PushTags(m, tags, id), t) == Entries(m, t) + if t in tags then [id] else []
  {
    if tags != [] {
      var init, last := tags[..|tags| - 1], tags[|tags| - 1];
      PushTagsEntries(m, init, id, t);
      assert tags == init + [last] && last !in init;
    }
  }

  lemma {:induction false} RetainTagsEntries(m: map<string, seq<nat>>, tags: seq<string>, id: nat, t: string)
    ensures Entries(RetainTags(m, tags, id), t) == if t in tags then Without(Entries(m, t), id) else Entries(m, t)
  {
    if tags != [] {
      var init, last := tags[..|tags| - 1], tags[|tags| - 1];
      RetainTagsEntries(m, init, id, t);
      assert tags == init + [last];
      WithoutTwice(Without(Entries(m, t), id), id);
    }
  }

  /** The value of the five maps. */
  datatype IndexMaps = IndexMaps(
    byDimension: map<nat, seq<nat>>, byTask: map<nat, seq<nat>>, byNode: map<nat, seq<nat>>,
    byAgent: map<string, seq<nat>>, byTag: map<string, seq<nat>>)

  function Lookup(m: IndexMaps, key: IndexKey): seq<nat> {
    match key
    case DimensionKey(d) => Entries(m.byDimension, d)
    case TaskKey(t) => Entries(m.byTask, t)
    case NodeKey(n) => Entries(m.byNode, n)
    case AgentKey(a) => Entries(m.byAgent, a)
    case TagKey(t) => Entries(m.byTag, t)
  }

  function Inserted(m: IndexMaps, a: Artifact): IndexMaps {
    IndexMaps(
      Push(m.byDimension, a.dimensionId, a.id),
      Push(m.byTask, a.taskId, a.id),
      if a.nodeId.Some? then Push(m.byNode, a.nodeId.value, a.id) else m.byNode,
      if a.provenance.agentId.Some? then Push(m.byAgent, a.provenance.agentId.value, a.id) else m.byAgent,
      PushTags(m.byTag, a.tags, a.id))
  }

  function Deleted(m: IndexMaps, a: Artifact): IndexMaps {
    IndexMaps(
      Retain(m.byDimension, a.dimensionId, a.id),
      Retain(m.byTask, a.taskId, a.id),
      if a.nodeId.Some? then Retain(m.byNode, a.nodeId.value, a.id) else m.byNode,
      if a.provenance.agentId.Some? then Retain(m.byAgent, a.provenance.agentId.value, a.id) else m.byAgent,
      RetainTags(m.byTag, a.tags, a.id))
  }

  lemma InsertedLookup(m: IndexMaps, a: Artifact, key: IndexKey)
    requires NoDup(a.tags)
    ensures Lookup(Inserted(m, a), key) == Lookup(m, key) + if HasKey(a, key) then [a.id] else []
  {
    if key.TagKey? {
      PushTagsEntries(m.byTag, a.tags, a.id, key.tag);
    }
  }

  lemma DeletedLookup(m: IndexMaps, a: Artifact, key: IndexKey)
    ensures Lookup(Deleted(m, a), key) == if HasKey(a, key) then Without(Lookup(m, key), a.id) else Lookup(m, key)
  {
    if key.TagKey? {
      RetainTagsEntries(m.byTag, a.tags, a.id, key.tag);
    }
  }

  // ----- index and primary map together -----

  ghost predicate Stored(artifacts: map<nat, Artifact>) {
    forall id :: id in artifacts ==> artifacts[id].id == id && NoDup(artifacts[id].tags)
  }

  /** All five indexes answer every query as a full scan of the primary map would. */
  ghost predicate Consistent(artifacts: map<nat, Artifact>, m: IndexMaps) {
    Stored(artifacts) && forall key :: ScanOf(artifacts, key, Lookup(m, key))
  }

  /** Forget an artifact: what overwriting and garbage collection do to the index first. */
  lemma DeleteKeepsConsistent(artifacts: map<nat, Artifact>, m: IndexMaps, id: nat)
    requires Consistent(artifacts, m) && id in artifacts
    ensures Consistent(artifacts - {id}, Deleted(m, artifacts[id]))
  {
    var a, rest, m' := artifacts[id], artifacts - {id}, Deleted(m, artifacts[id]);
    forall key
      ensures ScanOf(rest, key, Lookup(m', key))
    {
      assert ScanOf(artifacts, key, Lookup(m, key));
      DeletedLookup(m, a, key);
      WithoutNoDup(Lookup(m, key), id);
    }
  }

  lemma InsertKeepsConsistent(artifacts: map<nat, Artifact>, m: IndexMaps, a: Artifact)
    requires Consistent(artifacts, m) && a.id !in artifacts && NoDup(a.tags)
    ensures Consistent(artifacts[a.id := a], Inserted(m, a))
  {
    var all, m' := artifacts[a.id := a], Inserted(m, a);
    forall key
      ensures ScanOf(all, key, Lookup(m', key))
    {
      assert ScanOf(artifacts, key, Lookup(m, key));
      InsertedLookup(m, a, key);
      var ids := Lookup(m, key);
      assert forall id :: id in Lookup(m', key) <==> id in ids || (HasKey(a, key) && id == a.id);
    }
  }

  /** `r` is `s` without the one occurrence of `x`, if it has one; the rest stays in order. */
  ghost predicate Dropped(s: seq<nat>, x: nat, r: seq<nat>) {
    if x in s then exists i :: 0 <= i < |s| && s[i] == x && r == s[..i] + s[i + 1..] else r == s
  }

  lemma {:induction false} WithoutDrops(ids: seq<nat>, id: nat)
    requires NoDup(ids)
    ensures Dropped(ids, id, Without(ids, id))
  {
    if ids != [] {
      var rest := ids[1..];
      assert ids == [ids[0]] + rest && ids[0] !in rest;
      WithoutDrops(rest, id);
      if ids[0] == id {
        WithoutTwice(rest, id);
        FirstDropped(id, rest);
      } else {
        LaterDropped(ids[0], rest, id, Without(rest, id));
      }
    }
  }

  lemma FirstDropped(x: nat, rest: seq<nat>)
    ensures Dropped([x] + rest, x, rest)
  {
    var s := [x] + rest;
    assert s[..0] + s[1..] == rest;
  }

  lemma LaterDropped(y: nat, rest: seq<nat>, x: nat, r: seq<nat>)
    requires x != y && Dropped(rest, x, r)
    ensures Dropped([y] + rest, x, [y] + r)
  {
    var s := [y] + rest;
    if x in rest {
      var i :| 0 <= i < |rest| && rest[i] == x && r == rest[..i] + rest[i + 1..];
      assert s[i + 1] == x && s[..i + 1] + s[i + 2..] == [y] + r;
    }
  }

  /** Forgetting an artifact takes it out of every list and leaves the others in order. */
  lemma DeletedFromLists(artifacts: map<nat, Artifact>, m: IndexMaps, id: nat, key: IndexKey)
    requires Consistent(artifacts, m) && id in artifacts
    ensures Dropped(Lookup(m, key), id, Lookup(Deleted(m, artifacts[id]), key))
  {
    assert ScanOf(artifacts, key, Lookup(m, key));
    DeletedLookup(m, artifacts[id], key);
    WithoutDrops(Lookup(m, key), id);
  }

  /** Insert or overwrite, as `produce` does under both locks. */
  function Put(m: IndexMaps, artifacts: map<nat, Artifact>, a: Artifact): IndexMaps {
    Inserted(if a.id in artifacts then Deleted(m, artifacts[a.id]) else m, a)
  }

  lemma PutKeepsConsistent(artifacts: map<nat, Artifact>, m: IndexMaps, a: Artifact)
    requires Consistent(artifacts, m) && NoDup(a.tags)
    ensures Consistent(artifacts[a.id := a], Put(m, artifacts, a))
  {
    if a.id in artifacts {
      DeleteKeepsConsistent(artifacts, m, a.id);
      InsertKeepsConsistent(artifacts - {a.id}, Deleted(m, artifacts[a.id]), a);
      assert (artifacts - {a.id})[a.id := a] == artifacts[a.id := a];
    } else {
      InsertKeepsConsistent(artifacts, m, a);
    }
  }

  /** A list is in the order in which its artifacts were last stored: the newest comes last, the others keep their order. */
  lemma NewestComesLast(artifacts: map<nat, Artifact>, m: IndexMaps, a: Artifact, key: IndexKey)
    requires Consistent(artifacts, m) && NoDup(a.tags)
    ensures exists others :: Dropped(Lookup(m, key), a.id, others)
                             && Lookup(Put(m, artifacts, a), key) == others + if HasKey(a, key) then [a.id] else []
  {
    var m' := if a.id in artifacts then Deleted(m, artifacts[a.id]) else m;
    InsertedLookup(m', a, key);
    if a.id in artifacts {
      DeletedFromLists(artifacts, m, a.id, key);
    } else {
      assert ScanOf(artifacts, key, Lookup(m, key));
    }
    assert Dropped(Lookup(m, key), a.id, Lookup(m', key));
  }
}
