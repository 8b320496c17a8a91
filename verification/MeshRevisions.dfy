/** Per-node revisions: optimistic patches, replication, and every interleaving of their lock-atomic steps. */
module MeshRevisions {
  import opened Sequences

  const MAX_REVISION: nat := 0xFFFF_FFFF_FFFF_FFFF

  type Revision = r: nat | r <= MAX_REVISION

  datatype NodeState = NodeState(
    nodeId: nat, revision: Revision, lastArtifact: Option<nat>, lastSnapshot: Option<nat>, lastPatch: Option<nat>, updatedAtMs: nat)

  type States = map<nat, NodeState>

  datatype Strategy = Reject | LastWriteWins

  /** What `advance_revision` reports about a patch it accepted. */
  datatype Advance = Advance(base: Revision, new_: Revision, conflict: bool)

  datatype Conflict = ConcurrentEdit(node: nat, expected: Revision, current: Revision)

  function NewNode(n: nat, now: nat): NodeState {
    NodeState(n, 0, None, None, None, now)
  }

  /** `entry(node).or_insert_with(...)` */
  function StateOf(states: States, n: nat, now: nat): NodeState {
    if n in states then states[n] else NewNode(n, now)
  }

  function CurrentRevision(states: States, n: nat): Revision {
    if n in states then states[n].revision else 0
  }

  function Bump(r: Revision): Revision {
    if r < MAX_REVISION then r + 1 else r
  }

  function AdvanceRevision(states: States, n: nat, expected: Revision, strategy: Strategy, patch: nat, now: nat)
    : (States, Result<Advance, Conflict>)
  {
    var st := StateOf(states, n, now);
    var conflict := st.revision != expected;
    if conflict && strategy == Reject then (states[n := st], Err(ConcurrentEdit(n, expected, st.revision))) else
    var st' := st.(revision := Bump(st.revision), lastPatch := Some(patch), updatedAtMs := now);
    (states[n := st'], Ok(Advance(st.revision, st'.revision, conflict)))
  }

  function TouchArtifact(states: States, n: nat, id: nat, now: nat): States {
    states[n := StateOf(states, n, now).(lastArtifact := Some(id), updatedAtMs := now)]
  }

  function TouchSnapshot(states: States, n: nat, id: nat, now: nat): States {
    states[n := StateOf(states, n, now).(lastSnapshot := Some(id), updatedAtMs := now)]
  }

  /** A replicated patch or snapshot only ever raises the revision. */
  function DeliverPatch(states: States, n: nat, id: nat, revision: Revision, now: nat): States {
    var st := StateOf(states, n, now);
    states[n := (if revision >= st.revision then st.(lastPatch := Some(id), revision := revision) else st).(updatedAtMs := now)]
  }

  function DeliverSnapshot(states: States, n: nat, id: nat, revision: Revision, now: nat): States {
    var st := StateOf(states, n, now);
    states[n := (if revision >= st.revision then st.(lastSnapshot := Some(id), revision := revision) else st).(updatedAtMs := now)]
  }

  // ----- what each step means for a node -----

  /** One above, except at the greatest 64-bit number, which stays. */
  predicate OneUp(base: Revision, new_: Revision) {
    if base == 0xFFFF_FFFF_FFFF_FFFF then new_ == base else new_ == base + 1
  }

  /** No node other than `n` changes. */
  ghost predicate Only(before: States, after: States, n: nat) {
    after.Keys == before.Keys + {n} && forall m :: m in before && m != n ==> after[m] == before[m]
  }

  /** What was last known about a node: nothing at all for a new one. */
  ghost predicate Knows(states: States, n: nat, revision: Revision, artifact: Option<nat>, snapshot: Option<nat>, patch: Option<nat>) {
    if n in states
    then && states[n].revision == revision && states[n].lastArtifact == artifact && states[n].lastSnapshot == snapshot
         && states[n].lastPatch == patch
    else revision == 0 && artifact == None && snapshot == None && patch == None
  }

  /** Keys are the nodes' own ids. */
  ghost predicate NamesItself(states: States, n: nat) {
    n in states ==> states[n].nodeId == n
  }

  /** A patch is refused exactly on a mismatch under Reject; otherwise the revision goes one up and the patch is noted. */
  lemma AdvanceMeans(states: States, n: nat, expected: Revision, strategy: Strategy, patch: nat, now: nat)
    requires NamesItself(states, n)
    ensures var (after, r) := AdvanceRevision(states, n, expected, strategy, patch, now);
            && Only(states, after, n) && after[n].nodeId == n
            && forall rev, a, s, p :: Knows(states, n, rev, a, s, p) ==>
                 if rev != expected && strategy == Reject
                 then r == Err(ConcurrentEdit(n, expected, rev)) && Knows(after, n, rev, a, s, p)
                 else && r.Ok? && r.value.base == rev && OneUp(rev, r.value.new_) && (r.value.conflict <==> rev != expected)
                      && Knows(after, n, r.value.new_, a, s, Some(patch)) && after[n].updatedAtMs == now
  {
  }

  lemma TouchMeans(states: States, n: nat, id: nat, now: nat)
    requires NamesItself(states, n)
    ensures var a', s' := TouchArtifact(states, n, id, now), TouchSnapshot(states, n, id, now);
            && Only(states, a', n) && a'[n].updatedAtMs == now && a'[n].nodeId == n
            && Only(states, s', n) && s'[n].updatedAtMs == now && s'[n].nodeId == n
            && forall rev, a, s, p :: Knows(states, n, rev, a, s, p) ==>
                 Knows(a', n, rev, Some(id), s, p) && Knows(s', n, rev, a, Some(id), p)
  {
  }

  /** A delivery takes effect unless the node is already further; the time is noted in any case. */
  lemma DeliverMeans(states: States, n: nat, id: nat, revision: Revision, now: nat)
    requires NamesItself(states, n)
    ensures var p', s' := DeliverPatch(states, n, id, revision, now), DeliverSnapshot(states, n, id, revision, now);
            && Only(states, p', n) && p'[n].updatedAtMs == now && p'[n].nodeId == n
            && Only(states, s', n) && s'[n].updatedAtMs == now && s'[n].nodeId == n
            && forall rev, a, s, p :: Knows(states, n, rev, a, s, p) ==>
                 if revision < rev then Knows(p', n, rev, a, s, p) && Knows(s', n, rev, a, s, p)
                 else Knows(p', n, revision, a, s, Some(id)) && Knows(s', n, revision, a, Some(id), p)
  {
  }

  // ----- interleavings -----

  /** One accepted local patch: the revision it expected, the one it found and the one it made. */
  datatype LogEntry = LogEntry(node: nat, expected: Revision, base: Revision, new_: Revision, conflict: bool, strategy: Strategy)

  datatype Read = Read(node: nat, seen: Revision)

  /** `pending` holds, per caller, the revision read by a `patch` call that has not advanced yet. */
  datatype System = System(states: States, pending: map<nat, Read>, log: seq<LogEntry>)

  datatype Action =
    | ReadCurrent(caller: nat, node: nat)
    | AdvancePatch(caller: nat, patch: nat, now: nat)
    | PatchWithRevision(node: nat, expected: Revision, strategy: Strategy, patch: nat, now: nat)
    | ReplicatePatch(node: nat, id: nat, revision: Revision, now: nat)
    | ReplicateSnapshot(node: nat, id: nat, revision: Revision, now: nat)
    | Touch(node: nat, id: nat, now: nat)

  function Logged(y: System, n: nat, expected: Revision, strategy: Strategy, patch: nat, now: nat): System {
    var (states, r) := AdvanceRevision(y.states, n, expected, strategy, patch, now);
    y.(states := states,
       log := if r.Err? then y.log
              else y.log + [LogEntry(n, expected, r.value.base, r.value.new_, r.value.conflict, strategy)])
  }

  function Next(y: System, a: Action): System {
    match a
    case ReadCurrent(c, n) => y.(pending := y.pending[c := Read(n, CurrentRevision(y.states, n))])
    case AdvancePatch(c, patch, now) =>
      if c !in y.pending then y else
      var r := y.pending[c];
      Logged(y, r.node, r.seen, LastWriteWins, patch, now).(pending := y.pending - {c})
    case PatchWithRevision(n, expected, strategy, patch, now) => Logged(y, n, expected, strategy, patch, now)
    case ReplicatePatch(n, id, revision, now) => y.(states := DeliverPatch(y.states, n, id, revision, now))
    case ReplicateSnapshot(n, id, revision, now) => y.(states := DeliverSnapshot(y.states, n, id, revision, now))
    case Touch(n, id, now) => y.(states := TouchArtifact(y.states, n, id, now))
  }

  function Run(y: System, actions: seq<Action>): System
    decreases |actions|
  {
    if actions == [] then y else Run(Next(y, actions[0]), actions[1..])
  }

  /** Log entries say what happened, and later patches of a node start where earlier ones left it or above. */
  ghost predicate LogOk(y: System) {
    && (forall k :: 0 <= k < |y.log| ==>
          var e := y.log[k];
          && OneUp(e.base, e.new_) && (e.conflict <==> e.base != e.expected)
          && (e.strategy == Reject ==> e.base == e.expected)
          && e.new_ <= CurrentRevision(y.states, e.node))
    && (forall j, k :: 0 <= j < k < |y.log| && y.log[j].node == y.log[k].node ==> y.log[j].new_ <= y.log[k].base)
  }

  /** A revision read by a pending call is at most the present one. */
  ghost predicate PendingOk(y: System) {
    forall c :: c in y.pending ==> y.pending[c].seen <= CurrentRevision(y.states, y.pending[c].node)
  }

  lemma NextIsMonotone(y: System, a: Action, n: nat)
    ensures CurrentRevision(y.states, n) <= CurrentRevision(Next(y, a).states, n)
  {
  }

  lemma NextKeepsPending(y: System, a: Action)
    requires PendingOk(y)
    ensures PendingOk(Next(y, a))
  {
    var z := Next(y, a);
    forall c | c in z.pending
      ensures z.pending[c].seen <= CurrentRevision(z.states, z.pending[c].node)
    {
      NextIsMonotone(y, a, z.pending[c].node);
    }
  }

  lemma NextKeepsLog(y: System, a: Action)
    requires LogOk(y) && PendingOk(y)
    ensures LogOk(Next(y, a)) && PendingOk(Next(y, a)) && y.log <= Next(y, a).log
  {
    NextKeepsPending(y, a);
    forall n: nat
      ensures CurrentRevision(y.states, n) <= CurrentRevision(Next(y, a).states, n)
    {
      NextIsMonotone(y, a, n);
    }
  }

  /**
    * Whatever the interleaving: revisions never decrease, every accepted local patch moves its node from its
    * base to base + 1 (or stays at saturation), is flagged exactly when it found another revision than it
    * expected, is never a mismatch under Reject, and patches of a node get distinct revisions below saturation.
    */
  lemma {:induction false} EveryInterleaving(y: System, actions: seq<Action>, n: nat)
    requires LogOk(y) && PendingOk(y)
    ensures var z := Run(y, actions);
            && LogOk(z) && PendingOk(z) && y.log <= z.log
            && CurrentRevision(y.states, n) <= CurrentRevision(z.states, n)
            && (forall j, k :: 0 <= j < k < |z.log| && z.log[j].node == z.log[k].node && z.log[k].base < MAX_REVISION
                  ==> z.log[j].new_ < z.log[k].new_)
    decreases |actions|
  {
    if actions != [] {
      NextIsMonotone(y, actions[0], n);
      NextKeepsLog(y, actions[0]);
      EveryInterleaving(Next(y, actions[0]), actions[1..], n);
    }
  }

  /** Caller `c` neither reads again nor advances in these actions. */
  ghost predicate LeavesCaller(actions: seq<Action>, c: nat) {
    forall i :: 0 <= i < |actions| ==>
      (actions[i].ReadCurrent? || actions[i].AdvancePatch?) ==> actions[i].caller != c
  }

  lemma {:induction false} OthersKeepRead(y: System, actions: seq<Action>, c: nat)
    requires c in y.pending && LeavesCaller(actions, c)
    ensures c in Run(y, actions).pending && Run(y, actions).pending[c] == y.pending[c]
    decreases |actions|
  {
    if actions != [] {
      assert LeavesCaller(actions[1..], c) by {
        assert forall i :: 0 <= i < |actions[1..]| ==> actions[1..][i] == actions[i + 1];
      }
      OthersKeepRead(Next(y, actions[0]), actions[1..], c);
    }
  }

  /**
    * A `patch` call, split into its read and its advance with arbitrary steps of others between them, is always
    * accepted, and is flagged as a conflict exactly when those steps raised the node's revision.
    */
  lemma PatchConflictsExactlyWhenOvertaken(y: System, c: nat, n: nat, others: seq<Action>, patch: nat, now: nat)
    requires LeavesCaller(others, c)
    ensures var y1 := Run(Next(y, ReadCurrent(c, n)), others);
            var z := Next(y1, AdvancePatch(c, patch, now));
            && |z.log| == |y1.log| + 1
            && var e := z.log[|y1.log|];
            && e.node == n && e.base == CurrentRevision(y1.states, n) && OneUp(e.base, e.new_)
            && CurrentRevision(z.states, n) == e.new_
            && (e.conflict <==> CurrentRevision(y.states, n) < CurrentRevision(y1.states, n))
  {
    var y0 := Next(y, ReadCurrent(c, n));
    OthersKeepRead(y0, others, c);
    RunIsMonotone(y0, others, n);
  }

  lemma {:induction false} RunIsMonotone(y: System, actions: seq<Action>, n: nat)
    ensures CurrentRevision(y.states, n) <= CurrentRevision(Run(y, actions).states, n)
    decreases |actions|
  {
    if actions != [] {
      NextIsMonotone(y, actions[0], n);
      RunIsMonotone(Next(y, actions[0]), actions[1..], n);
    }
  }

  /** A patch with an expected revision: refused and forgotten on a mismatch under Reject, otherwise logged as it happened. */
  lemma PatchStepMeans(y: System, n: nat, expected: Revision, strategy: Strategy, patch: nat, now: nat)
    ensures var z, rev := Next(y, PatchWithRevision(n, expected, strategy, patch, now)), CurrentRevision(y.states, n);
            && z.pending == y.pending && n in z.states
            && var new_ := z.states[n].revision;
               if rev != expected && strategy == Reject then z.log == y.log && new_ == rev
               else && z.log == y.log + [LogEntry(n, expected, rev, new_, rev != expected, strategy)]
                    && OneUp(rev, new_) && z.states[n].lastPatch == Some(patch)
  {
  }

  /** Storing an artifact notes it on its node and leaves revisions, readers and the log alone. */
  lemma TouchStepMeans(y: System, n: nat, id: nat, now: nat)
    ensures var z := Next(y, Touch(n, id, now));
            && z == y.(states := z.states) && n in z.states && z.states[n].lastArtifact == Some(id)
            && forall m :: CurrentRevision(z.states, m) == CurrentRevision(y.states, m)
  {
  }

  // ----- replication -----

  /** The revision a delivery carries for node `n`, if it is a delivery for that node. */
  function Carries(a: Action, n: nat): Option<Revision> {
    match a
    case ReplicatePatch(m, _, r, _) => if m == n then Some(r) else None
    case ReplicateSnapshot(m, _, r, _) => if m == n then Some(r) else None
    case _ => None
  }

  ghost predicate Deliveries(actions: seq<Action>) {
    forall a :: a in actions ==> a.ReplicatePatch? || a.ReplicateSnapshot?
  }

  /** After any deliveries the revision is the greatest of the delivered ones and the original one. */
  lemma {:induction false} DeliveriesLeaveMaximum(y: System, actions: seq<Action>, n: nat)
    requires Deliveries(actions)
    ensures var r := CurrentRevision(Run(y, actions).states, n);
            && CurrentRevision(y.states, n) <= r
            && (forall a :: a in actions && Carries(a, n).Some? ==> Carries(a, n).value <= r)
            && (r == CurrentRevision(y.states, n) || exists a :: a in actions && Carries(a, n) == Some(r))
    decreases |actions|
  {
    if actions != [] {
      assert actions[0] in actions && forall a :: a in actions[1..] ==> a in actions;
      DeliveriesLeaveMaximum(Next(y, actions[0]), actions[1..], n);
      assert forall a :: a in actions ==> a == actions[0] || a in actions[1..];
    }
  }

  /** Replicated patches and snapshots may arrive in any order, repeated or not. */
  lemma DeliveryOrderIrrelevant(y: System, actions: seq<Action>, actions': seq<Action>, n: nat)
    requires Deliveries(actions) && Deliveries(actions') && ToSet(actions) == ToSet(actions')
    ensures CurrentRevision(Run(y, actions).states, n) == CurrentRevision(Run(y, actions').states, n)
  {
    DeliveriesLeaveMaximum(y, actions, n);
    DeliveriesLeaveMaximum(y, actions', n);
    assert forall a :: a in actions <==> a in ToSet(actions);
    assert forall a :: a in actions' <==> a in ToSet(actions');
  }
}
