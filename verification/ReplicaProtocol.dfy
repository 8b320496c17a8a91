/** Replica creation and destruction split at every point where the table lock is released. */
module ReplicaProtocol {
  import opened Sequences

  const REPLICA_MAX: nat := 32

  datatype Lifecycle = Free | Created | Running | Draining | Destroyed

  datatype Opts = Opts(dimension: nat, owner: nat, arenaCap: nat, maxTasks: nat)

  /** Arenas and schedulers are named by fresh numbers, so that reuse of memory is not confused with ownership. */
  datatype Slot = Slot(id: nat, state: Lifecycle, opts: Opts, arena: Option<nat>, scheduler: Option<nat>)

  predicate Live(s: Slot) {
    s.state != Free && s.state != Destroyed
  }

  /** The first live slot with this id, at or after `i`. */
  function FindFrom(slots: seq<Slot>, id: nat, i: nat): (r: Option<nat>)
    requires i <= |slots|
    ensures r.Some? ==> i <= r.value < |slots| && slots[r.value].id == id && Live(slots[r.value])
    ensures r.None? ==> forall k :: i <= k < |slots| && Live(slots[k]) ==> slots[k].id != id
    decreases |slots| - i
  {
    if i == |slots| then None
    else if slots[i].id == id && Live(slots[i]) then Some(i)
    else FindFrom(slots, id, i + 1)
  }

  /** The first slot that is not live, at or after `i`. */
  function FreeFrom(slots: seq<Slot>, i: nat): (r: Option<nat>)
    requires i <= |slots|
    ensures r.Some? ==> i <= r.value < |slots| && !Live(slots[r.value]) && forall k :: i <= k < r.value ==> Live(slots[k])
    ensures r.None? ==> forall k :: i <= k < |slots| ==> Live(slots[k])
    decreases |slots| - i
  {
    if i == |slots| then None
    else if !Live(slots[i]) then Some(i)
    else FreeFrom(slots, i + 1)
  }

  // ----- the critical sections as functions of the table -----

  datatype Table = Table(slots: seq<Slot>, nextId: nat)

  /** The slot a committing creation uses: the one it chose if still free, otherwise another free one. */
  function CommitSlot(slots: seq<Slot>, chosen: nat): Option<nat>
    requires chosen < |slots|
  {
    if Live(slots[chosen]) then FreeFrom(slots, 0) else Some(chosen)
  }

  function Commit(t: Table, i: nat, opts: Opts, arena: nat, scheduler: nat): Table
    requires i < |t.slots|
  {
    Table(t.slots[i := Slot(t.nextId, Created, opts, Some(arena), Some(scheduler))], t.nextId + 1)
  }

  function Take(t: Table, i: nat): Table
    requires i < |t.slots|
  {
    t.(slots := t.slots[i := t.slots[i].(state := Draining, scheduler := None, arena := None)])
  }

  function Retire(t: Table, id: nat): Table {
    var i := FindFrom(t.slots, id, 0);
    if i.None? then t else t.(slots := t.slots[i.value := t.slots[i.value].(state := Destroyed)])
  }

  /** The state part of a submission. */
  function Start(t: Table, id: nat): Table {
    var i := FindFrom(t.slots, id, 0);
    if i.None? || t.slots[i.value].state == Draining then t
    else t.(slots := t.slots[i.value := t.slots[i.value].(state := Running)])
  }

  // ----- threads between their critical sections -----

  datatype Thread =
    | Chose(slot: nat, opts: Opts)                                       // slot seen free, nothing allocated
    | HasArena(slot: nat, opts: Opts, arena: nat)                        // scheduler not yet created
    | HasBoth(slot: nat, opts: Opts, arena: nat, scheduler: nat)         // about to take the lock again
    | Discarding(arena: nat, scheduler: nat)                             // no slot left: give both back
    | Took(id: nat, takenArena: Option<nat>, takenScheduler: Option<nat>)  // destroying what the slot held
    | Finishing(id: nat)                                                 // about to mark the slot destroyed

  /** The id a creating call hands to its caller, with what the caller asked for and what was made. */
  datatype Made = Made(call: nat, id: nat, opts: Opts, arena: nat, scheduler: nat)

  /** Threads inside a call, the number of the next resource, the destroyed resources and the successful creations. */
  datatype System = System(table: Table, threads: map<nat, Thread>, next: nat, gone: seq<nat>, made: seq<Made>)

  datatype Action =
    | CreateCheck(t: nat, opts: Opts)
    | CreateArena(t: nat, ok: bool)
    | CreateScheduler(t: nat, ok: bool)
    | CreateCommit(t: nat)
    | Discard(t: nat)
    | DestroyTake(t: nat, id: nat)
    | DestroyResources(t: nat)
    | DestroyFinish(t: nat)
    | SubmitState(id: nat)

  function Listed(r: Option<nat>): seq<nat> {
    if r.Some? then [r.value] else []
  }

  /** One atomic step; an action its thread is not ready for does nothing. */
  function Next(y: System, a: Action): (z: System)
    requires |y.table.slots| == REPLICA_MAX
    requires forall t :: t in y.threads && y.threads[t].HasBoth? ==> y.threads[t].slot < REPLICA_MAX
    ensures |z.table.slots| == REPLICA_MAX
  {
    match a
    case CreateCheck(t, opts) =>
      var free := FreeFrom(y.table.slots, 0);
      if t in y.threads || free.None? then y else y.(threads := y.threads[t := Chose(free.value, opts)])
    case CreateArena(t, ok) =>
      if t !in y.threads || !y.threads[t].Chose? then y else
      var c := y.threads[t];
      if ok then y.(threads := y.threads[t := HasArena(c.slot, c.opts, y.next)], next := y.next + 1)
      else y.(threads := y.threads - {t})
    case CreateScheduler(t, ok) =>
      if t !in y.threads || !y.threads[t].HasArena? then y else
      var c := y.threads[t];
      if ok then y.(threads := y.threads[t := HasBoth(c.slot, c.opts, c.arena, y.next)], next := y.next + 1)
      else y.(threads := y.threads - {t}, gone := y.gone + [c.arena])
    case CreateCommit(t) =>
      if t !in y.threads || !y.threads[t].HasBoth? then y else
      var c := y.threads[t];
      var i := CommitSlot(y.table.slots, c.slot);
      if i.None? then y.(threads := y.threads[t := Discarding(c.arena, c.scheduler)])
      else y.(table := Commit(y.table, i.value, c.opts, c.arena, c.scheduler), threads := y.threads - {t},
              made := y.made + [Made(t, y.table.nextId, c.opts, c.arena, c.scheduler)])
    case Discard(t) =>
      if t !in y.threads || !y.threads[t].Discarding? then y else
      var c := y.threads[t];
      y.(threads := y.threads - {t}, gone := y.gone + [c.scheduler, c.arena])
    case DestroyTake(t, id) =>
      var i := FindFrom(y.table.slots, id, 0);
      if t in y.threads || id == 0 || i.None? then y else
      var s := y.table.slots[i.value];
      y.(table := Take(y.table, i.value), threads := y.threads[t := Took(id, s.arena, s.scheduler)])
    case DestroyResources(t) =>
      if t !in y.threads || !y.threads[t].Took? then y else
      var c := y.threads[t];
      y.(threads := y.threads[t := Finishing(c.id)], gone := y.gone + Listed(c.takenScheduler) + Listed(c.takenArena))
    case DestroyFinish(t) =>
      if t !in y.threads || !y.threads[t].Finishing? then y else
      y.(table := Retire(y.table, y.threads[t].id), threads := y.threads - {t})
    case SubmitState(id) => y.(table := Start(y.table, id))
  }

  // ----- ownership -----

  datatype Place = SlotArena(i: nat) | SlotScheduler(i: nat) | CallArena(t: nat) | CallScheduler(t: nat) | GoneAt(k: nat)

  function ArenaOf(c: Thread): Option<nat> {
    match c
    case HasArena(_, _, a) => Some(a)
    case HasBoth(_, _, a, _) => Some(a)
    case Discarding(a, _) => Some(a)
    case Took(_, a, _) => a
    case _ => None
  }

  function SchedulerOf(c: Thread): Option<nat> {
    match c
    case HasBoth(_, _, _, s) => Some(s)
    case Discarding(_, s) => Some(s)
    case Took(_, _, s) => s
    case _ => None
  }

  predicate Holds(y: System, p: Place, r: nat) {
    match p
    case SlotArena(i) => i < |y.table.slots| && y.table.slots[i].arena == Some(r)
    case SlotScheduler(i) => i < |y.table.slots| && y.table.slots[i].scheduler == Some(r)
    case CallArena(t) => t in y.threads && ArenaOf(y.threads[t]) == Some(r)
    case CallScheduler(t) => t in y.threads && SchedulerOf(y.threads[t]) == Some(r)
    case GoneAt(k) => k < |y.gone| && y.gone[k] == r
  }

  ghost predicate OwnedOnce(y: System, r: nat) {
    exists p :: Holds(y, p, r) && forall q :: Holds(y, q, r) ==> q == p
  }

  /** Every resource ever created is in exactly one place; a place in the log is one destruction. */
  ghost predicate ExactOwnership(y: System) {
    && (forall r: nat :: r < y.next ==> OwnedOnce(y, r))
    && (forall r: nat, p :: Holds(y, p, r) ==> r < y.next)
  }

  /** Slots hold both resources while created or running, and none otherwise. */
  predicate SlotOk(s: Slot, nextId: nat) {
    && (s.state == Created || s.state == Running ==> s.arena.Some? && s.scheduler.Some?)
    && (s.state == Free || s.state == Draining || s.state == Destroyed ==> s.arena.None? && s.scheduler.None?)
    && (Live(s) ==> 0 < s.id < nextId)
  }

  ghost predicate SlotsOk(t: Table) {
    && |t.slots| == REPLICA_MAX
    && (forall i :: 0 <= i < |t.slots| ==> SlotOk(t.slots[i], t.nextId))
    && (forall i, j :: 0 <= i < j < |t.slots| && Live(t.slots[i]) && Live(t.slots[j]) ==> t.slots[i].id != t.slots[j].id)
    && 0 < t.nextId
  }

  predicate Destroying(c: Thread, id: nat) {
    (c.Took? || c.Finishing?) && c.id == id
  }

  ghost predicate SomeoneDestroys(y: System, id: nat) {
    exists t :: t in y.threads && Destroying(y.threads[t], id)
  }

  /** An id whose destruction has begun: it is never given out again, and its slot, if still live, is draining. */
  ghost predicate Doomed(t: Table, id: nat) {
    id < t.nextId && forall i :: 0 <= i < |t.slots| && Live(t.slots[i]) && t.slots[i].id == id ==> t.slots[i].state == Draining
  }

  ghost predicate CallsOk(y: System) {
    && (forall t :: t in y.threads && (y.threads[t].Chose? || y.threads[t].HasArena? || y.threads[t].HasBoth?)
          ==> y.threads[t].slot < REPLICA_MAX)
    && (forall t :: t in y.threads && (y.threads[t].Took? || y.threads[t].Finishing?) ==> Doomed(y.table, y.threads[t].id))
  }

  ghost predicate DrainsOk(y: System) {
    forall i :: 0 <= i < |y.table.slots| && y.table.slots[i].state == Draining ==> SomeoneDestroys(y, y.table.slots[i].id)
  }

  ghost predicate ThreadsOk(y: System) {
    CallsOk(y) && DrainsOk(y)
  }

  ghost predicate Inv(y: System) {
    SlotsOk(y.table) && ThreadsOk(y) && ExactOwnership(y)
  }

  lemma CommitKeepsSlots(t: Table, i: nat, opts: Opts, arena: nat, scheduler: nat)
    requires SlotsOk(t) && i < |t.slots| && !Live(t.slots[i])
    ensures SlotsOk(Commit(t, i, opts, arena, scheduler))
  {
  }

  lemma TakeKeepsSlots(t: Table, i: nat)
    requires SlotsOk(t) && i < |t.slots| && Live(t.slots[i])
    ensures SlotsOk(Take(t, i))
  {
  }

  /** Retiring the slot with an id that is being destroyed. */
  lemma RetireKeepsSlots(t: Table, id: nat)
    requires SlotsOk(t) && Doomed(t, id)
    ensures SlotsOk(Retire(t, id))
  {
  }

  lemma StartKeepsSlots(t: Table, id: nat)
    requires SlotsOk(t)
    ensures SlotsOk(Start(t, id))
  {
  }

  lemma NextKeepsSlots(y: System, a: Action)
    requires SlotsOk(y.table) && ThreadsOk(y)
    ensures SlotsOk(Next(y, a).table)
  {
    match a
    case CreateCommit(t) =>
      if t in y.threads && y.threads[t].HasBoth? {
        var c := y.threads[t];
        var i := CommitSlot(y.table.slots, c.slot);
        if i.Some? {
          CommitKeepsSlots(y.table, i.value, c.opts, c.arena, c.scheduler);
        }
      }
    case DestroyTake(t, id) =>
      var i := FindFrom(y.table.slots, id, 0);
      if i.Some? {
        TakeKeepsSlots(y.table, i.value);
      }
    case DestroyFinish(t) =>
      if t in y.threads && y.threads[t].Finishing? {
        RetireKeepsSlots(y.table, y.threads[t].id);
      }
    case SubmitState(id) => StartKeepsSlots(y.table, id);
    case _ =>
  }

  lemma NextKeepsDoomed(y: System, a: Action)
    requires SlotsOk(y.table) && ThreadsOk(y)
    ensures CallsOk(Next(y, a))
  {
  }

  lemma NextKeepsDraining(y: System, a: Action)
    requires SlotsOk(y.table) && ThreadsOk(y)
    ensures DrainsOk(Next(y, a))
  {
    var z := Next(y, a);
    forall i | 0 <= i < |z.table.slots| && z.table.slots[i].state == Draining
      ensures SomeoneDestroys(z, z.table.slots[i].id)
    {
      var id := z.table.slots[i].id;
      if y.table.slots[i].state == Draining {
        assert SomeoneDestroys(y, id);
        var t :| t in y.threads && Destroying(y.threads[t], id);
        if a.DestroyFinish? && a.t == t {
          assert FindFrom(y.table.slots, id, 0) == Some(i);
        } else {
          assert t in z.threads && Destroying(z.threads[t], id);
        }
      } else {
        assert a.t in z.threads && Destroying(z.threads[a.t], id);
      }
    }
  }

  /** Where a step moves the resource at place `p`. */
  function Moved(y: System, a: Action, p: Place): Place
    requires |y.table.slots| == REPLICA_MAX
    requires forall t :: t in y.threads && y.threads[t].HasBoth? ==> y.threads[t].slot < REPLICA_MAX
  {
    match a
    case CreateScheduler(t, ok) =>
      if p == CallArena(t) && t in y.threads && y.threads[t].HasArena? && !ok then GoneAt(|y.gone|) else p
    case CreateCommit(t) =>
      if t !in y.threads || !y.threads[t].HasBoth? then p else
      var i := CommitSlot(y.table.slots, y.threads[t].slot);
      if i.Some? && p == CallArena(t) then SlotArena(i.value)
      else if i.Some? && p == CallScheduler(t) then SlotScheduler(i.value)
      else p
    case Discard(t) =>
      if t !in y.threads || !y.threads[t].Discarding? then p
      else if p == CallScheduler(t) then GoneAt(|y.gone|)
      else if p == CallArena(t) then GoneAt(|y.gone| + 1)
      else p
    case DestroyTake(t, id) =>
      var i := FindFrom(y.table.slots, id, 0);
      if t in y.threads || id == 0 || i.None? then p
      else if p == SlotArena(i.value) then CallArena(t)
      else if p == SlotScheduler(i.value) then CallScheduler(t)
      else p
    case DestroyResources(t) =>
      if t !in y.threads || !y.threads[t].Took? then p
      else if p == CallScheduler(t) then GoneAt(|y.gone|)
      else if p == CallArena(t) then GoneAt(|y.gone| + |Listed(y.threads[t].takenScheduler)|)
      else p
    case _ => p
  }

  /** Where the resource a step leaves at place `q` was before. */
  function Origin(y: System, a: Action, q: Place): Place
    requires |y.table.slots| == REPLICA_MAX
    requires forall t :: t in y.threads && y.threads[t].HasBoth? ==> y.threads[t].slot < REPLICA_MAX
  {
    match a
    case CreateScheduler(t, _) => if q == GoneAt(|y.gone|) then CallArena(t) else q
    case CreateCommit(t) =>
      if t !in y.threads || !y.threads[t].HasBoth? then q else
      var i := CommitSlot(y.table.slots, y.threads[t].slot);
      if i.Some? && q == SlotArena(i.value) then CallArena(t)
      else if i.Some? && q == SlotScheduler(i.value) then CallScheduler(t)
      else q
    case Discard(t) =>
      if q == GoneAt(|y.gone|) then CallScheduler(t) else if q == GoneAt(|y.gone| + 1) then CallArena(t) else q
    case DestroyTake(t, id) =>
      var i := FindFrom(y.table.slots, id, 0);
      if t in y.threads || id == 0 || i.None? then q
      else if q == CallArena(t) then SlotArena(i.value)
      else if q == CallScheduler(t) then SlotScheduler(i.value)
      else q
    case DestroyResources(t) =>
      if t !in y.threads || !y.threads[t].Took? || !q.GoneAt? || q.k < |y.gone| then q
      else if q.k == |y.gone| && y.threads[t].takenScheduler.Some? then CallScheduler(t)
      else CallArena(t)
    case _ => q
  }

  function NewHome(a: Action): Place {
    if a.CreateArena? then CallArena(a.t) else if a.CreateScheduler? then CallScheduler(a.t) else GoneAt(0)
  }

  predicate FromBefore(y: System, a: Action, q: Place, r: nat)
    requires |y.table.slots| == REPLICA_MAX
    requires forall t :: t in y.threads && y.threads[t].HasBoth? ==> y.threads[t].slot < REPLICA_MAX
  {
    Holds(y, Origin(y, a, q), r) && Moved(y, a, Origin(y, a, q)) == q
  }

  predicate Creating(a: Action) {
    a.CreateCheck? || a.CreateArena? || a.CreateScheduler? || a.CreateCommit?
  }

  lemma CreateMoves(y: System, a: Action, p: Place, r: nat)
    requires SlotsOk(y.table) && ThreadsOk(y) && Creating(a) && Holds(y, p, r)
    ensures Holds(Next(y, a), Moved(y, a, p), r)
  {
  }

  lemma ReleaseMoves(y: System, a: Action, p: Place, r: nat)
    requires SlotsOk(y.table) && ThreadsOk(y) && (a.Discard? || a.DestroyResources?) && Holds(y, p, r)
    ensures Holds(Next(y, a), Moved(y, a, p), r)
  {
  }

  lemma TakeMoves(y: System, a: Action, p: Place, r: nat)
    requires SlotsOk(y.table) && ThreadsOk(y) && (a.DestroyTake? || a.DestroyFinish? || a.SubmitState?) && Holds(y, p, r)
    ensures Holds(Next(y, a), Moved(y, a, p), r)
  {
  }

  /** A step drops nothing: what was at `p` is at the place it moved to. */
  lemma NextMoves(y: System, a: Action, p: Place, r: nat)
    requires SlotsOk(y.table) && ThreadsOk(y) && Holds(y, p, r)
    ensures Holds(Next(y, a), Moved(y, a, p), r)
  {
    if Creating(a) {
      CreateMoves(y, a, p, r);
    } else if a.Discard? || a.DestroyResources? {
      ReleaseMoves(y, a, p, r);
    } else {
      TakeMoves(y, a, p, r);
    }
  }

  lemma CreateInvents(y: System, a: Action, q: Place, r: nat)
    requires SlotsOk(y.table) && ThreadsOk(y) && Creating(a) && !a.CreateCommit? && Holds(Next(y, a), q, r)
    ensures (r == y.next < Next(y, a).next && q == NewHome(a)) || FromBefore(y, a, q, r)
  {
  }

  lemma CommitInvents(y: System, a: Action, q: Place, r: nat)
    requires SlotsOk(y.table) && ThreadsOk(y) && a.CreateCommit? && Holds(Next(y, a), q, r)
    ensures FromBefore(y, a, q, r)
  {
  }

  lemma DiscardInvents(y: System, a: Action, q: Place, r: nat)
    requires SlotsOk(y.table) && ThreadsOk(y) && a.Discard? && Holds(Next(y, a), q, r)
    ensures FromBefore(y, a, q, r)
  {
  }

  lemma ResourcesInvent(y: System, a: Action, q: Place, r: nat)
    requires SlotsOk(y.table) && ThreadsOk(y) && a.DestroyResources? && Holds(Next(y, a), q, r)
    ensures FromBefore(y, a, q, r)
  {
  }

  lemma TakeInvents(y: System, a: Action, q: Place, r: nat)
    requires SlotsOk(y.table) && ThreadsOk(y) && a.DestroyTake? && Holds(Next(y, a), q, r)
    ensures FromBefore(y, a, q, r)
  {
  }

  lemma StateStepsInvent(y: System, a: Action, q: Place, r: nat)
    requires SlotsOk(y.table) && ThreadsOk(y) && (a.DestroyFinish? || a.SubmitState?) && Holds(Next(y, a), q, r)
    ensures FromBefore(y, a, q, r)
  {
  }

  /** And nothing appears: what is held after a step was held before, at a place moved there, or is new. */
  lemma NextInvents(y: System, a: Action, q: Place, r: nat)
    requires SlotsOk(y.table) && ThreadsOk(y) && Holds(Next(y, a), q, r)
    ensures (r == y.next < Next(y, a).next && q == NewHome(a)) || FromBefore(y, a, q, r)
  {
    match a
    case CreateCommit(_) => CommitInvents(y, a, q, r);
    case Discard(_) => DiscardInvents(y, a, q, r);
    case DestroyResources(_) => ResourcesInvent(y, a, q, r);
    case DestroyTake(_, _) => TakeInvents(y, a, q, r);
    case DestroyFinish(_) => StateStepsInvent(y, a, q, r);
    case SubmitState(_) => StateStepsInvent(y, a, q, r);
    case _ => CreateInvents(y, a, q, r);
  }

  lemma NextKeepsOwnership(y: System, a: Action)
    requires Inv(y)
    ensures ExactOwnership(Next(y, a))
  {
    var z := Next(y, a);
    forall r: nat | r < z.next
      ensures OwnedOnce(z, r)
    {
      if r < y.next {
        assert OwnedOnce(y, r);
        var p :| Holds(y, p, r) && forall q :: Holds(y, q, r) ==> q == p;
        NextMoves(y, a, p, r);
        forall q | Holds(z, q, r)
          ensures q == Moved(y, a, p)
        {
          NextInvents(y, a, q, r);
        }
      } else {
        assert Holds(z, NewHome(a), r);
        forall q | Holds(z, q, r)
          ensures q == NewHome(a)
        {
          NextInvents(y, a, q, r);
        }
      }
    }
    forall r: nat, q | Holds(z, q, r)
      ensures r < z.next
    {
      NextInvents(y, a, q, r);
    }
  }

  lemma NextKeepsInv(y: System, a: Action)
    requires Inv(y)
    ensures Inv(Next(y, a))
  {
    NextKeepsSlots(y, a);
    NextKeepsDoomed(y, a);
    NextKeepsDraining(y, a);
    NextKeepsOwnership(y, a);
  }

  function Idle(blank: Opts): System {
    System(Table(seq(REPLICA_MAX, _ => Slot(0, Free, blank, None, None)), 1), map[], 0, [], [])
  }

  function Run(y: System, actions: seq<Action>): System
    requires Inv(y)
    decreases |actions|
  {
    if actions == [] then y else
    NextKeepsInv(y, actions[0]);
    Run(Next(y, actions[0]), actions[1..])
  }

  /**
    * From the empty table, after any interleaving of creating, destroying and submitting calls: every arena and
    * scheduler ever made is in exactly one place (a slot, a call, or one destruction), and live ids are distinct.
    */
  lemma EveryInterleavingOwnsExactly(blank: Opts, actions: seq<Action>)
    ensures Inv(Idle(blank)) && Inv(Run(Idle(blank), actions))
  {
    var y := Idle(blank);
    forall r: nat, p
      ensures !Holds(y, p, r)
    {
    }
    RunKeepsInv(y, actions);
  }

  lemma {:induction false} RunKeepsInv(y: System, actions: seq<Action>)
    requires Inv(y)
    ensures Inv(Run(y, actions))
    decreases |actions|
  {
    if actions != [] {
      NextKeepsInv(y, actions[0]);
      RunKeepsInv(Next(y, actions[0]), actions[1..]);
    }
  }

  /** When no call is in progress nothing is lost: a resource is in a created or running slot, or was destroyed once. */
  lemma NothingLeaksAtRest(y: System, r: nat)
    requires Inv(y) && y.threads == map[] && r < y.next
    ensures forall i :: 0 <= i < |y.table.slots| ==> y.table.slots[i].state != Draining
    ensures r !in y.gone <==> exists i :: 0 <= i < |y.table.slots| && Live(y.table.slots[i])
                                      && (y.table.slots[i].arena == Some(r) || y.table.slots[i].scheduler == Some(r))
    ensures NoDup(y.gone)
  {
    assert OwnedOnce(y, r);
    var p :| Holds(y, p, r) && forall q :: Holds(y, q, r) ==> q == p;
    forall i | 0 <= i < |y.table.slots|
      ensures y.table.slots[i].state != Draining
    {
      assert y.table.slots[i].state == Draining ==> SomeoneDestroys(y, y.table.slots[i].id);
    }
    DestroyedOnce(y);
    if r in y.gone {
      var k :| 0 <= k < |y.gone| && y.gone[k] == r;
      assert Holds(y, GoneAt(k), r);
      forall i | 0 <= i < |y.table.slots|
        ensures y.table.slots[i].arena != Some(r) && y.table.slots[i].scheduler != Some(r)
      {
        assert y.table.slots[i].arena == Some(r) ==> Holds(y, SlotArena(i), r);
        assert y.table.slots[i].scheduler == Some(r) ==> Holds(y, SlotScheduler(i), r);
      }
    } else {
      assert p.SlotArena? || p.SlotScheduler?;
    }
  }

  lemma DestroyedOnce(y: System)
    requires ExactOwnership(y)
    ensures NoDup(y.gone)
  {
    forall i, j | 0 <= i < j < |y.gone|
      ensures y.gone[i] != y.gone[j]
    {
      var r := y.gone[i];
      assert Holds(y, GoneAt(i), r) && Holds(y, GoneAt(j), y.gone[j]);
      assert OwnedOnce(y, r);
    }
  }

  /** Of two destroying calls that both find a replica, the later one takes nothing. */
  lemma SecondDestroyTakesNothing(y: System, t: nat, id: nat)
    requires Inv(y) && t !in y.threads && id != 0 && SomeoneDestroys(y, id) && FindFrom(y.table.slots, id, 0).Some?
    ensures Next(y, DestroyTake(t, id)) == y.(threads := y.threads[t := Took(id, None, None)])
  {
    var i := FindFrom(y.table.slots, id, 0).value;
    var u :| u in y.threads && Destroying(y.threads[u], id);
    assert Doomed(y.table, id);
    assert Take(y.table, i).slots == y.table.slots;
  }

  /** A finished destruction leaves no live slot with the id, and none ever gets it again. */
  lemma {:induction false} DestroyedForGood(y: System, t: nat, actions: seq<Action>)
    requires Inv(y) && t in y.threads && y.threads[t].Finishing?
    ensures Inv(Next(y, DestroyFinish(t)))
    ensures FindFrom(Run(Next(y, DestroyFinish(t)), actions).table.slots, y.threads[t].id, 0).None?
  {
    var z, id := Next(y, DestroyFinish(t)), y.threads[t].id;
    NextKeepsInv(y, DestroyFinish(t));
    assert Doomed(y.table, id);
    StaysDead(z, actions, id);
  }

  ghost predicate Dead(t: Table, id: nat) {
    id < t.nextId && forall i :: 0 <= i < |t.slots| && Live(t.slots[i]) ==> t.slots[i].id != id
  }

  lemma {:induction false} StaysDead(y: System, actions: seq<Action>, id: nat)
    requires Inv(y) && Dead(y.table, id)
    ensures Inv(Run(y, actions)) && Dead(Run(y, actions).table, id)
    decreases |actions|
  {
    if actions != [] {
      NextKeepsInv(y, actions[0]);
      assert Dead(Next(y, actions[0]).table, id);
      StaysDead(Next(y, actions[0]), actions[1..], id);
    }
  }
}
