/** What a creating call hands out can be used: its id names the replica made for it until it is destroyed. */
module ReplicaLaws {
  import opened Sequences
  import opened ReplicaProtocol

  /** The id finds a usable replica with what was asked for and what was made for it. */
  ghost predicate Usable(t: Table, m: Made) {
    var i := FindFrom(t.slots, m.id, 0);
    && i.Some?
    && var s := t.slots[i.value];
       && (s.state == Created || s.state == Running)
       && s.opts == m.opts && s.arena == Some(m.arena) && s.scheduler == Some(m.scheduler)
  }

  /** Where the one live slot with an id is. */
  lemma TheLiveSlot(t: Table, i: nat)
    requires SlotsOk(t) && i < |t.slots| && Live(t.slots[i])
    ensures FindFrom(t.slots, t.slots[i].id, 0) == Some(i)
  {
  }

  ghost predicate Commits(y: System, t: nat) {
    && t in y.threads && y.threads[t].HasBoth? && y.threads[t].slot < |y.table.slots|
    && CommitSlot(y.table.slots, y.threads[t].slot).Some?
  }

  /** A creation that finds a slot hands out the next id, and that id finds the replica, freshly created. */
  lemma CreatedIdIsUsable(y: System, t: nat)
    requires Inv(y) && Commits(y, t)
    ensures var c, z := y.threads[t], Next(y, CreateCommit(t));
            var m := Made(t, y.table.nextId, c.opts, c.arena, c.scheduler);
            && z.made == y.made + [m] && Usable(z.table, m)
            && z.table.slots[FindFrom(z.table.slots, m.id, 0).value].state == Created
            && FindFrom(y.table.slots, m.id, 0).None?
  {
    var z := Next(y, CreateCommit(t));
    NextKeepsSlots(y, CreateCommit(t));
    TheLiveSlot(z.table, CommitSlot(y.table.slots, y.threads[t].slot).value);
  }

  /** A creating call keeps to the options it was given and to the resources it made. */
  lemma CallsKeepTheirOrder(y: System, a: Action, t: nat)
    requires SlotsOk(y.table) && CallsOk(y) && t in y.threads && t in Next(y, a).threads
    ensures var c, d := y.threads[t], Next(y, a).threads[t];
            && (c.Chose? ==> d == c || (a == CreateArena(t, true) && d == HasArena(c.slot, c.opts, y.next)))
            && (c.HasArena? ==> d == c || (a == CreateScheduler(t, true) && d == HasBoth(c.slot, c.opts, c.arena, y.next)))
            && (c.HasBoth? ==> d == c || (a == CreateCommit(t) && d == Discarding(c.arena, c.scheduler)))
  {
  }

  /** An undisturbed creation on a table that is not full gives the caller a replica with the options asked for. */
  lemma UndisturbedCreation(y: System, t: nat, opts: Opts)
    requires Inv(y) && t !in y.threads && exists k :: 0 <= k < |y.table.slots| && !Live(y.table.slots[k])
    ensures var steps := [CreateCheck(t, opts), CreateArena(t, true), CreateScheduler(t, true), CreateCommit(t)];
            var m := Made(t, y.table.nextId, opts, y.next, y.next + 1);
            var z := Run(y, steps);
            z.made == y.made + [m] && z.threads == y.threads && Usable(z.table, m)
  {
    var a, b, c, d := CreateCheck(t, opts), CreateArena(t, true), CreateScheduler(t, true), CreateCommit(t);
    var y3 := ReadyToCommit(y, t, opts);
    CreatedIdIsUsable(y3, t);
    NextKeepsInv(y3, d);
    RunOfFour(y, a, b, c, d);
    CommitEndsCall(y3, t);
  }

  lemma CommitEndsCall(y: System, t: nat)
    requires Inv(y) && Commits(y, t)
    ensures Next(y, CreateCommit(t)).threads == y.threads - {t}
  {
  }

  lemma ReadyToCommit(y: System, t: nat, opts: Opts) returns (y3: System)
    requires Inv(y) && t !in y.threads && exists k :: 0 <= k < |y.table.slots| && !Live(y.table.slots[k])
    ensures var y1 := Next(y, CreateCheck(t, opts));
            && Inv(y1) && Inv(Next(y1, CreateArena(t, true))) && Inv(y3)
            && y3 == Next(Next(y1, CreateArena(t, true)), CreateScheduler(t, true))
    ensures y3.table == y.table && y3.made == y.made && y3.threads.Keys == y.threads.Keys + {t} && Commits(y3, t)
    ensures y3.threads[t] == HasBoth(y3.threads[t].slot, opts, y.next, y.next + 1) && y3.threads - {t} == y.threads
  {
    var y1 := Next(y, CreateCheck(t, opts));
    NextKeepsInv(y, CreateCheck(t, opts));
    var y2 := Next(y1, CreateArena(t, true));
    NextKeepsInv(y1, CreateArena(t, true));
    y3 := Next(y2, CreateScheduler(t, true));
    NextKeepsInv(y2, CreateScheduler(t, true));
  }

  lemma RunOfFour(y: System, a: Action, b: Action, c: Action, d: Action)
    requires Inv(y) && Inv(Next(y, a)) && Inv(Next(Next(y, a), b)) && Inv(Next(Next(Next(y, a), b), c))
    requires Inv(Next(Next(Next(Next(y, a), b), c), d))
    ensures Run(y, [a, b, c, d]) == Next(Next(Next(Next(y, a), b), c), d)
  {
    assert [a, b, c, d][1..] == [b, c, d] && [b, c, d][1..] == [c, d] && [c, d][1..] == [d] && [d][1..] == [];
    assert Run(Next(Next(Next(Next(y, a), b), c), d), []) == Next(Next(Next(Next(y, a), b), c), d);
    assert Run(Next(Next(Next(y, a), b), c), [d]) == Next(Next(Next(Next(y, a), b), c), d);
    assert Run(Next(Next(y, a), b), [c, d]) == Next(Next(Next(Next(y, a), b), c), d);
  }

  lemma UsableIsNotDoomed(t: Table, m: Made)
    requires SlotsOk(t) && Usable(t, m)
    ensures !Doomed(t, m.id) && m.id < t.nextId
  {
  }

  /** A live slot that a step leaves alone, but for marking it running. */
  lemma UsableStays(t: Table, t': Table, m: Made)
    requires SlotsOk(t) && SlotsOk(t') && Usable(t, m)
    requires var i := FindFrom(t.slots, m.id, 0).value;
             t'.slots[i] == t.slots[i] || t'.slots[i] == t.slots[i].(state := Running)
    ensures Usable(t', m)
  {
    TheLiveSlot(t', FindFrom(t.slots, m.id, 0).value);
  }

  lemma StepKeepsUsable(y: System, a: Action, m: Made)
    requires Inv(y) && Usable(y.table, m) && !(a.DestroyTake? && a.id == m.id)
    ensures Usable(Next(y, a).table, m)
  {
    NextKeepsSlots(y, a);
    UsableIsNotDoomed(y.table, m);
    UsableStays(y.table, Next(y, a).table, m);
  }

  /** From its creation to the first call that destroys it, a replica can be found by the id handed out for it. */
  lemma {:induction false} UsableUntilDestroyed(y: System, actions: seq<Action>, m: Made)
    requires Inv(y) && Usable(y.table, m)
    requires forall k :: 0 <= k < |actions| ==> !(actions[k].DestroyTake? && actions[k].id == m.id)
    ensures Usable(Run(y, actions).table, m)
    decreases |actions|
  {
    if actions != [] {
      StepKeepsUsable(y, actions[0], m);
      NextKeepsInv(y, actions[0]);
      UsableUntilDestroyed(Next(y, actions[0]), actions[1..], m);
    }
  }

  /** Ids handed out are ascending, so no two creations share one. */
  ghost predicate MadeInOrder(y: System) {
    && (forall j, k :: 0 <= j < k < |y.made| ==> y.made[j].id < y.made[k].id)
    && (forall k :: 0 <= k < |y.made| ==> 0 < y.made[k].id < y.table.nextId)
  }

  lemma {:induction false} HandedOutIdsAreDistinct(y: System, actions: seq<Action>)
    requires Inv(y) && MadeInOrder(y)
    ensures MadeInOrder(Run(y, actions)) && y.made <= Run(y, actions).made
    decreases |actions|
  {
    if actions != [] {
      NextKeepsInv(y, actions[0]);
      NextKeepsMade(y, actions[0]);
      HandedOutIdsAreDistinct(Next(y, actions[0]), actions[1..]);
    }
  }

  lemma NextKeepsMade(y: System, a: Action)
    requires Inv(y) && MadeInOrder(y)
    ensures MadeInOrder(Next(y, a)) && y.made <= Next(y, a).made
  {
  }

  /** Destroying hands over what the replica held, and from then on it takes no work. */
  lemma DestroyHandsOver(y: System, t: nat, m: Made)
    requires Inv(y) && Usable(y.table, m) && t !in y.threads
    ensures var z := Next(y, DestroyTake(t, m.id));
            var i := FindFrom(z.table.slots, m.id, 0);
            && z.threads == y.threads[t := Took(m.id, Some(m.arena), Some(m.scheduler))]
            && i.Some? && z.table.slots[i.value] == Slot(m.id, Draining, m.opts, None, None)
            && Next(z, SubmitState(m.id)) == z
  {
    var z := Next(y, DestroyTake(t, m.id));
    NextKeepsSlots(y, DestroyTake(t, m.id));
    TheLiveSlot(z.table, FindFrom(y.table.slots, m.id, 0).value);
  }

  /** The two resources of a destruction are destroyed, the scheduler first. */
  lemma DestroyedInOrder(y: System, t: nat, id: nat, arena: nat, scheduler: nat)
    requires Inv(y) && t in y.threads && y.threads[t] == Took(id, Some(arena), Some(scheduler))
    ensures Next(y, DestroyResources(t)).gone == y.gone + [scheduler, arena]
  {
  }

  /** A submission marks a usable replica running and changes nothing else. */
  lemma SubmitMarksRunning(y: System, m: Made)
    requires Inv(y) && Usable(y.table, m)
    ensures var z, i := Next(y, SubmitState(m.id)), FindFrom(y.table.slots, m.id, 0).value;
            && z == y.(table := z.table) && z.table.nextId == y.table.nextId
            && z.table.slots == y.table.slots[i := Slot(m.id, Running, m.opts, Some(m.arena), Some(m.scheduler))]
  {
  }

  /** A creation that cannot get its arena or its scheduler ends, and gives back an arena it has. */
  lemma RefusedCreationEnds(y: System, t: nat)
    requires Inv(y) && t in y.threads
    ensures y.threads[t].Chose? ==> Next(y, CreateArena(t, false)) == y.(threads := y.threads - {t})
    ensures y.threads[t].HasArena? ==>
              Next(y, CreateScheduler(t, false)) == y.(threads := y.threads - {t}, gone := y.gone + [y.threads[t].arena])
  {
  }

  /** A creation that finds the table full gives back both resources, the scheduler first, and hands out nothing. */
  lemma FullTableGivesBoth(y: System, t: nat)
    requires Inv(y) && t in y.threads && y.threads[t].HasBoth?
    requires forall k :: 0 <= k < |y.table.slots| ==> Live(y.table.slots[k])
    ensures Inv(Next(y, CreateCommit(t)))
    ensures Next(Next(y, CreateCommit(t)), Discard(t))
         == y.(threads := y.threads - {t}, gone := y.gone + [y.threads[t].scheduler, y.threads[t].arena])
  {
    NextKeepsInv(y, CreateCommit(t));
    assert y.threads[t := Discarding(y.threads[t].arena, y.threads[t].scheduler)] - {t} == y.threads - {t};
  }
}
