/** The replica table in memory: the critical sections over its fixed array of slots. */
module ReplicaRuntime {
  import opened Sequences
  import opened ReplicaProtocol

  datatype Status = InvalidArg | NotFound | Overflow

  class ReplicaTable {
    const slots: array<Slot>
    var nextId: nat

    ghost predicate Valid()
      reads this, slots
    {
      SlotsOk(Value())
    }

    ghost function Value(): Table
      reads this, slots
    {
      Table(slots[..], nextId)
    }

    constructor (blank: Opts)
      ensures Valid() && fresh(slots) && Value() == Idle(blank).table
      ensures slots.Length == 32 && nextId == 1 && forall k :: 0 <= k < 32 ==> !Live(slots[k])
    {
      slots := new Slot[REPLICA_MAX](_ => Slot(0, Free, blank, None, None));
      nextId := 1;
      new;
      assert slots[..] == Idle(blank).table.slots;
    }

    /** `rep_find`. Under `Valid` the result is the one live slot with the id, if there is one. */
    method Find(id: nat) returns (r: Option<nat>)
      requires Valid()
      ensures r == FindFrom(slots[..], id, 0)
      ensures r.Some? ==> forall k :: 0 <= k < slots.Length && Live(slots[k]) && slots[k].id == id ==> k == r.value
      ensures r.None? <==> forall k :: 0 <= k < slots.Length && Live(slots[k]) ==> slots[k].id != id
    {
      for i := 0 to slots.Length
        invariant FindFrom(slots[..], id, 0) == FindFrom(slots[..], id, i)
      {
        if slots[i].id == id && slots[i].state != Free && slots[i].state != Destroyed {
          return Some(i);
        }
      }
      r := None;
    }

    method FindFree() returns (r: Option<nat>)
      requires Valid()
      ensures r == FreeFrom(slots[..], 0)
    {
      for i := 0 to slots.Length
        invariant FreeFrom(slots[..], 0) == FreeFrom(slots[..], i)
      {
        if slots[i].state == Free || slots[i].state == Destroyed {
          return Some(i);
        }
      }
      r := None;
    }

    /** First critical section of creation: remember a slot that is free now. Refused only when all are live. */
    method CreateBegin() returns (r: Result<nat, Status>)
      requires Valid()
      ensures r.Ok? ==> FreeFrom(slots[..], 0) == Some(r.value)
      ensures r.Err? ==> r.error == Overflow && FreeFrom(slots[..], 0).None?
      ensures r.Err? <==> forall k :: 0 <= k < slots.Length ==> Live(slots[k])
    {
      var free := FindFree();
      r := if free.None? then Err(Overflow) else Ok(free.value);
    }

    /** Second critical section: the remembered slot may have been taken meanwhile. */
    method CreateEnd(chosen: nat, opts: Opts, arena: nat, scheduler: nat) returns (r: Result<nat, Status>)
      requires Valid() && chosen < slots.Length
      modifies this`nextId, slots
      ensures Valid()
      ensures var i := CommitSlot(old(slots[..]), chosen);
              && (i.None? ==> r == Err(Overflow) && Value() == old(Value()))
              && (i.Some? ==> r == Ok(old(nextId)) && Value() == Commit(old(Value()), i.value, opts, arena, scheduler))
      ensures r.Err? ==> r == Err(Overflow) && forall k :: 0 <= k < slots.Length ==> Live(old(slots[..])[k])
      ensures r.Ok? ==> var i := FindFrom(slots[..], r.value, 0);
                        && i.Some? && !Live(old(slots[..])[i.value]) && (!Live(old(slots[..])[chosen]) ==> i.value == chosen)
                        && slots[i.value] == Slot(r.value, Created, opts, Some(arena), Some(scheduler))
                        && (forall k :: 0 <= k < slots.Length && k != i.value ==> slots[k] == old(slots[..])[k])
                        && (forall k :: 0 <= k < slots.Length && Live(old(slots[..])[k]) ==> old(slots[..])[k].id != r.value)
    {
      var i := chosen;
      if slots[chosen].state != Free && slots[chosen].state != Destroyed {
        var free := FindFree();
        if free.None? {
          return Err(Overflow);
        }
        i := free.value;
      }
      slots[i] := Slot(nextId, Created, opts, Some(arena), Some(scheduler));
      r := Ok(nextId);
      nextId := nextId + 1;
      assert Value() == Commit(old(Value()), i, opts, arena, scheduler);
    }

    /**
      * First critical section of destruction: whatever the slot still holds passes to the caller.
      * Destroying the invalid id 0 succeeds without touching the table.
      */
    method DestroyBegin(id: nat) returns (r: Result<Option<(Option<nat>, Option<nat>)>, Status>)
      requires Valid()
      modifies slots
      ensures Valid()
      ensures var i := FindFrom(old(slots[..]), id, 0);
              && (id == 0 ==> r == Ok(None) && Value() == old(Value()))
              && (id != 0 && i.None? ==> r == Err(NotFound) && Value() == old(Value()))
              && (id != 0 && i.Some? ==> r == Ok(Some((old(slots[..])[i.value].arena, old(slots[..])[i.value].scheduler)))
                                         && Value() == Take(old(Value()), i.value))
              && (i.Some? && id != 0 ==>
                    && slots[i.value] == Slot(id, Draining, old(slots[..])[i.value].opts, None, None)
                    && forall k :: 0 <= k < slots.Length && k != i.value ==> slots[k] == old(slots[..])[k])
    {
      if id == 0 {
        return Ok(None);
      }
      var i := Find(id);
      if i.None? {
        return Err(NotFound);
      }
      r := Ok(Some((slots[i.value].arena, slots[i.value].scheduler)));
      slots[i.value] := slots[i.value].(state := Draining, scheduler := None, arena := None);
      assert Value() == Take(old(Value()), i.value);
    }

    /** Second critical section of destruction; a slot that another call already retired is left alone. */
    method DestroyEnd(id: nat)
      requires Valid() && Doomed(Value(), id)
      modifies slots
      ensures Valid() && Value() == Retire(old(Value()), id) && Dead(Value(), id)
      ensures forall k :: 0 <= k < slots.Length ==>
                var s := old(slots[..])[k];
                slots[k] == if Live(s) && s.id == id then Slot(id, Destroyed, s.opts, s.arena, s.scheduler) else s
    {
      var i := Find(id);
      if i.Some? {
        slots[i.value] := slots[i.value].(state := Destroyed);
      }
      assert Value() == Retire(old(Value()), id);
    }

    /** The state part of a submission: a draining replica refuses, and an accepted one has a scheduler to give. */
    method SubmitState(id: nat) returns (r: Result<nat, Status>)
      requires Valid()
      modifies slots
      ensures Valid() && Value() == Start(old(Value()), id)
      ensures var i := FindFrom(old(slots[..]), id, 0);
              && (r == Err(NotFound) <==> id != 0 && i.None?)
              && (r == Err(InvalidArg) <==> id == 0 || (i.Some? && old(slots[..])[i.value].state == Draining))
              && (r.Ok? ==> i.Some? && old(slots[..])[i.value].scheduler == Some(r.value))
              && r != Err(Overflow)
              && (r.Ok? ==> slots[i.value] == Slot(id, Running, old(slots[..])[i.value].opts,
                                                   old(slots[..])[i.value].arena, Some(r.value)))
              && (forall k :: 0 <= k < slots.Length && !(r.Ok? && k == i.value) ==> slots[k] == old(slots[..])[k])
    {
      if id == 0 {
        return Err(InvalidArg);
      }
      var i := Find(id);
      if i.None? {
        return Err(NotFound);
      }
      if slots[i.value].state == Draining {
        return Err(InvalidArg);
      }
      slots[i.value] := slots[i.value].(state := Running);
      r := Ok(slots[i.value].scheduler.value);
      assert Value() == Start(old(Value()), id);
    }
  }
}
