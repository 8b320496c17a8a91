/** One-shot timers: a sorted pending list, fired with the lock released around every callback. */
module Timers {
  import opened Sequences

  const WORD: nat := 0x1_0000_0000_0000_0000

  datatype Timer = Timer(deadline: nat, id: nat, cancelled: bool)

  /** `deadline_ns`: the microsecond delay in nanoseconds added to the clock, in 64-bit arithmetic. */
  function Deadline(now: nat, delayUs: nat): nat {
    (now + delayUs * 1000 % WORD) % WORD
  }

  /** The deadline is not before the end of the delay exactly when that end is below 2^64 nanoseconds. */
  lemma DeadlineWaitsExactlyWhen(now: nat, delayUs: nat)
    requires now < WORD && delayUs < WORD
    ensures Deadline(now, delayUs) >= now + delayUs * 1000 <==> now + delayUs * 1000 < WORD
    ensures now + delayUs * 1000 < WORD ==> Deadline(now, delayUs) == now + delayUs * 1000
  {
    var delay := delayUs * 1000;
    assert now + delay < WORD ==> delay % WORD == delay;
  }

  /** A delay of more than five hundred years. */
  const WRAPPED_DELAY_US: nat := 0x41_8937_4BC6_A7F0

  // ----- the protocol: one step per critical section -----

  /** Where the scan for a new deadline stops: behind every timer that is due no later. */
  function Slot(pending: seq<Timer>, deadline: nat): (i: nat)
    ensures i <= |pending|
    ensures forall j :: 0 <= j < i ==> pending[j].deadline <= deadline
    ensures i < |pending| ==> deadline < pending[i].deadline
  {
    if pending == [] || deadline < pending[0].deadline then 0 else 1 + Slot(pending[1..], deadline)
  }

  lemma SlotFrom(p: seq<Timer>, i: nat, deadline: nat)
    requires i <= |p|
    ensures Slot(p[i..], deadline) ==
            if i == |p| || deadline < p[i].deadline then 0 else 1 + Slot(p[i + 1..], deadline)
  {
    assert i < |p| ==> p[i..][1..] == p[i + 1..];
  }

  function Splice<T>(s: seq<T>, i: nat, x: T): seq<T>
    requires i <= |s|
  {
    s[..i] + [x] + s[i..]
  }

  function InsertTimer(pending: seq<Timer>, t: Timer): seq<Timer> {
    Splice(pending, Slot(pending, t.deadline), t)
  }

  /** The firing loop up to the next callback: drop cancelled expired timers, fire the first other one. */
  function FireNext(pending: seq<Timer>, clock: nat): (seq<Timer>, Option<Timer>) {
    if pending == [] || pending[0].deadline > clock then (pending, None)
    else if pending[0].cancelled then FireNext(pending[1..], clock)
    else (pending[1..], Some(pending[0]))
  }

  datatype Firing = Firing(id: nat, deadline: nat, clock: nat)

  /** `dead` are the ids cancelled while their timer was pending. */
  datatype System = System(pending: seq<Timer>, timerSeq: nat, fired: seq<Firing>, dead: set<nat>)

  datatype Action =
    | Once(deadline: nat, clock: nat)
    | Resume(clock: nat)
    | CancelTimer(index: nat)

  function Fire(y: System, clock: nat): System {
    var (rest, f) := FireNext(y.pending, clock);
    y.(pending := rest,
       fired := if f.Some? then y.fired + [Firing(f.value.id, f.value.deadline, clock)] else y.fired)
  }

  function Armed(y: System, deadline: nat): System {
    y.(pending := InsertTimer(y.pending, Timer(deadline, y.timerSeq + 1, false)), timerSeq := y.timerSeq + 1)
  }

  /** A call of `ify_timer_once` up to its first callback, its continuation after a callback, and a cancellation. */
  function Next(y: System, a: Action): System {
    match a
    case Once(deadline, clock) => Fire(Armed(y, deadline), clock)
    case Resume(clock) => Fire(y, clock)
    case CancelTimer(i) =>
      if i >= |y.pending| then y else
      y.(pending := y.pending[i := y.pending[i].(cancelled := true)], dead := y.dead + {y.pending[i].id})
  }

  function Run(y: System, actions: seq<Action>): System
    decreases |actions|
  {
    if actions == [] then y else Run(Next(y, actions[0]), actions[1..])
  }

  // ----- what holds in every interleaving -----

  predicate Before(a: Timer, b: Timer) {
    a.deadline < b.deadline || (a.deadline == b.deadline && a.id < b.id)
  }

  ghost predicate Sorted(pending: seq<Timer>) {
    forall i, j :: 0 <= i < j < |pending| ==> Before(pending[i], pending[j])
  }

  ghost predicate DistinctIds(p: seq<Timer>) {
    forall i, j :: 0 <= i < j < |p| ==> p[i].id != p[j].id
  }

  ghost function FiredIds(fired: seq<Firing>): set<nat> {
    set k | 0 <= k < |fired| :: fired[k].id
  }

  lemma FiredIdsGrow(fired: seq<Firing>, f: Firing)
    ensures FiredIds(fired + [f]) == FiredIds(fired) + {f.id}
  {
    var all := fired + [f];
    forall id
      ensures id in FiredIds(all) <==> id in FiredIds(fired) || id == f.id
    {
      if id in FiredIds(fired) {
        var k :| 0 <= k < |fired| && fired[k].id == id;
        assert all[k].id == id;
      } else if id == f.id {
        assert all[|fired|].id == id;
      }
    }
  }

  ghost predicate PendingOk(y: System, t: Timer) {
    0 < t.id <= y.timerSeq && t.id !in FiredIds(y.fired) && (t.cancelled <==> t.id in y.dead)
  }

  ghost predicate Inv(y: System) {
    Sorted(y.pending) && DistinctIds(y.pending) && AllPendingOk(y) && FiredOk(y)
  }

  ghost predicate AllPendingOk(y: System) {
    forall i :: 0 <= i < |y.pending| ==> PendingOk(y, y.pending[i])
  }

  /** What was called and cancelled so far. */
  ghost predicate FiredOk(y: System) {
    && (forall k, l :: 0 <= k < l < |y.fired| ==> y.fired[k].id != y.fired[l].id)
    && (forall k :: 0 <= k < |y.fired| ==>
          && y.fired[k].deadline <= y.fired[k].clock && y.fired[k].id <= y.timerSeq && y.fired[k].id !in y.dead)
    && (forall id :: id in y.dead ==> id <= y.timerSeq)
  }

  lemma DropHeadKeepsInv(y: System)
    requires Inv(y) && y.pending != []
    ensures Inv(y.(pending := y.pending[1..]))
    ensures forall i :: 1 <= i < |y.pending| ==> y.pending[i].id != y.pending[0].id
  {
    var y' := y.(pending := y.pending[1..]);
    forall i | 0 <= i < |y'.pending|
      ensures PendingOk(y', y'.pending[i])
    {
      assert PendingOk(y, y.pending[i + 1]);
    }
  }

  /** Firing keeps the invariant; without a callback nothing that is due is left. */
  lemma {:induction false} FireKeepsInv(y: System, clock: nat)
    requires Inv(y)
    ensures Inv(Fire(y, clock))
    ensures var (rest, f) := FireNext(y.pending, clock);
            && (f.None? ==> rest == [] || rest[0].deadline > clock)
            && (f.Some? ==> !f.value.cancelled && f.value.id !in y.dead && f.value.deadline <= clock)
    decreases |y.pending|
  {
    if y.pending != [] && y.pending[0].deadline <= clock {
      var t, y1 := y.pending[0], y.(pending := y.pending[1..]);
      assert PendingOk(y, t);
      DropHeadKeepsInv(y);
      if t.cancelled {
        FireKeepsInv(y1, clock);
        assert Fire(y, clock) == Fire(y1, clock);
      } else {
        FireHeadKeepsInv(y, clock);
      }
    }
  }

  lemma FireHeadKeepsInv(y: System, clock: nat)
    requires Inv(y) && y.pending != [] && y.pending[0].deadline <= clock && !y.pending[0].cancelled
    ensures Inv(y.(pending := y.pending[1..], fired := y.fired + [Firing(y.pending[0].id, y.pending[0].deadline, clock)]))
  {
    var t := y.pending[0];
    assert PendingOk(y, t);
    DropHeadKeepsInv(y);
    var y' := y.(pending := y.pending[1..], fired := y.fired + [Firing(t.id, t.deadline, clock)]);
    forall i | 0 <= i < |y'.pending|
      ensures PendingOk(y', y'.pending[i])
    {
      assert PendingOk(y, y.pending[i + 1]);
      FiredIdsGrow(y.fired, Firing(t.id, t.deadline, clock));
    }
    assert forall k :: 0 <= k < |y.fired| ==> y.fired[k].id in FiredIds(y.fired);
  }

  lemma InsertAt(p: seq<Timer>, t: Timer)
    ensures var p', i := InsertTimer(p, t), Slot(p, t.deadline);
            |p'| == |p| + 1 && forall k :: 0 <= k < |p'| ==> p'[k] == if k < i then p[k] else if k == i then t else p[k - 1]
  {
  }

  lemma InsertKeepsSorted(p: seq<Timer>, t: Timer)
    requires Sorted(p) && forall k :: 0 <= k < |p| ==> p[k].id < t.id
    ensures Sorted(InsertTimer(p, t))
  {
    var p', i := InsertTimer(p, t), Slot(p, t.deadline);
    InsertAt(p, t);
    forall k | 0 <= k < |p|
      ensures if k < i then Before(p[k], t) else Before(t, p[k])
    {
      assert i < k ==> Before(p[i], p[k]);
    }
  }

  lemma InsertKeepsIds(p: seq<Timer>, t: Timer)
    requires DistinctIds(p) && forall k :: 0 <= k < |p| ==> p[k].id < t.id
    ensures DistinctIds(InsertTimer(p, t))
  {
    InsertAt(p, t);
  }

  /** A timer that waited well still does after another one was armed. */
  lemma StillPendingOk(y: System, y': System, t: Timer)
    requires PendingOk(y, t) && y'.timerSeq >= y.timerSeq && y'.fired == y.fired && y'.dead == y.dead
    ensures PendingOk(y', t)
  {
  }

  /** The new timer has an id that was neither fired nor cancelled. */
  lemma NewPendingOk(y: System, y': System, deadline: nat)
    requires Inv(y) && y'.timerSeq == y.timerSeq + 1 && y'.fired == y.fired && y'.dead == y.dead
    ensures PendingOk(y', Timer(deadline, y.timerSeq + 1, false))
  {
    assert forall id :: id in FiredIds(y.fired) ==> id <= y.timerSeq;
  }

  lemma InsertKeepsPendingOk(y: System, deadline: nat, k: nat)
    requires Inv(y) && k < |Armed(y, deadline).pending|
    ensures PendingOk(Armed(y, deadline), Armed(y, deadline).pending[k])
  {
    var t, y', i := Timer(deadline, y.timerSeq + 1, false), Armed(y, deadline), Slot(y.pending, deadline);
    InsertAt(y.pending, t);
    if k == i {
      NewPendingOk(y, y', deadline);
    } else {
      StillPendingOk(y, y', y.pending[if k < i then k else k - 1]);
    }
  }

  lemma InsertKeepsInv(y: System, deadline: nat)
    requires Inv(y)
    ensures Inv(Armed(y, deadline))
  {
    InsertKeepsOrder(y, deadline);
    ArmedKeepsFiredOk(y, deadline);
    forall k | 0 <= k < |Armed(y, deadline).pending|
      ensures PendingOk(Armed(y, deadline), Armed(y, deadline).pending[k])
    {
      InsertKeepsPendingOk(y, deadline, k);
    }
  }

  lemma ArmedKeepsFiredOk(y: System, deadline: nat)
    requires FiredOk(y)
    ensures FiredOk(Armed(y, deadline))
  {
  }

  lemma InsertKeepsOrder(y: System, deadline: nat)
    requires Inv(y)
    ensures Sorted(Armed(y, deadline).pending) && DistinctIds(Armed(y, deadline).pending)
  {
    var t := Timer(deadline, y.timerSeq + 1, false);
    forall k | 0 <= k < |y.pending|
      ensures y.pending[k].id < t.id
    {
      assert PendingOk(y, y.pending[k]);
    }
    InsertKeepsSorted(y.pending, t);
    InsertKeepsIds(y.pending, t);
  }

  lemma NextKeepsInv(y: System, a: Action)
    requires Inv(y)
    ensures Inv(Next(y, a))
  {
    match a
    case Once(deadline, clock) =>
      InsertKeepsInv(y, deadline);
      FireKeepsInv(Armed(y, deadline), clock);
    case Resume(clock) =>
      FireKeepsInv(y, clock);
    case CancelTimer(i) =>
      if i < |y.pending| {
        CancelKeepsInv(y, i);
      }
  }

  lemma CancelKeepsInv(y: System, i: nat)
    requires Inv(y) && i < |y.pending|
    ensures Inv(Next(y, CancelTimer(i)))
  {
    var y' := Next(y, CancelTimer(i));
    var id := y.pending[i].id;
    assert PendingOk(y, y.pending[i]);
    forall k | 0 <= k < |y'.pending|
      ensures PendingOk(y', y'.pending[k])
    {
      assert PendingOk(y, y.pending[k]);
    }
    assert forall k :: 0 <= k < |y.fired| ==> y.fired[k].id in FiredIds(y.fired);
  }

  /**
    * In every interleaving the pending list is sorted by (deadline, id), no timer fires twice, none fires before
    * its stored deadline, and none fires after being cancelled while pending.
    */
  lemma {:induction false} EveryRunFiresProperly(y: System, actions: seq<Action>)
    requires Inv(y)
    ensures var z := Run(y, actions);
            && Sorted(z.pending)
            && (forall k, l :: 0 <= k < l < |z.fired| ==> z.fired[k].id != z.fired[l].id)
            && (forall k :: 0 <= k < |z.fired| ==> z.fired[k].deadline <= z.fired[k].clock)
            && y.dead <= z.dead && (forall k :: 0 <= k < |z.fired| ==> z.fired[k].id !in z.dead)
    decreases |actions|
  {
    if actions != [] {
      NextKeepsInv(y, actions[0]);
      EveryRunFiresProperly(Next(y, actions[0]), actions[1..]);
    }
  }

  /** That delay wraps around: the timer fires 384 nanoseconds after it was armed. */
  lemma WrappedDelayFiresAtOnce(y: System, now: nat)
    requires y.pending == [] && now + 384 < WORD
    ensures WRAPPED_DELAY_US < WORD && Deadline(now, WRAPPED_DELAY_US) == now + 384
    ensures Next(y, Once(Deadline(now, WRAPPED_DELAY_US), now + 384)).fired
         == y.fired + [Firing(y.timerSeq + 1, now + 384, now + 384)]
  {
    assert WRAPPED_DELAY_US * 1000 == WORD + 384;
    var t := Timer(now + 384, y.timerSeq + 1, false);
    assert InsertTimer([], t) == [t];
  }

  // ----- the linked list -----

  class TimerEntry {
    var next: TimerEntry?
    const deadline: nat
    const id: nat
    var cancelled: bool

    constructor (deadline: nat, id: nat)
      ensures Is(Timer(deadline, id, false)) && next == null
    {
      this.deadline, this.id, cancelled, next := deadline, id, false, null;
    }

    ghost predicate Is(t: Timer)
      reads this
    {
      deadline == t.deadline && id == t.id && cancelled == t.cancelled
    }
  }

  ghost function NodeAt(nodes: seq<TimerEntry>, i: nat): TimerEntry? {
    if i < |nodes| then nodes[i] else null
  }

  /** Every link is the following node. */
  ghost predicate Chained(nodes: seq<TimerEntry>, links: seq<TimerEntry?>) {
    |links| == |nodes| && forall i {:trigger links[i]} :: 0 <= i < |nodes| ==> links[i] == NodeAt(nodes, i + 1)
  }

  lemma SpliceAt<T>(s: seq<T>, i: nat, x: T)
    requires i <= |s|
    ensures |Splice(s, i, x)| == |s| + 1
    ensures forall k :: 0 <= k <= |s| ==> Splice(s, i, x)[k] == if k < i then s[k] else if k == i then x else s[k - 1]
  {
  }

  lemma SpliceChained(nodes: seq<TimerEntry>, links: seq<TimerEntry?>, i: nat, te: TimerEntry)
    requires Chained(nodes, links) && i <= |nodes|
    ensures var links1 := if i == 0 then links else links[i - 1 := te];
            Chained(Splice(nodes, i, te), Splice(links1, i, NodeAt(nodes, i)))
  {
    var links1 := if i == 0 then links else links[i - 1 := te];
    SpliceAt(nodes, i, te);
    SpliceAt(links1, i, NodeAt(nodes, i));
  }

  lemma ArmedIs(y: System, y': System, deadline: nat)
    requires y' == y.(pending := InsertTimer(y.pending, Timer(deadline, y.timerSeq + 1, false)), timerSeq := y.timerSeq + 1)
    ensures y' == Armed(y, deadline)
  {
  }

  class TimerList {
    var head: TimerEntry?
    var timerSeq: nat
    ghost var nodes: seq<TimerEntry>
    ghost var links: seq<TimerEntry?>
    ghost var abs: System

    ghost predicate Stored(pending: seq<Timer>)
      reads this, nodes
    {
      && |nodes| == |links| == |pending|
      && (forall i, j :: 0 <= i < j < |nodes| ==> nodes[i] != nodes[j])
      && (forall i :: 0 <= i < |nodes| ==> nodes[i].Is(pending[i]) && nodes[i].next == links[i])
    }

    ghost predicate Refines()
      reads this, nodes
    {
      head == NodeAt(nodes, 0) && timerSeq == abs.timerSeq && Chained(nodes, links) && Stored(abs.pending)
    }

    constructor ()
      ensures Refines() && abs == System([], 0, [], {}) && Inv(abs)
    {
      head, timerSeq := null, 0;
      nodes, links, abs := [], [], System([], 0, [], {});
    }

    /** Walk to the first later deadline: the entries before and after the place of the new one. */
    method FindPlace(deadline: nat) returns (prev: TimerEntry?, c: TimerEntry?)
      requires Refines()
      ensures var i := Slot(abs.pending, deadline);
              c == NodeAt(nodes, i) && prev == (if i == 0 then null else NodeAt(nodes, i - 1))
    {
      prev, c := null, head;
      ghost var i := 0;
      ghost var p := abs.pending;
      while c != null && c.deadline <= deadline
        invariant i <= |nodes| && c == NodeAt(nodes, i) && prev == (if i == 0 then null else nodes[i - 1])
        invariant i + Slot(p[i..], deadline) == Slot(p, deadline)
        decreases |nodes| - i
      {
        assert nodes[i].Is(p[i]);
        SlotFrom(p, i, deadline);
        prev, c, i := c, c.next, i + 1;
      }
      assert i < |nodes| ==> nodes[i].Is(p[i]);
      SlotFrom(p, i, deadline);
    }

    /** Splice the entry in before the first later deadline. */
    method Insert(te: TimerEntry, ghost t: Timer)
      requires Refines() && te !in nodes && te.Is(t)
      modifies this`head, this`nodes, this`links, this`abs, te`next, nodes`next
      ensures Refines() && abs == old(abs).(pending := InsertTimer(old(abs).pending, t))
    {
      var prev, c := FindPlace(te.deadline);
      ghost var i := Slot(abs.pending, te.deadline);
      SpliceChained(nodes, links, i, te);
      LinkIn(prev, te, c, i);
      SpliceStored(te, i, t);
    }

    method LinkIn(prev: TimerEntry?, te: TimerEntry, c: TimerEntry?, ghost i: nat)
      requires Stored(abs.pending) && i <= |nodes| && te !in nodes && prev == (if i == 0 then null else nodes[i - 1])
      modifies this`head, this`links, te`next, nodes`next
      ensures Stored(abs.pending) && te.next == c
      ensures head == (if i == 0 then te else old(head)) && links == if i == 0 then old(links) else old(links)[i - 1 := te]
    {
      te.next := c;
      if prev == null {
        head := te;
      } else {
        prev.next := te;
        links := links[i - 1 := te];
      }
    }

    ghost method SpliceStored(te: TimerEntry, i: nat, t: Timer)
      requires Stored(abs.pending) && i <= |nodes| && te !in nodes && te.Is(t)
      modifies this`nodes, this`links, this`abs
      ensures nodes == Splice(old(nodes), i, te) && links == Splice(old(links), i, te.next)
      ensures abs == old(abs).(pending := Splice(old(abs).pending, i, t)) && Stored(abs.pending)
    {
      SpliceAt(nodes, i, te);
      SpliceAt(links, i, te.next);
      SpliceAt(abs.pending, i, t);
      nodes, links := Splice(nodes, i, te), Splice(links, i, te.next);
      abs := abs.(pending := Splice(abs.pending, i, t));
    }

    method PopFront()
      requires Refines() && head != null
      modifies this`head, this`nodes, this`links, this`abs
      ensures Refines() && old(nodes) != [] && nodes == old(nodes)[1..]
      ensures abs == old(abs).(pending := old(abs).pending[1..])
    {
      head := head.next;
      nodes, links, abs := nodes[1..], links[1..], abs.(pending := abs.pending[1..]);
    }

    /** The firing loop up to the next unlock; the timer returned is the one whose callback is then made. */
    method FireUntilCallback(clock: nat) returns (due: TimerEntry?)
      requires Refines()
      modifies this`head, this`nodes, this`links, this`abs
      ensures Refines() && abs == Fire(old(abs), clock)
      ensures Called(old(abs).fired, due, clock)
      ensures due != null ==> due in old(nodes) && due !in nodes && !due.cancelled
    {
      ghost var y := abs;
      due := null;
      while head != null && head.deadline <= clock
        invariant Refines() && due == null && abs == y.(pending := abs.pending)
        invariant FireNext(abs.pending, clock) == FireNext(y.pending, clock)
        invariant forall e :: e in nodes ==> e in old(nodes)
        decreases |nodes|
      {
        assert nodes[0].Is(abs.pending[0]);
        var e := head;
        PopFront();
        if !e.cancelled {
          abs := abs.(fired := abs.fired + [Firing(e.id, e.deadline, clock)]);
          return e;
        }
      }
      assert nodes != [] ==> nodes[0].Is(abs.pending[0]);
    }

    /** The callback about to be made is the one appended to the record of callbacks. */
    ghost predicate Called(fired0: seq<Firing>, due: TimerEntry?, clock: nat)
      reads this
    {
      abs.fired == if due == null then fired0 else fired0 + [Firing(due.id, due.deadline, clock)]
    }

    method Arm(deadline: nat) returns (te: TimerEntry)
      requires Refines()
      modifies this, nodes`next
      ensures Refines() && abs == Armed(old(abs), deadline)
      ensures fresh(te) && te.id == timerSeq && te.deadline == deadline
    {
      ghost var y := abs;
      te := new TimerEntry(deadline, timerSeq + 1);
      assert te !in nodes && te.Is(Timer(deadline, timerSeq + 1, false));
      Insert(te, Timer(deadline, timerSeq + 1, false));
      timerSeq := timerSeq + 1;
      abs := abs.(timerSeq := timerSeq);
      ArmedIs(y, abs, deadline);
    }

    /** The locked part of `ify_timer_once`, up to its first callback. */
    method Once(deadline: nat, clock: nat) returns (te: TimerEntry, due: TimerEntry?)
      requires Refines()
      modifies this, nodes`next
      ensures Refines() && abs == Next(old(abs), Action.Once(deadline, clock)) && Called(old(abs).fired, due, clock)
    {
      te := Arm(deadline);
      due := FireUntilCallback(clock);
    }

    method TimerOnce(now: nat, delayUs: nat, clock: nat) returns (te: TimerEntry, due: TimerEntry?)
      requires Refines()
      modifies this, nodes`next
      ensures Refines() && abs == Next(old(abs), Action.Once(Deadline(now, delayUs), clock))
      ensures Called(old(abs).fired, due, clock)
    {
      var deadline := Deadline(now, delayUs);
      te, due := Once(deadline, clock);
    }

    /** The same call after a callback has returned. */
    method Resume(clock: nat) returns (due: TimerEntry?)
      requires Refines()
      modifies this`head, this`nodes, this`links, this`abs
      ensures Refines() && abs == Next(old(abs), Action.Resume(clock))
      ensures Called(old(abs).fired, due, clock)
    {
      due := FireUntilCallback(clock);
    }

    method Cancel(te: TimerEntry, ghost i: nat)
      requires Refines() && i < |nodes| && te == nodes[i]
      modifies this`abs, te`cancelled
      ensures Refines() && abs == Next(old(abs), CancelTimer(i))
    {
      te.cancelled := true;
      abs := Next(abs, CancelTimer(i));
    }
  }
}
