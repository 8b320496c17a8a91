/** Span collection as a bounded queue that drops its oldest entry, fed from a lossy table of spans in flight. */
module TraceProtocol {
  import opened Sequences
  import Bits

  const INFLIGHT_MAX: nat := 256
  const OP_MAX: nat := 64

  datatype Span = Span(
    id: nat, parent: nat, dimension: nat, task: nat, op: string, startNs: nat, endNs: nat, allocBytes: nat, freeBytes: nat)

  /** What `begin` stores: an operation name is cut to fit its field, a missing one is empty. */
  function Started(sid: nat, parent: nat, dimension: nat, task: nat, op: Option<string>, now: nat): Span {
    var name := if op.None? then "" else if |op.value| < OP_MAX then op.value else op.value[..OP_MAX - 1];
    Span(sid, parent, dimension, task, name, now, 0, 0, 0)
  }

  /** A stored name is the given one, or its first 63 characters. */
  ghost predicate NameFits(given: Option<string>, stored: string) {
    match given
    case None => stored == ""
    case Some(s) => |stored| <= 63 && stored <= s && (|stored| == 63 || stored == s)
  }

  lemma StartedMeans(sid: nat, parent: nat, dimension: nat, task: nat, op: Option<string>, now: nat)
    ensures var p := Started(sid, parent, dimension, task, op, now);
            p == Span(sid, parent, dimension, task, p.op, now, 0, 0, 0) && NameFits(op, p.op)
  {
  }

  function SlotOf(sid: nat): (k: nat)
    ensures k < INFLIGHT_MAX
  {
    sid % INFLIGHT_MAX
  }

  /** Two ids share a slot exactly when they are a multiple of 256 apart. */
  lemma SlotsMeetExactlyWhen(a: nat, d: nat)
    ensures SlotOf(a) == SlotOf(a + d) <==> d % 256 == 0
  {
  }

  /** The tracer: whether it is on, its capacity, the last id given out, spans in flight by slot, unread spans. */
  datatype Tracer = Tracer(on: bool, cap: nat, lastId: nat, inflight: map<nat, Span>, buffer: seq<Span>)

  function DropOldest<T>(s: seq<T>, cap: nat): seq<T> {
    if |s| > cap then s[|s| - cap..] else s
  }

  /** At least 2 and passing the power-of-two test. */
  predicate ValidCapacity(capacity: nat) {
    capacity >= 2 && Bits.BitAnd(capacity, capacity - 1) == 0
  }

  function StartUp(y: Tracer, capacity: nat): Tracer {
    if y.on then y else Tracer(true, capacity, y.lastId, map[], [])
  }

  function ShutDown(y: Tracer): Tracer {
    if y.on then y.(on := false, cap := 0, buffer := []) else y
  }

  /** The second, locked half of `begin`; it evicts whatever its slot holds. */
  function Store(y: Tracer, p: Span): Tracer {
    if y.on then y.(inflight := y.inflight[SlotOf(p.id) := p]) else y
  }

  /** The span `end` would record. */
  function Finished(y: Tracer, sid: nat, alloc: nat, free: nat, now: nat): Option<Span> {
    if sid != 0 && y.on && SlotOf(sid) in y.inflight && y.inflight[SlotOf(sid)].id == sid
    then Some(y.inflight[SlotOf(sid)].(endNs := now, allocBytes := alloc, freeBytes := free))
    else None
  }

  function End(y: Tracer, sid: nat, alloc: nat, free: nat, now: nat): Tracer {
    var s := Finished(y, sid, alloc, free, now);
    if s.None? then y
    else y.(inflight := y.inflight - {SlotOf(sid)}, buffer := DropOldest(y.buffer + [s.value], y.cap))
  }

  function Taken(y: Tracer, max: nat): nat {
    if !y.on then 0 else if |y.buffer| < max then |y.buffer| else max
  }

  function Read(y: Tracer, max: nat): Tracer {
    y.(buffer := y.buffer[Taken(y, max)..])
  }

  // ----- runs, with the history of one session -----

  /** How a span left the buffer: handed to a reader, or overwritten. */
  datatype Departure = Departure(span: Span, read: bool)

  /**
    * `reserved` are ids taken from the counter by `begin` calls that have not locked yet. `completed` lists the
    * spans recorded since start-up in order, `left` those that are no longer unread, `recorded` all ids ever recorded.
    */
  datatype System = System(tracer: Tracer, reserved: set<nat>, completed: seq<Span>, left: seq<Departure>, recorded: seq<nat>)

  datatype Action =
    | Init(capacity: nat)
    | Shutdown
    | Reserve
    | StoreSpan(span: Span)
    | EndSpan(sid: nat, alloc: nat, free: nat, now: nat)
    | ReadSpans(max: nat)

  function Departures(spans: seq<Span>, read: bool): (r: seq<Departure>)
    ensures |r| == |spans| && forall i :: 0 <= i < |r| ==> r[i] == Departure(spans[i], read)
  {
    seq(|spans|, i requires 0 <= i < |spans| => Departure(spans[i], read))
  }

  function SpansOf(left: seq<Departure>): (r: seq<Span>)
    ensures |r| == |left| && forall i :: 0 <= i < |r| ==> r[i] == left[i].span
  {
    seq(|left|, i requires 0 <= i < |left| => left[i].span)
  }

  /** One atomic step; a thread stores only an id it reserved, and only once. */
  function Next(y: System, a: Action): System
    requires Accounted(y)
  {
    match a
    case Init(capacity) =>
      if y.tracer.on || !ValidCapacity(capacity) then y
      else y.(tracer := StartUp(y.tracer, capacity), completed := [], left := [])
    case Shutdown => y.(tracer := ShutDown(y.tracer))
    case Reserve =>
      y.(tracer := y.tracer.(lastId := y.tracer.lastId + 1), reserved := y.reserved + {y.tracer.lastId + 1})
    case StoreSpan(p) => if p.id !in y.reserved then y else y.(tracer := Store(y.tracer, p), reserved := y.reserved - {p.id})
    case EndSpan(sid, alloc, free, now) =>
      var s := Finished(y.tracer, sid, alloc, free, now);
      if s.None? then y else
      y.(tracer := End(y.tracer, sid, alloc, free, now),
         completed := y.completed + [s.value],
         left := y.left + if |y.tracer.buffer| < y.tracer.cap then [] else [Departure(y.tracer.buffer[0], false)],
         recorded := y.recorded + [sid])
    case ReadSpans(max) =>
      y.(tracer := Read(y.tracer, max), left := y.left + Departures(y.tracer.buffer[..Taken(y.tracer, max)], true))
  }

  function Run(y: System, actions: seq<Action>): System
    requires Inv(y)
    decreases |actions|
  {
    if actions == [] then y else
    NextKeepsInv(y, actions[0]);
    Run(Next(y, actions[0]), actions[1..])
  }

  /** While on: what left the buffer, then what is unread, is exactly what completed, oldest first. */
  ghost predicate Accounted(y: System) {
    && |y.tracer.buffer| <= y.tracer.cap
    && (y.tracer.on ==> y.tracer.cap >= 2 && y.completed == SpansOf(y.left) + y.tracer.buffer)
  }

  /** Every id is in at most one of: reserved, in flight, recorded. */
  ghost predicate IdsOk(y: System) {
    && NoDup(y.recorded)
    && (forall sid :: sid in y.recorded || sid in y.reserved ==> 0 < sid <= y.tracer.lastId)
    && (forall k :: k in y.tracer.inflight ==>
          var sid := y.tracer.inflight[k].id;
          0 < sid <= y.tracer.lastId && SlotOf(sid) == k && sid !in y.recorded && sid !in y.reserved)
    && (forall sid :: sid in y.reserved ==> sid !in y.recorded)
  }

  ghost predicate Inv(y: System) {
    Accounted(y) && IdsOk(y)
  }

  lemma NextKeepsAccount(y: System, a: Action)
    requires Accounted(y)
    ensures Accounted(Next(y, a))
  {
    var z := Next(y, a);
    if y.tracer.on && a.ReadSpans? {
      ReadKeepsAccount(y, Taken(y.tracer, a.max));
    } else if a.EndSpan? {
      var s := Finished(y.tracer, a.sid, a.alloc, a.free, a.now);
      if s.Some? {
        EndKeepsAccount(y, s.value, z.left);
      }
    }
  }

  lemma ReadKeepsAccount(y: System, n: nat)
    requires Accounted(y) && y.tracer.on && n <= |y.tracer.buffer|
    ensures y.completed == SpansOf(y.left + Departures(y.tracer.buffer[..n], true)) + y.tracer.buffer[n..]
  {
    assert y.tracer.buffer == y.tracer.buffer[..n] + y.tracer.buffer[n..];
    assert SpansOf(y.left + Departures(y.tracer.buffer[..n], true)) == SpansOf(y.left) + y.tracer.buffer[..n];
  }

  lemma EndKeepsAccount(y: System, s: Span, left: seq<Departure>)
    requires Accounted(y) && y.tracer.on
    requires left == y.left + if |y.tracer.buffer| < y.tracer.cap then [] else [Departure(y.tracer.buffer[0], false)]
    ensures y.completed + [s] == SpansOf(left) + DropOldest(y.tracer.buffer + [s], y.tracer.cap)
  {
    if |y.tracer.buffer| < y.tracer.cap {
      assert left == y.left;
    } else {
      assert SpansOf(left) == SpansOf(y.left) + [y.tracer.buffer[0]];
    }
  }

  lemma NextKeepsIds(y: System, a: Action)
    requires Accounted(y) && IdsOk(y)
    ensures IdsOk(Next(y, a))
  {
  }

  lemma NextKeepsInv(y: System, a: Action)
    requires Inv(y)
    ensures Inv(Next(y, a))
  {
    NextKeepsAccount(y, a);
    NextKeepsIds(y, a);
  }

  const OFF := System(Tracer(false, 0, 0, map[], []), {}, [], [], [])

  /** How many departures were reads, or were overwritten. */
  function Count(left: seq<Departure>, read: bool): nat
    decreases |left|
  {
    if left == [] then 0 else (if left[0].read == read then 1 else 0) + Count(left[1..], read)
  }

  lemma {:induction false} CountsAddUp(left: seq<Departure>)
    ensures Count(left, true) + Count(left, false) == |left|
    decreases |left|
  {
    if left != [] {
      CountsAddUp(left[1..]);
    }
  }

  /**
    * After any run: the unread spans are the most recently completed ones in completion order, everything older
    * was read or overwritten oldest first, completed = read + pending + overwritten, and no id is recorded twice.
    */
  lemma {:induction false} EveryRunAccountsForEverySpan(actions: seq<Action>)
    ensures Inv(OFF)
    ensures var z := Run(OFF, actions);
            && NoDup(z.recorded)
            && (z.tracer.on ==>
                  && |z.tracer.buffer| <= z.tracer.cap && |z.tracer.buffer| <= |z.completed|
                  && z.tracer.buffer == z.completed[|z.completed| - |z.tracer.buffer|..]
                  && SpansOf(z.left) == z.completed[..|z.completed| - |z.tracer.buffer|]
                  && |z.completed| == Count(z.left, true) + |z.tracer.buffer| + Count(z.left, false))
  {
    var z := Run(OFF, actions);
    RunKeepsInv(OFF, actions);
    CountsAddUp(z.left);
    if z.tracer.on {
      assert |z.completed| == |z.left| + |z.tracer.buffer|;
      assert z.tracer.buffer == z.completed[|z.left|..];
      assert SpansOf(z.left) == z.completed[..|z.left|];
    }
  }

  lemma {:induction false} RunKeepsInv(y: System, actions: seq<Action>)
    requires Inv(y)
    ensures Inv(Run(y, actions))
    decreases |actions|
  {
    if actions != [] {
      NextKeepsInv(y, actions[0]);
      RunKeepsInv(Next(y, actions[0]), actions[1..]);
    }
  }

  /** Starting up empties the buffer and forgets spans in flight; it needs a power of two from 2 on. */
  lemma SessionBegins(y: System, capacity: nat)
    requires Inv(y) && !y.tracer.on
    ensures var z := Next(y, Init(capacity));
            if capacity >= 2 && Bits.IsPow2(capacity)
            then z == System(Tracer(true, capacity, y.tracer.lastId, map[], []), y.reserved, [], [], y.recorded)
            else z == y
  {
    if capacity > 0 {
      Bits.PowerOfTwoTest(capacity);
    }
  }

  /** An id is reserved once: it is new to every other place. */
  lemma ReservedIdIsNew(y: System)
    requires Inv(y)
    ensures var z, sid := Next(y, Reserve), y.tracer.lastId + 1;
            && z.reserved == y.reserved + {sid} && z.tracer == y.tracer.(lastId := sid)
            && sid !in y.reserved && sid !in y.recorded
            && forall k :: k in y.tracer.inflight ==> y.tracer.inflight[k].id != sid
  {
  }

  /** A reader is handed the oldest unread spans, as many as it asks for or as there are. */
  lemma ReadHandsOut(y: System, max: nat)
    requires Inv(y) && y.tracer.on
    ensures var z := Next(y, ReadSpans(max));
            exists n :: 0 <= n <= |y.tracer.buffer| && (n == max || (n == |y.tracer.buffer| && n < max))
                        && z.tracer == y.tracer.(buffer := y.tracer.buffer[n..])
                        && z.left == y.left + Departures(y.tracer.buffer[..n], true)
  {
    assert y.tracer.buffer[Taken(y.tracer, max)..] == Next(y, ReadSpans(max)).tracer.buffer;
  }

  // ----- when a span is recorded -----

  predicate InFlight(y: System, p: Span) {
    y.tracer.on && SlotOf(p.id) in y.tracer.inflight && y.tracer.inflight[SlotOf(p.id)] == p
  }

  /** A step that makes a later `end` of `sid` come to nothing. */
  predicate Evicts(y: System, a: Action, sid: nat) {
    || a.Shutdown?
    || (a.EndSpan? && a.sid == sid)
    || (a.StoreSpan? && a.span.id in y.reserved && SlotOf(a.span.id) == SlotOf(sid))
  }

  predicate Evicted(y: System, actions: seq<Action>, sid: nat)
    requires Inv(y)
    decreases |actions|
  {
    actions != [] && (
      || Evicts(y, actions[0], sid)
      || (NextKeepsInv(y, actions[0]); Evicted(Next(y, actions[0]), actions[1..], sid)))
  }

  /** Begun, not in flight, and unable to be so again. */
  predicate Gone(y: System, sid: nat) {
    && sid <= y.tracer.lastId && sid !in y.reserved
    && (y.tracer.on ==> forall k :: k in y.tracer.inflight ==> y.tracer.inflight[k].id != sid)
  }

  lemma {:induction false} GoneForGood(y: System, actions: seq<Action>, sid: nat)
    requires Inv(y) && Gone(y, sid)
    ensures Inv(Run(y, actions)) && Gone(Run(y, actions), sid)
    decreases |actions|
  {
    if actions != [] {
      NextKeepsInv(y, actions[0]);
      assert Gone(Next(y, actions[0]), sid);
      GoneForGood(Next(y, actions[0]), actions[1..], sid);
    }
  }

  lemma {:induction false} InFlightUnlessEvicted(y: System, p: Span, others: seq<Action>)
    requires Inv(y) && InFlight(y, p)
    ensures Inv(Run(y, others))
    ensures if Evicted(y, others, p.id) then Gone(Run(y, others), p.id) else InFlight(Run(y, others), p)
    decreases |others|
  {
    if others != [] {
      NextKeepsInv(y, others[0]);
      var y1 := Next(y, others[0]);
      if Evicts(y, others[0], p.id) {
        assert Gone(y1, p.id);
        GoneForGood(y1, others[1..], p.id);
      } else {
        assert InFlight(y1, p);
        InFlightUnlessEvicted(y1, p, others[1..]);
      }
    }
  }

  /**
    * A span begun while the tracer is on is recorded by its `end`, with the values given there, exactly when
    * nothing evicted it in between: no begin stored into its slot, no earlier end of it, no shutdown.
    */
  lemma RecordedExactlyWhenNotEvicted(
    y: System, p: Span, others: seq<Action>, alloc: nat, free: nat, now: nat)
    requires Inv(y) && y.tracer.on && p.id in y.reserved
    ensures Inv(Next(y, StoreSpan(p))) && Inv(Run(Next(y, StoreSpan(p)), others))
    ensures var y1 := Next(y, StoreSpan(p));
            var z := Run(y1, others);
            Next(z, EndSpan(p.id, alloc, free, now)).completed ==
            z.completed + if Evicted(y1, others, p.id) then [] else [p.(endNs := now, allocBytes := alloc, freeBytes := free)]
  {
    NextKeepsInv(y, StoreSpan(p));
    InFlightUnlessEvicted(Next(y, StoreSpan(p)), p, others);
  }

  /** A span survives every begin less than 256 ids away. */
  lemma NearbyBeginsSpare(y: System, p: Span, q: Span, alloc: nat, free: nat, now: nat)
    requires Inv(y) && y.tracer.on && p.id in y.reserved && q.id in y.reserved
    requires p.id < q.id < p.id + 256 || q.id < p.id < q.id + 256
    ensures Inv(Next(y, StoreSpan(p))) && Inv(Next(Next(y, StoreSpan(p)), StoreSpan(q)))
    ensures var z := Next(Next(y, StoreSpan(p)), StoreSpan(q));
            var done := Span(p.id, p.parent, p.dimension, p.task, p.op, p.startNs, now, alloc, free);
            Next(z, EndSpan(p.id, alloc, free, now)).completed == z.completed + [done]
  {
    NextKeepsInv(y, StoreSpan(p));
    NextKeepsInv(Next(y, StoreSpan(p)), StoreSpan(q));
    if p.id < q.id {
      SlotsMeetExactlyWhen(p.id, q.id - p.id);
    } else {
      SlotsMeetExactlyWhen(q.id, p.id - q.id);
    }
  }

  /** Two begins 256 ids apart: the second evicts the first, whose end then records nothing. */
  lemma SecondBeginEvicts(y: System, p: Span, q: Span, alloc: nat, free: nat, now: nat)
    requires Inv(y) && y.tracer.on && p.id in y.reserved && q.id in y.reserved && q.id == p.id + INFLIGHT_MAX
    ensures Inv(Next(y, StoreSpan(p))) && Inv(Next(Next(y, StoreSpan(p)), StoreSpan(q)))
    ensures var z := Next(Next(y, StoreSpan(p)), StoreSpan(q));
            Next(z, EndSpan(p.id, alloc, free, now)) == z
  {
    NextKeepsInv(y, StoreSpan(p));
    NextKeepsInv(Next(y, StoreSpan(p)), StoreSpan(q));
    assert SlotOf(q.id) == SlotOf(p.id);
  }
}
