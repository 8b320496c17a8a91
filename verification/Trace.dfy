/** The span ring in memory: monotone counters over a power-of-two array, and the table of spans in flight. */
module TraceRuntime {
  import opened Sequences
  import opened Bits
  import P = TraceProtocol

  datatype Status = OK | InvalidArg | AlreadyExists

  datatype InFlight = InFlight(spanId: nat, partial: P.Span, inUse: bool)

  const BLANK := P.Span(0, 0, 0, 0, "", 0, 0, 0, 0)

  // ----- the ring as a value -----

  /** What counters `r` and `w` delimit in a ring: entry i of the queue sits at (r + i) mod capacity. */
  ghost function RingView(ring: seq<P.Span>, r: nat, w: nat): (q: seq<P.Span>)
    requires |ring| > 0 && r <= w <= r + |ring|
    ensures |q| == w - r && forall i :: 0 <= i < |q| ==> q[i] == ring[(r + i) % |ring|]
  {
    seq(w - r, i requires 0 <= i < w - r => ring[(r + i) % |ring|])
  }

  lemma DistinctSlots(a: nat, b: nat, cap: nat)
    requires a < b < a + cap
    ensures a % cap != b % cap
  {
    if a % cap == b % cap {
      var qa, qb := a / cap, b / cap;
      assert a == qa * cap + a % cap && b == qb * cap + b % cap;
      assert (qb - qa) * cap == b - a;
      MultipleTooSmall(qb - qa, cap);
    }
  }

  /** Writing at the write counter appends, and loses the oldest entry exactly when the ring was full. */
  lemma RingPush(ring: seq<P.Span>, r: nat, w: nat, s: P.Span)
    requires |ring| > 0 && r <= w <= r + |ring|
    ensures var r' := if w + 1 - r > |ring| then w + 1 - |ring| else r;
            RingView(ring[w % |ring| := s], r', w + 1) == P.DropOldest(RingView(ring, r, w) + [s], |ring|)
  {
    var cap := |ring|;
    var r' := if w + 1 - r > cap then w + 1 - cap else r;
    var q, q' := RingView(ring, r, w), RingView(ring[w % cap := s], r', w + 1);
    forall i | 0 <= i < w - r'
      ensures q'[i] == q[r' - r + i]
    {
      DistinctSlots(r' + i, w, cap);
      assert r + (r' - r + i) == r' + i;
    }
    assert q'[w - r'] == s;
    assert q' == P.DropOldest(q + [s], cap);
  }

  /** Advancing the read counter drops the oldest entry, which is the one at its slot. */
  /** The same, with the slot written, the new ring and its counter under their own names. */
  lemma RingPushed(ring: seq<P.Span>, r: nat, w: nat, s: P.Span, i: nat, ring': seq<P.Span>, r': nat, cap: nat)
    requires |ring| == cap > 0 && r <= w <= r + cap && i == w % cap && ring' == ring[i := s]
    requires r' == if w + 1 - r > cap then w + 1 - cap else r
    ensures RingView(ring', r', w + 1) == P.DropOldest(RingView(ring, r, w) + [s], cap)
  {
    RingPush(ring, r, w, s);
  }

  lemma RingPop(ring: seq<P.Span>, r: nat, w: nat)
    requires |ring| > 0 && r < w <= r + |ring|
    ensures RingView(ring, r, w)[0] == ring[r % |ring|]
    ensures RingView(ring, r + 1, w) == RingView(ring, r, w)[1..]
  {
    var q, q' := RingView(ring, r, w), RingView(ring, r + 1, w);
    forall i | 0 <= i < |q'|
      ensures q'[i] == q[i + 1]
    {
      assert r + 1 + i == r + (i + 1);
    }
  }

  ghost function Table(inflight: seq<InFlight>): map<nat, P.Span> {
    map k: nat | k < |inflight| && inflight[k].inUse :: inflight[k].partial
  }

  ghost predicate TableOk(inflight: seq<InFlight>) {
    && |inflight| == P.INFLIGHT_MAX
    && forall k :: 0 <= k < |inflight| && inflight[k].inUse ==> inflight[k].partial.id == inflight[k].spanId
  }

  class TraceRing {
    var ring: array<P.Span>
    var cap: nat
    var writeIdx: nat
    var readIdx: nat
    var lastId: nat
    const inflight: array<InFlight>
    var initialized: bool

    ghost predicate Valid()
      reads this, ring, inflight
    {
      && ring.Length == cap
      && TableOk(inflight[..])
      && readIdx <= writeIdx
      && (initialized ==> RingOk())
    }

    ghost predicate RingOk()
      reads this, ring
    {
      ring.Length == cap && cap >= 2 && IsPow2(cap) && readIdx <= writeIdx <= readIdx + cap
    }

    ghost function Unread(): seq<P.Span>
      requires RingOk()
      reads this, ring
    {
      RingView(ring[..], readIdx, writeIdx)
    }

    ghost function Value(): P.Tracer
      requires Valid()
      reads this, ring, inflight
    {
      P.Tracer(initialized, if initialized then cap else 0, lastId, Table(inflight[..]),
               if initialized then Unread() else [])
    }

    constructor ()
      ensures Valid() && fresh(ring) && fresh(inflight) && Value() == P.OFF.tracer
    {
      ring := new P.Span[0];
      cap, writeIdx, readIdx, lastId, initialized := 0, 0, 0, 0, false;
      inflight := new InFlight[P.INFLIGHT_MAX](_ => InFlight(0, BLANK, false));
    }

    /** The index `counter & (cap - 1)` is the counter modulo the capacity. */
    method Slot(counter: nat) returns (i: nat)
      requires RingOk()
      ensures i == counter % cap
    {
      ghost var k: nat :| cap == Pow2(k);
      MaskLow(counter, k);
      i := BitAnd(counter, cap - 1);
    }

    /** Accepts exactly the powers of two from 2 on. */
    method Init(capacity: nat) returns (rc: Status)
      requires Valid()
      modifies this, inflight
      ensures Valid() && (initialized && !old(initialized) ==> fresh(ring))
      ensures rc == InvalidArg <==> capacity < 2 || !IsPow2(capacity)
      ensures rc == AlreadyExists <==> capacity >= 2 && IsPow2(capacity) && old(initialized)
      ensures Value() == if rc == OK then P.StartUp(old(Value()), capacity) else old(Value())
      ensures rc != InvalidArg <==> P.ValidCapacity(capacity)
      ensures rc == OK ==> Value() == P.Tracer(true, capacity, old(lastId), map[], [])
    {
      if capacity > 0 {
        PowerOfTwoTest(capacity);
      }
      if capacity < 2 || BitAnd(capacity, capacity - 1) != 0 {
        return InvalidArg;
      }
      if initialized {
        return AlreadyExists;
      }
      ring := new P.Span[capacity](_ => BLANK);
      cap, writeIdx, readIdx, initialized := capacity, 0, 0, true;
      forall k | 0 <= k < inflight.Length {
        inflight[k] := InFlight(0, BLANK, false);
      }
      rc := OK;
      assert Value() == P.StartUp(old(Value()), capacity);
    }

    method Shutdown()
      requires Valid()
      modifies this
      ensures Valid() && Value() == P.ShutDown(old(Value()))
      ensures !initialized && Value().buffer == [] && Value().lastId == old(lastId)
      ensures old(initialized) ==> fresh(ring)
      ensures !old(initialized) ==> ring == old(ring)
    {
      if !initialized {
        return;
      }
      ring := new P.Span[0];
      cap, initialized := 0, false;
    }

    /** The lock-free half of `begin`: take the next id. */
    method Reserve() returns (sid: nat)
      requires Valid()
      modifies this`lastId
      ensures Valid() && sid == old(lastId) + 1
      ensures Value() == old(Value()).(lastId := sid)
    {
      lastId := lastId + 1;
      sid := lastId;
    }

    /** The locked half: clear the slot and fill it, whatever it held. */
    method Begin(sid: nat, parent: nat, dimension: nat, task: nat, op: Option<string>, now: nat)
      requires Valid()
      modifies inflight
      ensures Valid() && Value() == P.Store(old(Value()), P.Started(sid, parent, dimension, task, op, now))
      ensures initialized ==> && sid % 256 in Value().inflight
                              && Value().inflight == old(Value()).inflight[sid % 256 := Value().inflight[sid % 256]]
                              && var p := Value().inflight[sid % 256];
                                 p == P.Span(sid, parent, dimension, task, p.op, now, 0, 0, 0) && P.NameFits(op, p.op)
    {
      P.StartedMeans(sid, parent, dimension, task, op, now);
      if !initialized {
        return;
      }
      var name := "";
      if op.Some? {
        var len := 0;
        while len < |op.value| && len < P.OP_MAX - 1
          invariant len <= |op.value| && len <= P.OP_MAX - 1
        {
          len := len + 1;
        }
        name := op.value[..len];
        assert len == |op.value| ==> name == op.value;
      }
      var slot := sid % P.INFLIGHT_MAX;
      inflight[slot] := InFlight(sid, P.Span(sid, parent, dimension, task, name, now, 0, 0, 0), true);
      TableSet(old(inflight[..]), slot, inflight[slot]);
    }

    /** The recorded span, if any, is also what the emit callback is given. */
    method End(sid: nat, alloc: nat, free: nat, now: nat) returns (emitted: Option<P.Span>)
      requires Valid()
      modifies this`writeIdx, this`readIdx, ring, inflight
      ensures Valid() && Value() == P.End(old(Value()), sid, alloc, free, now)
      ensures emitted == P.Finished(old(Value()), sid, alloc, free, now)
      ensures var known := old(Value()).inflight;
              && (emitted.Some? <==> initialized && sid != 0 && sid % 256 in known && known[sid % 256].id == sid)
              && (emitted.Some? ==>
                    var p := known[sid % 256];
                    && emitted.value == P.Span(p.id, p.parent, p.dimension, p.task, p.op, p.startNs, now, alloc, free)
                    && Value().inflight == known - {sid % 256})
    {
      if sid == 0 || !initialized {
        return None;
      }
      var slot := sid % P.INFLIGHT_MAX;
      var e := inflight[slot];
      if !e.inUse || e.spanId != sid {
        return None;
      }
      var s := e.partial.(endNs := now, allocBytes := alloc, freeBytes := free);
      Record(s);
      inflight[slot] := e.(partial := s, inUse := false);
      TableSet(old(inflight[..]), slot, inflight[slot]);
      emitted := Some(s);
    }

    method Store(i: nat, s: P.Span)
      requires i < ring.Length
      modifies ring
      ensures ring[..] == old(ring[..])[i := s]
    {
      ring[i] := s;
    }

    /** Write to the ring; if it was full the oldest span is lost. */
    method Record(s: P.Span)
      requires RingOk()
      modifies this`writeIdx, this`readIdx, ring
      ensures RingOk() && Unread() == P.DropOldest(old(Unread()) + [s], cap)
    {
      ghost var before, r, w := ring[..], readIdx, writeIdx;
      var i := Slot(writeIdx);
      Store(i, s);
      writeIdx := writeIdx + 1;
      if writeIdx - readIdx > cap {
        readIdx := writeIdx - cap;
      }
      RingPushed(before, r, w, s, i, ring[..], readIdx, cap);
    }

    /** The spans read are the oldest unread ones, oldest first. */
    method Read(max: nat) returns (out: seq<P.Span>)
      requires Valid()
      modifies this`readIdx
      ensures Valid() && Value() == P.Read(old(Value()), max)
      ensures out == old(Value()).buffer[..P.Taken(old(Value()), max)]
      ensures out + Value().buffer == old(Value()).buffer && (|out| == max || (|out| < max && Value().buffer == []))
    {
      out := [];
      if max == 0 || !initialized {
        return;
      }
      var available := writeIdx - readIdx;
      var count := if available < max then available else max;
      out := CopyOut(count);
    }

    /** The copying loop. */
    method CopyOut(count: nat) returns (out: seq<P.Span>)
      requires RingOk() && count <= |Unread()|
      modifies this`readIdx
      ensures RingOk() && readIdx == old(readIdx) + count
      ensures out == old(Unread())[..count] && Unread() == old(Unread())[count..]
    {
      out := [];
      ghost var before := Unread();
      for i := 0 to count
        invariant readIdx == old(readIdx) + i && RingOk()
        invariant Unread() == before[i..] && out == before[..i]
      {
        var x := Pop();
        out := out + [x];
      }
    }

    /** Take the oldest unread span. */
    method Pop() returns (x: P.Span)
      requires RingOk() && Unread() != []
      modifies this`readIdx
      ensures RingOk() && readIdx == old(readIdx) + 1 && x == old(Unread())[0] && Unread() == old(Unread())[1..]
    {
      RingPop(ring[..], readIdx, writeIdx);
      var idx := Slot(readIdx);
      x := ring[idx];
      readIdx := readIdx + 1;
    }

    method Pending() returns (n: nat)
      requires Valid()
      ensures n == writeIdx - readIdx && (initialized ==> n == |Value().buffer|)
    {
      n := writeIdx - readIdx;
    }
  }

  lemma TableSet(before: seq<InFlight>, slot: nat, e: InFlight)
    requires slot < |before|
    ensures Table(before[slot := e]) == if e.inUse then Table(before)[slot := e.partial] else Table(before) - {slot}
  {
  }
}
