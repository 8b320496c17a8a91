/** The scheduler object: intrusive head/tail queues whose critical sections refine the protocol's steps. */
module SchedulerRuntime {
  import opened Sequences
  import opened SchedulerProtocol

  class TaskEntry {
    var next: TaskEntry?
    const id: TaskId
    const priority: nat
    var state: TaskState
    var cancelFlag: bool

    constructor (id: TaskId, priority: nat)
      ensures Is(Task(id, priority, Queued, false)) && next == null
    {
      this.id, this.priority, state, cancelFlag, next := id, priority, Queued, false, null;
    }

    ghost predicate Is(t: Task)
      reads this
    {
      id == t.id && priority == t.priority && state == t.state && cancelFlag == t.cancelFlag
    }
  }

  /** The entry at position `i` of a queue of task indices, or null past its end. */
  ghost function Node(tasks: seq<TaskEntry>, q: seq<nat>, i: nat): TaskEntry? {
    if i < |q| && q[i] < |tasks| then tasks[q[i]] else null
  }

  /** `links[u]` is the `next` pointer of entry number `u`. */
  ghost predicate NextOk(tasks: seq<TaskEntry>, links: seq<TaskEntry?>, q: seq<nat>, i: nat)
    requires i < |q| && |links| == |tasks|
  {
    q[i] < |tasks| && links[q[i]] == Node(tasks, q, i + 1)
  }

  /** `head`, `tail` and the `next` pointers spell out the queue `q`. */
  ghost predicate Spells(head: TaskEntry?, tail: TaskEntry?, tasks: seq<TaskEntry>, links: seq<TaskEntry?>, q: seq<nat>)
    requires |links| == |tasks|
  {
    && head == Node(tasks, q, 0) && tail == (if q == [] then null else Node(tasks, q, |q| - 1))
    && forall i :: 0 <= i < |q| ==> NextOk(tasks, links, q, i)
  }

  /** A queue is still spelled out after changes to entries that are not in it. */
  lemma SpellsKept(head: TaskEntry?, tail: TaskEntry?, tasks: seq<TaskEntry>, links: seq<TaskEntry?>,
                   tasks': seq<TaskEntry>, links': seq<TaskEntry?>, q: seq<nat>)
    requires |links| == |tasks| && |links'| == |tasks'| && tasks <= tasks'
    requires Spells(head, tail, tasks, links, q)
    requires forall u :: u in q && u < |tasks| ==> links'[u] == links[u]
    ensures Spells(head, tail, tasks', links', q)
  {
    forall i | 0 <= i < |q|
      ensures NextOk(tasks', links', q, i) && q[i] < |tasks|
    {
      assert NextOk(tasks, links, q, i) && q[i] in q;
      assert i + 1 < |q| ==> NextOk(tasks, links, q, i + 1);
    }
  }

  /** Appending: the old tail points at the new entry, which points nowhere. */
  lemma SpellsAppend(head: TaskEntry?, tail: TaskEntry?, tasks: seq<TaskEntry>, links: seq<TaskEntry?>, q: seq<nat>, k: nat)
    requires |links| == |tasks| && k < |tasks| && k !in q && StrictlySorted(q)
    requires Spells(head, tail, tasks, links, q)
    ensures q != [] ==> q[|q| - 1] < |tasks| && tail == tasks[q[|q| - 1]]
    ensures var links1 := links[k := null];
            var links2 := if q == [] then links1 else links1[q[|q| - 1] := tasks[k]];
            Spells(if q == [] then tasks[k] else head, tasks[k], tasks, links2, q + [k])
  {
    if q != [] {
      assert NextOk(tasks, links, q, |q| - 1);
    }
    var links1 := links[k := null];
    var links2 := if q == [] then links1 else links1[q[|q| - 1] := tasks[k]];
    var q' := q + [k];
    forall i | 0 <= i < |q'|
      ensures NextOk(tasks, links2, q', i)
    {
      if i < |q| {
        assert NextOk(tasks, links, q, i) && q[i] in q;
        assert i + 1 < |q| ==> NextOk(tasks, links, q, i + 1);
      }
    }
  }

  /** Removing the head leaves its successor in front. */
  lemma SpellsRemoveHead(head: TaskEntry?, tail: TaskEntry?, tasks: seq<TaskEntry>, links: seq<TaskEntry?>, q: seq<nat>)
    requires |links| == |tasks| && q != [] && StrictlySorted(q)
    requires Spells(head, tail, tasks, links, q)
    ensures q[0] < |tasks| && head == tasks[q[0]]
    ensures links[q[0]] == null <==> |q| == 1
    ensures Spells(links[q[0]], if |q| == 1 then null else tail, tasks, links[q[0] := null], q[1..])
  {
    assert NextOk(tasks, links, q, 0);
    assert |q| > 1 ==> NextOk(tasks, links, q, 1);
    var rest, links' := q[1..], links[q[0] := null];
    forall i | 0 <= i < |rest|
      ensures NextOk(tasks, links', rest, i)
    {
      assert NextOk(tasks, links, q, i + 1);
      assert i + 2 < |q| ==> NextOk(tasks, links, q, i + 2);
    }
    if |rest| > 0 {
      assert NextOk(tasks, links, q, |q| - 1);
    }
  }

  /** Heads, tails and `next` pointers of all levels. */
  datatype Pointers = Pointers(heads: seq<TaskEntry?>, tails: seq<TaskEntry?>, links: seq<TaskEntry?>)

  ghost predicate AllSpelled(tasks: seq<TaskEntry>, w: Pointers, queues: seq<seq<nat>>) {
    && |w.heads| == |w.tails| == |queues| == LEVELS && |w.links| == |tasks|
    && forall p :: 0 <= p < LEVELS ==> Spells(w.heads[p], w.tails[p], tasks, w.links, queues[p])
  }

  /** The pointer writes of `enqueue`. */
  ghost function Linked(tasks: seq<TaskEntry>, w: Pointers, q: seq<nat>, p: nat, k: nat): Pointers
    requires |w.heads| == |w.tails| == LEVELS && |w.links| == |tasks| && p < LEVELS && k < |tasks|
    requires q != [] ==> q[|q| - 1] < |tasks|
  {
    var links := w.links[k := null];
    if q == [] then Pointers(w.heads[p := tasks[k]], w.tails[p := tasks[k]], links)
    else Pointers(w.heads, w.tails[p := tasks[k]], links[q[|q| - 1] := tasks[k]])
  }

  lemma EnqueueSpelled(s: Sched, tasks: seq<TaskEntry>, w: Pointers, k: nat)
    requires AllSpelled(tasks, w, s.queues) && k < |tasks| == |s.tasks|
    requires forall p :: 0 <= p < LEVELS ==> QueueOk(s.tasks, s.queues[p], p) && k !in s.queues[p]
    ensures var p := Level(s.tasks[k].priority);
            var q := s.queues[p];
            && (w.tails[p] == null <==> q == []) && (q != [] ==> q[|q| - 1] < |tasks| && w.tails[p] == tasks[q[|q| - 1]])
            && AllSpelled(tasks, Linked(tasks, w, q, p, k), SchedulerProtocol.Enqueue(s, k).queues)
  {
    var p := Level(s.tasks[k].priority);
    var q := s.queues[p];
    assert QueueOk(s.tasks, q, p);
    SpellsAppend(w.heads[p], w.tails[p], tasks, w.links, q, k);
    var w', queues' := Linked(tasks, w, q, p, k), SchedulerProtocol.Enqueue(s, k).queues;
    forall r | 0 <= r < LEVELS
      ensures Spells(w'.heads[r], w'.tails[r], tasks, w'.links, queues'[r])
    {
      if r != p {
        LevelsDisjoint(s.tasks, s.queues, p, r);
        assert q != [] ==> q[|q| - 1] in q;
        SpellsKept(w.heads[r], w.tails[r], tasks, w.links, tasks, w'.links, s.queues[r]);
      }
    }
  }

  lemma LevelsDisjoint(tasks: seq<Task>, queues: seq<seq<nat>>, p: nat, r: nat)
    requires |queues| == LEVELS && p < LEVELS && r < LEVELS && p != r
    requires QueueOk(tasks, queues[p], p) && QueueOk(tasks, queues[r], r)
    ensures forall u :: u in queues[p] ==> u !in queues[r]
  {
  }

  /** The pointer writes of `dequeue_highest` on level `p`. */
  ghost function Unlinked(tasks: seq<TaskEntry>, w: Pointers, q: seq<nat>, p: nat): Pointers
    requires |w.heads| == |w.tails| == LEVELS && |w.links| == |tasks| && p < LEVELS && q != [] && q[0] < |tasks|
  {
    var front := w.links[q[0]];
    Pointers(w.heads[p := front], if front == null then w.tails[p := null] else w.tails, w.links[q[0] := null])
  }

  lemma PopSpelled(s: Sched, tasks: seq<TaskEntry>, w: Pointers, p: nat)
    requires AllSpelled(tasks, w, s.queues) && |tasks| == |s.tasks| && p < LEVELS && s.queues[p] != []
    requires forall r :: 0 <= r < LEVELS ==> QueueOk(s.tasks, s.queues[r], r)
    ensures var q := s.queues[p];
            && q[0] < |tasks| && w.heads[p] == tasks[q[0]]
            && AllSpelled(tasks, Unlinked(tasks, w, q, p), Pop(s, p).queues)
  {
    var q := s.queues[p];
    assert QueueOk(s.tasks, q, p) && q[0] in q;
    SpellsRemoveHead(w.heads[p], w.tails[p], tasks, w.links, q);
    var w', queues' := Unlinked(tasks, w, q, p), Pop(s, p).queues;
    forall r | 0 <= r < LEVELS
      ensures Spells(w'.heads[r], w'.tails[r], tasks, w'.links, queues'[r])
    {
      if r != p {
        LevelsDisjoint(s.tasks, s.queues, p, r);
        SpellsKept(w.heads[r], w.tails[r], tasks, w.links, tasks, w'.links, s.queues[r]);
      }
    }
  }

  ghost function Drained(s: Sched): Option<nat>
    requires Structure(s)
  {
    StructureInRange(s);
    Drain(s).1
  }

  /** One turn of the dispatch loop, seen from the value of the whole loop. */
  ghost predicate Turn(s: Sched, s': Sched, more: bool)
    requires Structure(s)
  {
    StructureInRange(s);
    if more then Structure(s') && InRange(s') && Drain(s') == Drain(s) && TotalLen(s'.queues) < TotalLen(s.queues)
    else s' == Drain(s).0 && InRange(s')
  }

  lemma DrainUnfolds(s: Sched)
    requires Structure(s) && s.running < s.maxConcurrent
    ensures var p := Highest(s.queues, LEVELS);
            if p < 0 then Turn(s, s, false) && Drained(s).None?
            else
              var k := s.queues[p][0];
              k < |s.tasks| &&
              if s.tasks[k].cancelFlag then Turn(s, SetState(Pop(s, p), k, Cancelled), true)
              else Turn(s, SetState(Pop(s, p), k, Running).(running := s.running + 1), false) && Drained(s) == Some(k)
  {
    StructureInRange(s);
    var p := Highest(s.queues, LEVELS);
    if p >= 0 {
      var k := s.queues[p][0];
      TotalLenUpdate(s.queues, p, s.queues[p][1..]);
      if s.tasks[k].cancelFlag {
        PopKeepsStructure(s, p, Cancelled);
        StructureInRange(SetState(Pop(s, p), k, Cancelled));
      } else {
        PopKeepsStructure(s, p, Running);
        StructureInRange(SetState(Pop(s, p), k, Running));
      }
    }
  }

  class Scheduler {
    var maxConcurrent: nat
    var runningCount: nat
    var taskSeq: nat
    var tasks: seq<TaskEntry>
    const qHead: array<TaskEntry?>
    const qTail: array<TaskEntry?>
    ghost var abs: Sched
    ghost var starts: seq<nat>
    ghost var wires: Pointers

    ghost predicate EntriesMatch()
      reads `tasks, `abs, `wires, tasks
    {
      && |tasks| == |abs.tasks| == |wires.links|
      && (forall i, j :: 0 <= i < j < |tasks| ==> tasks[i] != tasks[j])
      && (forall i :: 0 <= i < |tasks| ==> tasks[i].Is(abs.tasks[i]) && tasks[i].next == wires.links[i])
    }

    /** `wires` holds the pointers of the queue heads and tails and of the entries. */
    ghost predicate Wired()
      reads `tasks, `abs, `wires, qHead, qTail, tasks
    {
      && qHead != qTail && qHead.Length == LEVELS && qTail.Length == LEVELS
      && qHead[..] == wires.heads && qTail[..] == wires.tails && EntriesMatch()
    }

    ghost predicate Refines()
      reads `tasks, `abs, `wires, `maxConcurrent, `runningCount, `taskSeq, qHead, qTail, tasks
    {
      && Wired() && AllSpelled(tasks, wires, abs.queues)
      && maxConcurrent == abs.maxConcurrent && runningCount == abs.running && taskSeq == abs.taskSeq
    }

    ghost predicate Valid()
      reads this, qHead, qTail, tasks
    {
      Refines() && Inv(System(abs, starts))
    }

    constructor (maxConcurrent: nat)
      ensures Valid() && System(abs, starts) == Fresh(maxConcurrent) && fresh(qHead) && fresh(qTail) && tasks == []
      ensures abs.maxConcurrent == if maxConcurrent == 0 then 32 else maxConcurrent
    {
      this.maxConcurrent, runningCount, taskSeq, tasks := if maxConcurrent != 0 then maxConcurrent else 32, 0, 0, [];
      qHead := new TaskEntry?[LEVELS](_ => null);
      qTail := new TaskEntry?[LEVELS](_ => null);
      abs, starts := Fresh(maxConcurrent).sched, [];
      wires := Pointers(seq(LEVELS, _ => null), seq(LEVELS, _ => null), []);
      FreshInvariant(maxConcurrent);
    }

    /** Append entry number `k` to the queue of its level. */
    method Enqueue(t: TaskEntry, ghost k: nat)
      requires Refines() && k < |tasks| && t == tasks[k]
      requires forall p :: 0 <= p < LEVELS ==> QueueOk(abs.tasks, abs.queues[p], p) && k !in abs.queues[p]
      modifies this`abs, this`wires, qHead, qTail, tasks`next
      ensures Refines() && abs == SchedulerProtocol.Enqueue(old(abs), k)
      ensures var p := if old(abs).tasks[k].priority < 7 then old(abs).tasks[k].priority else 7;
              abs == old(abs).(queues := old(abs).queues[p := old(abs).queues[p] + [k]])
    {
      EnqueueSpelled(abs, tasks, wires, k);
      assert t.Is(abs.tasks[k]);
      ghost var p := Level(t.priority);
      Link(t, k, abs.queues[p]);
      abs := SchedulerProtocol.Enqueue(abs, k);
    }

    /** The writes of `enqueue`: `t` becomes the tail of its level, and the old tail's successor. */
    method Link(t: TaskEntry, ghost k: nat, ghost q: seq<nat>)
      requires Wired() && k < |tasks| && t == tasks[k]
      requires q != [] ==> q[|q| - 1] < |tasks|
      requires qTail[Level(t.priority)] == if q == [] then null else tasks[q[|q| - 1]]
      modifies this`wires, qHead, qTail, tasks`next
      ensures Wired() && wires == Linked(tasks, old(wires), q, Level(t.priority), k)
    {
      var p := Level(t.priority);
      wires := Linked(tasks, wires, q, p, k);
      t.next := null;
      if qTail[p] != null {
        qTail[p].next := t;
      } else {
        qHead[p] := t;
      }
      qTail[p] := t;
    }

    /** Take the head off level `p`. */
    method PopHead(p: nat) returns (t: TaskEntry)
      requires Refines() && Structure(abs) && p < LEVELS && abs.queues[p] != []
      modifies this`abs, this`wires, qHead, qTail, tasks`next
      ensures Refines() && abs == Pop(old(abs), p)
      ensures old(abs).queues[p][0] < |tasks| && t == tasks[old(abs).queues[p][0]]
    {
      PopSpelled(abs, tasks, wires, p);
      assert qHead[p] == wires.heads[p];
      t := Unlink(p, abs.queues[p]);
      abs := Pop(abs, p);
    }

    /** The writes of `dequeue_highest`: the head's successor becomes the head. */
    method Unlink(p: nat, ghost q: seq<nat>) returns (t: TaskEntry)
      requires Wired() && p < LEVELS && q != [] && q[0] < |tasks| && qHead[p] == tasks[q[0]]
      modifies this`wires, qHead, qTail, tasks`next
      ensures Wired() && wires == Unlinked(tasks, old(wires), q, p) && t == tasks[q[0]]
    {
      t := qHead[p];
      wires := Unlinked(tasks, wires, q, p);
      qHead[p] := t.next;
      if qHead[p] == null {
        qTail[p] := null;
      }
      t.next := null;
    }

    /** The head of the highest non-empty queue, or null. */
    method DequeueHighest() returns (t: TaskEntry?)
      requires Refines() && Structure(abs)
      modifies this`abs, this`wires, qHead, qTail, tasks`next
      ensures Refines()
      ensures var p := Highest(old(abs).queues, LEVELS);
              if p < 0 then t == null && abs == old(abs)
              else && abs == Pop(old(abs), p) && old(abs).queues[p][0] < |tasks| && t == tasks[old(abs).queues[p][0]]
    {
      var p := LEVELS;
      while p > 0
        invariant 0 <= p <= LEVELS && Refines() && abs == old(abs)
        invariant Highest(abs.queues, p) == Highest(abs.queues, LEVELS)
      {
        p := p - 1;
        HeadTellsEmpty(p);
        if qHead[p] != null {
          t := PopHead(p);
          return;
        }
      }
      return null;
    }

    lemma HeadTellsEmpty(p: nat)
      requires Refines() && p < LEVELS
      ensures qHead[p] == null <==> abs.queues[p] == []
    {
      assert qHead[p] == wires.heads[p];
      assert Spells(wires.heads[p], wires.tails[p], tasks, wires.links, abs.queues[p]);
      assert abs.queues[p] != [] ==> NextOk(tasks, wires.links, abs.queues[p], 0);
    }

    method SetEntryState(t: TaskEntry, ghost k: nat, st: TaskState)
      requires Refines() && k < |tasks| && t == tasks[k]
      modifies this`abs, t`state
      ensures Refines() && abs == SetState(old(abs), k, st)
    {
      t.state := st;
      abs := SetState(abs, k, st);
    }

    method CountRunning(n: nat)
      requires Refines()
      modifies this`abs, this`runningCount
      ensures Refines() && abs == old(abs).(running := n)
    {
      runningCount := n;
      abs := abs.(running := n);
    }

    /** One turn of the dispatch loop; `more` tells whether it goes on. */
    method DispatchNext() returns (more: bool, started: TaskEntry?)
      requires Refines() && Structure(abs) && abs.running < abs.maxConcurrent
      modifies this`abs, this`wires, this`runningCount, qHead, qTail, tasks
      ensures Refines()
      ensures Turn(old(abs), abs, more)
      ensures if more || Drained(old(abs)).None? then started == null
              else Drained(old(abs)).value < |tasks| && started == tasks[Drained(old(abs)).value]
    {
      ghost var s := abs;
      ghost var p := Highest(s.queues, LEVELS);
      DrainUnfolds(s);
      var t := DequeueHighest();
      if t == null {
        return false, null;
      }
      more := ActOn(t, s.queues[p][0]);
      started := if more then null else t;
    }

    /** Discard a task that was cancelled while queued, or count and mark one about to run. */
    method ActOn(t: TaskEntry, ghost k: nat) returns (cancelled: bool)
      requires Refines() && k < |tasks| && t == tasks[k]
      modifies this`abs, this`runningCount, t`state
      ensures Refines() && cancelled == old(abs).tasks[k].cancelFlag
      ensures abs == if cancelled then SetState(old(abs), k, Cancelled)
                     else SetState(old(abs), k, Running).(running := old(abs).running + 1)
    {
      assert t.Is(abs.tasks[k]);
      cancelled := t.cancelFlag;
      if cancelled {
        SetEntryState(t, k, Cancelled);
      } else {
        SetEntryState(t, k, Running);
        CountRunning(runningCount + 1);
      }
    }

    /** `drain_queue` from acquiring the lock (or submitting) up to the point where it is released again. */
    method DrainToUnlock() returns (started: TaskEntry?)
      requires Refines() && Structure(abs)
      modifies this`abs, this`wires, this`runningCount, qHead, qTail, tasks
      ensures Refines() && InRange(old(abs)) && abs == Drain(old(abs)).0
      ensures if Drained(old(abs)).None? then started == null
              else Drained(old(abs)).value < |tasks| && started == tasks[Drained(old(abs)).value]
    {
      StructureInRange(abs);
      var more := true;
      started := null;
      while more && runningCount < maxConcurrent
        invariant Refines() && InRange(abs)
        invariant more ==> started == null && Structure(abs) && Drain(abs) == Drain(old(abs))
        invariant !more ==> abs == Drain(old(abs)).0 &&
                            if Drained(old(abs)).None? then started == null
                            else Drained(old(abs)).value < |tasks| && started == tasks[Drained(old(abs)).value]
        decreases more, TotalLen(abs.queues)
      {
        more, started := DispatchNext();
      }
    }

    /** `ify_scheduler_submit` up to its first unlock; `started` is the task whose function it then calls. */
    method Submit(now: nat, priority: nat) returns (rc: Status, id: TaskId, started: TaskEntry?)
      requires Valid()
      modifies this, qHead, qTail, tasks
      ensures Valid() && System(abs, starts) == Next(System(old(abs), old(starts)), SchedulerProtocol.Submit(now, priority))
      ensures rc == if |old(tasks)| >= MAX_TASKS then ErrOverflow else OK
      ensures rc != OK ==> started == null && tasks == old(tasks)
      ensures rc == OK ==> && |tasks| == |old(tasks)| + 1 && tasks == old(tasks) + [tasks[|old(tasks)|]]
                           && fresh(tasks[|old(tasks)|]) && id == TaskId(now, |tasks|) == tasks[|old(tasks)|].id
      ensures StartedBy(old(starts), started)
    {
      id, started := TaskId(now, taskSeq + 1), null;
      if |tasks| >= MAX_TASKS {
        return ErrOverflow, id, null;
      }
      ghost var s, y := SubmitDispatches(System(abs, starts), now, priority);
      var t;
      t, started := Admit(id, priority, s, y);
      assert tasks[|old(tasks)|] == t;
      return OK, id, started;
    }

    /** Register a task and dispatch from the value `s` that this gives. */
    method Admit(id: TaskId, priority: nat, ghost s: Sched, ghost y: System) returns (t: TaskEntry, started: TaskEntry?)
      requires Refines() && Structure(abs) && id.lo == taskSeq + 1 && s == Register(abs, id.hi, priority)
      requires Structure(s) && InRange(s) && y == Dispatch(s, starts)
      modifies this, qHead, qTail, tasks
      ensures Refines() && System(abs, starts) == y && StartedBy(old(starts), started)
      ensures tasks == old(tasks) + [t] && fresh(t) && t.id == id
    {
      t := RegisterEntry(id, priority);
      started := DispatchFrom(s, y);
    }

    /** The critical section started `t`, which is the one task appended to the history, or nothing. */
    ghost predicate StartedBy(starts0: seq<nat>, t: TaskEntry?)
      reads this, t
    {
      if t == null then starts == starts0
      else |starts| == |starts0| + 1 && starts0 <= starts && starts[|starts0|] < |tasks|
           && t == tasks[starts[|starts0|]] && t.state == Running
    }

    /** What a task function's return does: retire the task and dispatch again, up to the next unlock. */
    method Return(t: TaskEntry, ghost k: nat, ok: bool) returns (started: TaskEntry?)
      requires Valid() && k < |tasks| && t == tasks[k] && t.state == Running
      modifies this, qHead, qTail, tasks
      ensures Valid() && System(abs, starts) == Next(System(old(abs), old(starts)), SchedulerProtocol.Return(k, ok))
      ensures tasks == old(tasks) && StartedBy(old(starts), started)
    {
      assert t.Is(abs.tasks[k]);
      ghost var s, y := ReturnDispatches(System(abs, starts), k, ok);
      CountRunning(runningCount - 1);
      SetEntryState(t, k, if ok then Completed else Failed);
      started := DispatchFrom(s, y);
    }

    method Find(id: TaskId) returns (i: nat)
      requires Refines()
      ensures i == FindTask(abs.tasks, id)
    {
      i := 0;
      while i < |tasks| && tasks[i].id != id
        invariant i <= |tasks| && i + FindTask(abs.tasks[i..], id) == FindTask(abs.tasks, id)
      {
        assert tasks[i].Is(abs.tasks[i]);
        assert abs.tasks[i..][1..] == abs.tasks[i + 1..];
        i := i + 1;
      }
      assert i < |tasks| ==> tasks[i].Is(abs.tasks[i]);
    }

    method Cancel(id: TaskId) returns (rc: Status)
      requires Valid()
      modifies this`abs, tasks
      ensures Valid() && System(abs, starts) == Next(System(old(abs), old(starts)), SchedulerProtocol.Cancel(id))
      ensures rc == CancelAt(old(abs), id).1
    {
      CancelKeepsInvariant(System(abs, starts), id);
      var i := Find(id);
      if i == |tasks| {
        return ErrNotFound;
      }
      assert tasks[i].Is(abs.tasks[i]);
      if tasks[i].state.Terminal() {
        return ErrNotFound;
      }
      FlagEntry(tasks[i], i);
      return OK;
    }

    /** Set the cancel flag; a task still queued is cancelled at once. */
    method FlagEntry(t: TaskEntry, ghost k: nat)
      requires Refines() && k < |tasks| && t == tasks[k]
      modifies this`abs, t`cancelFlag, t`state
      ensures Refines() && abs == old(abs).(tasks := old(abs).tasks[k := Flagged(old(abs).tasks[k])])
    {
      assert t.Is(abs.tasks[k]);
      t.cancelFlag := true;
      if t.state == Queued {
        t.state := Cancelled;
      }
      abs := abs.(tasks := abs.tasks[k := Flagged(abs.tasks[k])]);
    }

    method State(id: TaskId) returns (st: Option<TaskState>)
      requires Valid()
      ensures var i := FindTask(abs.tasks, id);
              st == if i < |abs.tasks| then Some(abs.tasks[i].state) else None
    {
      var i := Find(id);
      if i == |tasks| {
        return None;
      }
      assert tasks[i].Is(abs.tasks[i]);
      return Some(tasks[i].state);
    }

    ghost method Record(picked: Option<nat>)
      requires Refines()
      modifies this`starts
      ensures Refines() && starts == if picked.Some? then old(starts) + [picked.value] else old(starts)
    {
      if picked.Some? {
        starts := starts + [picked.value];
      }
    }

    /** Run the dispatch loop from the value `s`, which the protocol takes to `y`. */
    method DispatchFrom(ghost s: Sched, ghost y: System) returns (started: TaskEntry?)
      requires Refines() && abs == s && Structure(s) && InRange(s) && y == Dispatch(s, starts)
      modifies this`abs, this`wires, this`runningCount, this`starts, qHead, qTail, tasks
      ensures Refines() && System(abs, starts) == y && StartedBy(old(starts), started)
    {
      started := DrainToUnlock();
      DrainStartsBest(s);
      assert started == null || started.Is(abs.tasks[Drained(s).value]);
      Record(Drained(s));
    }

    /** Allocate the entry, track it in the flat array and put it at the tail of its queue. */
    method RegisterEntry(id: TaskId, priority: nat) returns (t: TaskEntry)
      requires Refines() && Structure(abs) && id.lo == taskSeq + 1
      modifies this`abs, this`wires, this`tasks, this`taskSeq, qHead, qTail, tasks`next
      ensures Refines() && abs == Register(old(abs), id.hi, priority)
      ensures tasks == old(tasks) + [t] && fresh(t) && t.id == id
    {
      t := new TaskEntry(id, priority);
      ghost var k, s := |tasks|, abs;
      tasks, taskSeq := tasks + [t], taskSeq + 1;
      TrackSpelled(s, old(tasks), wires, tasks);
      wires := wires.(links := wires.links + [null]);
      abs := abs.(tasks := abs.tasks + [Task(id, priority, Queued, false)], taskSeq := abs.taskSeq + 1);
      TrackKeepsQueues(s, abs.tasks);
      Enqueue(t, k);
    }
  }

  lemma SubmitDispatches(y: System, now: nat, priority: nat) returns (s: Sched, y': System)
    requires Inv(y) && |y.sched.tasks| < MAX_TASKS
    ensures s == Register(y.sched, now, priority) && Structure(s) && InRange(s)
    ensures y' == Dispatch(s, y.starts) == Next(y, SchedulerProtocol.Submit(now, priority)) && Inv(y')
  {
    s := Register(y.sched, now, priority);
    RegisterKeepsInvariant(y, now, priority);
    StructureInRange(s);
    y' := Next(y, SchedulerProtocol.Submit(now, priority));
  }

  lemma ReturnDispatches(y: System, t: nat, ok: bool) returns (s: Sched, y': System)
    requires Inv(y) && t < |y.sched.tasks| && y.sched.tasks[t].state == Running
    ensures y.sched.running > 0 && s == Finish(y.sched, t, ok) && Structure(s) && InRange(s)
    ensures y' == Dispatch(s, y.starts) == Next(y, SchedulerProtocol.Return(t, ok)) && Inv(y')
  {
    FinishKeepsInvariant(y, t, ok);
    s := Finish(y.sched, t, ok);
    StructureInRange(s);
    y' := Next(y, SchedulerProtocol.Return(t, ok));
  }

  lemma TrackKeepsQueues(s: Sched, tasks: seq<Task>)
    requires Structure(s) && s.tasks <= tasks
    ensures forall p :: 0 <= p < LEVELS ==> QueueOk(tasks, s.queues[p], p) && |s.tasks| !in s.queues[p]
  {
    forall p | 0 <= p < LEVELS
      ensures QueueOk(tasks, s.queues[p], p) && |s.tasks| !in s.queues[p]
    {
      assert QueueOk(s.tasks, s.queues[p], p);
    }
  }

  lemma TrackSpelled(s: Sched, tasks: seq<TaskEntry>, w: Pointers, tasks': seq<TaskEntry>)
    requires AllSpelled(tasks, w, s.queues) && tasks <= tasks' && |tasks'| == |tasks| + 1
    ensures AllSpelled(tasks', w.(links := w.links + [null]), s.queues)
  {
    forall p | 0 <= p < LEVELS
      ensures Spells(w.heads[p], w.tails[p], tasks', w.links + [null], s.queues[p])
    {
      SpellsKept(w.heads[p], w.tails[p], tasks, w.links, tasks', w.links + [null], s.queues[p]);
    }
  }
}
