/**
  * The scheduler as a transition system.  Every step is one critical section, from acquiring the lock to
  * releasing it: the lock is released while a task function runs, so submit, finish and cancel interleave freely.
  */
module SchedulerProtocol {
  import opened Sequences

  const PRIO_MAX: nat := 7
  const LEVELS: nat := 8
  const MAX_TASKS: nat := 4096

  datatype TaskId = TaskId(hi: nat, lo: nat)

  datatype TaskState = Queued | Running | Completed | Failed | Cancelled {
    predicate Terminal() {
      Completed? || Failed? || Cancelled?
    }
  }

  datatype Task = Task(id: TaskId, priority: nat, state: TaskState, cancelFlag: bool)

  /** Tasks are named by their registration index; `queues[p]` is the FIFO queue of level `p`. */
  datatype Sched = Sched(maxConcurrent: nat, tasks: seq<Task>, queues: seq<seq<nat>>, running: nat, taskSeq: nat)

  function Level(priority: nat): (p: nat)
    ensures p < LEVELS
  {
    if priority <= PRIO_MAX then priority else PRIO_MAX
  }

  function SetState(s: Sched, t: nat, st: TaskState): Sched
    requires t < |s.tasks|
  {
    s.(tasks := s.tasks[t := s.tasks[t].(state := st)])
  }

  function Enqueue(s: Sched, t: nat): Sched
    requires t < |s.tasks| && |s.queues| == LEVELS
  {
    var p := Level(s.tasks[t].priority);
    s.(queues := s.queues[p := s.queues[p] + [t]])
  }

  /** The highest non-empty level below `n`, or `n` when every level below it is empty. */
  function Highest(queues: seq<seq<nat>>, n: nat): (p: int)
    requires n <= |queues|
    ensures -1 <= p < n
    ensures p >= 0 ==> queues[p] != []
    ensures forall q :: p < q < n ==> queues[q] == []
  {
    if n == 0 then -1
    else if queues[n - 1] != [] then n - 1
    else Highest(queues, n - 1)
  }

  function TotalLen(queues: seq<seq<nat>>): nat {
    if queues == [] then 0 else |queues[0]| + TotalLen(queues[1..])
  }

  lemma {:induction false} TotalLenUpdate(queues: seq<seq<nat>>, p: nat, q: seq<nat>)
    requires p < |queues|
    ensures TotalLen(queues[p := q]) + |queues[p]| == TotalLen(queues) + |q|
    decreases p
  {
    if p == 0 {
      assert queues[0 := q][1..] == queues[1..];
    } else {
      TotalLenUpdate(queues[1..], p - 1, q);
      assert queues[p := q][1..] == queues[1..][p - 1 := q];
    }
  }

  function Pop(s: Sched, p: nat): Sched
    requires p < |s.queues| && s.queues[p] != []
  {
    s.(queues := s.queues[p := s.queues[p][1..]])
  }

  /** The dispatch loop up to the point where it releases the lock: `Some` names the task that now runs. */
  function Drain(s: Sched): (r: (Sched, Option<nat>))
    requires InRange(s)
    decreases TotalLen(s.queues)
  {
    if s.running >= s.maxConcurrent then (s, None) else
    var p := Highest(s.queues, LEVELS);
    if p < 0 then (s, None) else
    var t := s.queues[p][0];
    TotalLenUpdate(s.queues, p, s.queues[p][1..]);
    var popped := Pop(s, p);
    if s.tasks[t].cancelFlag then Drain(SetState(popped, t, Cancelled))
    else (SetState(popped, t, Running).(running := s.running + 1), Some(t))
  }

  datatype Status = OK | ErrOverflow | ErrNotFound

  function Register(s: Sched, now: nat, priority: nat): Sched
    requires |s.queues| == LEVELS
  {
    var task := Task(TaskId(now, s.taskSeq + 1), priority, Queued, false);
    Enqueue(s.(tasks := s.tasks + [task], taskSeq := s.taskSeq + 1), |s.tasks|)
  }

  function FindTask(tasks: seq<Task>, id: TaskId): (i: nat)
    ensures i <= |tasks| && (i < |tasks| ==> tasks[i].id == id)
    ensures forall j :: 0 <= j < i ==> tasks[j].id != id
  {
    if tasks == [] then 0
    else if tasks[0].id == id then 0
    else
      var r := FindTask(tasks[1..], id);
      assert forall j :: 1 <= j < 1 + r ==> tasks[j] == tasks[1..][j - 1];
      1 + r
  }

  function Flagged(t: Task): Task {
    var flagged := t.(cancelFlag := true);
    if flagged.state.Queued? then flagged.(state := Cancelled) else flagged
  }

  function CancelAt(s: Sched, id: TaskId): (r: (Sched, Status)) {
    var i := FindTask(s.tasks, id);
    if i == |s.tasks| || s.tasks[i].state.Terminal() then (s, ErrNotFound) else
    (s.(tasks := s.tasks[i := Flagged(s.tasks[i])]), OK)
  }

  function Finish(s: Sched, t: nat, ok: bool): Sched
    requires t < |s.tasks| && s.running > 0
  {
    SetState(s.(running := s.running - 1), t, if ok then Completed else Failed)
  }

  // ----- the invariant -----

  /** Entries of a queue are tasks of its level, in submission order, still queued or cancelled while queued. */
  ghost predicate QueueOk(tasks: seq<Task>, queue: seq<nat>, p: nat) {
    && StrictlySorted(queue)
    && forall t :: t in queue ==>
         && t < |tasks| && Level(tasks[t].priority) == p
         && (tasks[t].state == Queued || (tasks[t].state == Cancelled && tasks[t].cancelFlag))
  }

  ghost predicate TaskOk(tasks: seq<Task>, queues: seq<seq<nat>>, t: nat)
    requires t < |tasks| && |queues| == LEVELS
  {
    && tasks[t].id.lo == t + 1
    && (tasks[t].state == Queued ==> t in queues[Level(tasks[t].priority)] && !tasks[t].cancelFlag)
  }

  ghost predicate Structure(s: Sched) {
    && |s.queues| == LEVELS && 0 < s.maxConcurrent && s.taskSeq == |s.tasks|
    && (forall p :: 0 <= p < LEVELS ==> QueueOk(s.tasks, s.queues[p], p))
    && (forall t :: 0 <= t < |s.tasks| ==> TaskOk(s.tasks, s.queues, t))
  }

  ghost function RunningSet(tasks: seq<Task>): set<nat> {
    set t | 0 <= t < |tasks| && tasks[t].state == Running
  }

  ghost predicate Counted(s: Sched) {
    s.running == |RunningSet(s.tasks)| && s.running <= s.maxConcurrent
  }

  predicate AllEmpty(s: Sched) {
    forall p :: 0 <= p < |s.queues| ==> s.queues[p] == []
  }

  /** Between critical sections nothing waits while there is a free slot. */
  ghost predicate Busy(s: Sched) {
    s.running < s.maxConcurrent ==> AllEmpty(s)
  }

  predicate Started(st: TaskState) {
    st == Running || st == Completed || st == Failed
  }

  /** An earlier task of the same level is passed over only if it was cancelled. */
  ghost predicate ServedBefore(tasks: seq<Task>, starts: seq<nat>, a: nat, k: nat)
    requires k < |starts| && a < |tasks|
  {
    a in starts[..k] || tasks[a].state == Cancelled
  }

  /** `starts` lists every task whose function was called, once, in the order of the calls. */
  ghost predicate History(tasks: seq<Task>, starts: seq<nat>) {
    && NoDup(starts)
    && (forall k :: 0 <= k < |starts| ==> starts[k] < |tasks|)
    && (forall t :: 0 <= t < |tasks| ==> (t in starts <==> Started(tasks[t].state)))
    && (forall a, k :: 0 <= k < |starts| && 0 <= a < starts[k] && Level(tasks[a].priority) == Level(tasks[starts[k]].priority)
          ==> ServedBefore(tasks, starts, a, k))
  }

  lemma WithOrWithout(s: set<nat>, rest: set<nat>, t: nat)
    requires t !in rest && forall u :: u != t ==> (u in s <==> u in rest)
    ensures |s| == |rest| + if t in s then 1 else 0
  {
    assert s == if t in s then rest + {t} else rest;
  }

  lemma RunningUpdate(tasks: seq<Task>, t: nat, task: Task)
    requires t < |tasks|
    ensures |RunningSet(tasks[t := task])| + (if tasks[t].state == Running then 1 else 0)
         == |RunningSet(tasks)| + (if task.state == Running then 1 else 0)
  {
    var tasks' := tasks[t := task];
    var rest := RunningSet(tasks) - {t};
    forall u
      ensures u in RunningSet(tasks') <==> u in rest || (u == t && task.state == Running)
    {
    }
    WithOrWithout(RunningSet(tasks), rest, t);
    WithOrWithout(RunningSet(tasks'), rest, t);
  }

  lemma {:induction false} TotalLenZero(queues: seq<seq<nat>>)
    ensures TotalLen(queues) == 0 ==> forall p :: 0 <= p < |queues| ==> queues[p] == []
    ensures forall p :: 0 <= p < |queues| ==> |queues[p]| <= TotalLen(queues)
    ensures (forall p :: 0 <= p < |queues| ==> queues[p] == []) ==> TotalLen(queues) == 0
  {
    if queues != [] {
      TotalLenZero(queues[1..]);
      assert forall p :: 1 <= p < |queues| ==> queues[p] == queues[1..][p - 1];
      assert forall p :: 0 <= p < |queues[1..]| ==> queues[1..][p] == queues[p + 1];
    }
  }

  // ----- what one dispatch does -----

  /** Dropping the head of a queue whose task is no longer `Queued`, or is about to be. */
  lemma PopKeepsStructure(s: Sched, p: nat, st: TaskState)
    requires Structure(s) && p < LEVELS && s.queues[p] != [] && st != Queued
    ensures var t := s.queues[p][0]; t < |s.tasks| && Structure(SetState(Pop(s, p), t, st))
  {
    var t := s.queues[p][0];
    assert QueueOk(s.tasks, s.queues[p], p) && t in s.queues[p];
    var s' := SetState(Pop(s, p), t, st);
    var tail := s.queues[p][1..];
    assert s.queues[p] == [t] + tail;
    forall q | 0 <= q < LEVELS
      ensures QueueOk(s'.tasks, s'.queues[q], q)
    {
      assert QueueOk(s.tasks, s.queues[q], q);
      if q == p {
        assert forall i :: 0 <= i < |tail| ==> tail[i] == s.queues[p][i + 1];
        assert t !in tail;
      } else {
        assert t !in s.queues[q];
      }
    }
    forall u | 0 <= u < |s'.tasks|
      ensures TaskOk(s'.tasks, s'.queues, u)
    {
      assert TaskOk(s.tasks, s.queues, u);
    }
  }

  lemma StartExtendsHistory(s: Sched, p: nat, starts: seq<nat>)
    requires Structure(s) && History(s.tasks, starts)
    requires p < LEVELS && s.queues[p] != [] && s.queues[p][0] < |s.tasks| && !s.tasks[s.queues[p][0]].cancelFlag
    ensures var t := s.queues[p][0];
            t !in starts && History(s.tasks[t := s.tasks[t].(state := Running)], starts + [t])
  {
    var t := s.queues[p][0];
    assert QueueOk(s.tasks, s.queues[p], p) && t in s.queues[p];
    assert s.tasks[t].state == Queued;
    assert forall x :: x in s.queues[p] ==> t <= x;
    var tasks', starts' := s.tasks[t := s.tasks[t].(state := Running)], starts + [t];
    forall a, k | 0 <= k < |starts'| && 0 <= a < starts'[k] && Level(tasks'[a].priority) == Level(tasks'[starts'[k]].priority)
      ensures ServedBefore(tasks', starts', a, k)
    {
      if k < |starts| {
        assert starts'[..k] == starts[..k];
        assert ServedBefore(s.tasks, starts, a, k);
      } else {
        assert starts'[..k] == starts;
        assert TaskOk(s.tasks, s.queues, a);
      }
    }
  }

  /** The dispatch loop keeps the invariant and starts at most one task, the oldest of the highest level. */
  lemma {:induction false} DrainKeepsInvariant(s: Sched, starts: seq<nat>)
    requires Structure(s) && Counted(s) && History(s.tasks, starts)
    requires s.running + 1 >= s.maxConcurrent || TotalLen(s.queues) <= 1
    ensures InRange(s)
    ensures var (s', picked) := Drain(s);
            && Structure(s') && Counted(s') && Busy(s')
            && History(s'.tasks, if picked.Some? then starts + [picked.value] else starts)
            && |s'.tasks| == |s.tasks| && s'.maxConcurrent == s.maxConcurrent
    decreases TotalLen(s.queues)
  {
    StructureInRange(s);
    if s.running < s.maxConcurrent {
      var p := Highest(s.queues, LEVELS);
      if p >= 0 {
        var t := s.queues[p][0];
        assert QueueOk(s.tasks, s.queues[p], p) && t in s.queues[p];
        TotalLenUpdate(s.queues, p, s.queues[p][1..]);
        if s.tasks[t].cancelFlag {
          assert TaskOk(s.tasks, s.queues, t);
          var s1 := SetState(Pop(s, p), t, Cancelled);
          PopKeepsStructure(s, p, Cancelled);
          assert s1.tasks == s.tasks;
          DrainKeepsInvariant(s1, starts);
        } else {
          PopKeepsStructure(s, p, Running);
          StartExtendsHistory(s, p, starts);
          RunningUpdate(s.tasks, t, s.tasks[t].(state := Running));
          TotalLenZero(s.queues[p := s.queues[p][1..]]);
        }
      }
    }
  }

  predicate InRange(s: Sched) {
    && |s.queues| == LEVELS
    && forall p, i :: 0 <= p < LEVELS && 0 <= i < |s.queues[p]| ==> s.queues[p][i] < |s.tasks|
  }

  lemma StructureInRange(s: Sched)
    requires Structure(s)
    ensures InRange(s)
  {
    forall p, i | 0 <= p < LEVELS && 0 <= i < |s.queues[p]|
      ensures s.queues[p][i] < |s.tasks|
    {
      assert QueueOk(s.tasks, s.queues[p], p) && s.queues[p][i] in s.queues[p];
    }
  }

  // ----- runs: any interleaving of critical sections -----

  /** The scheduler together with the order in which task functions have been called. */
  datatype System = System(sched: Sched, starts: seq<nat>)

  datatype Action =
    | Submit(now: nat, priority: nat)
    | Return(task: nat, ok: bool)
    | Cancel(id: TaskId)

  ghost predicate Inv(y: System) {
    Structure(y.sched) && Counted(y.sched) && Busy(y.sched) && History(y.sched.tasks, y.starts)
  }

  /** Dispatch after `s`, recording the function call it makes, if any. */
  function Dispatch(s: Sched, starts: seq<nat>): System
    requires InRange(s)
  {
    var (s', picked) := Drain(s);
    System(s', if picked.Some? then starts + [picked.value] else starts)
  }

  lemma RegisterKeepsQueues(s: Sched, now: nat, priority: nat, q: nat)
    requires Structure(s) && q < LEVELS
    ensures var s' := Register(s, now, priority); QueueOk(s'.tasks, s'.queues[q], q)
  {
    assert QueueOk(s.tasks, s.queues[q], q);
    assert forall i :: 0 <= i < |s.queues[q]| ==> s.queues[q][i] in s.queues[q];
  }

  lemma RegisterKeepsStructure(s: Sched, now: nat, priority: nat)
    requires Structure(s)
    ensures Structure(Register(s, now, priority))
  {
    var s' := Register(s, now, priority);
    forall q | 0 <= q < LEVELS
      ensures QueueOk(s'.tasks, s'.queues[q], q)
    {
      RegisterKeepsQueues(s, now, priority, q);
    }
    forall u | 0 <= u < |s'.tasks|
      ensures TaskOk(s'.tasks, s'.queues, u)
    {
      if u < |s.tasks| {
        assert TaskOk(s.tasks, s.queues, u);
      }
    }
  }

  lemma AppendKeepsHistory(tasks: seq<Task>, task: Task, starts: seq<nat>)
    requires History(tasks, starts) && task.state == Queued
    ensures RunningSet(tasks + [task]) == RunningSet(tasks) && History(tasks + [task], starts)
  {
    var tasks' := tasks + [task];
    forall a, k | 0 <= k < |starts| && 0 <= a < starts[k] && Level(tasks'[a].priority) == Level(tasks'[starts[k]].priority)
      ensures ServedBefore(tasks', starts, a, k)
    {
      assert ServedBefore(tasks, starts, a, k);
    }
  }

  lemma RegisterKeepsInvariant(y: System, now: nat, priority: nat)
    requires Inv(y)
    ensures var s := Register(y.sched, now, priority);
            && Structure(s) && Counted(s) && History(s.tasks, y.starts)
            && (s.running + 1 >= s.maxConcurrent || TotalLen(s.queues) <= 1)
  {
    var s := y.sched;
    var t, p := |s.tasks|, Level(priority);
    RegisterKeepsStructure(s, now, priority);
    AppendKeepsHistory(s.tasks, Task(TaskId(now, s.taskSeq + 1), priority, Queued, false), y.starts);
    TotalLenZero(s.queues);
    TotalLenUpdate(s.queues, p, s.queues[p] + [t]);
  }

  /** Changing a task that is not queued, without un-starting it, keeps structure and history. */
  lemma RetireKeepsInvariant(s: Sched, starts: seq<nat>, t: nat, task: Task)
    requires Structure(s) && History(s.tasks, starts) && t < |s.tasks|
    requires task.id == s.tasks[t].id && task.priority == s.tasks[t].priority && task.state != Queued
    requires Started(task.state) <==> Started(s.tasks[t].state)
    requires s.tasks[t].state == Queued ==> task.cancelFlag
    requires (task.state == Cancelled && task.cancelFlag) || (s.tasks[t].state != Cancelled && s.tasks[t].state != Queued)
    ensures Structure(s.(tasks := s.tasks[t := task])) && History(s.tasks[t := task], starts)
  {
    var s' := s.(tasks := s.tasks[t := task]);
    forall q | 0 <= q < LEVELS
      ensures QueueOk(s'.tasks, s'.queues[q], q)
    {
      assert QueueOk(s.tasks, s.queues[q], q);
    }
    forall u | 0 <= u < |s'.tasks|
      ensures TaskOk(s'.tasks, s'.queues, u)
    {
      assert TaskOk(s.tasks, s.queues, u);
    }
    forall a, k | 0 <= k < |starts| && 0 <= a < starts[k] && Level(s'.tasks[a].priority) == Level(s'.tasks[starts[k]].priority)
      ensures ServedBefore(s'.tasks, starts, a, k)
    {
      assert ServedBefore(s.tasks, starts, a, k);
    }
  }

  lemma FinishKeepsInvariant(y: System, t: nat, ok: bool)
    requires Inv(y) && t < |y.sched.tasks| && y.sched.tasks[t].state == Running
    ensures y.sched.running > 0
    ensures var s := Finish(y.sched, t, ok);
            && Structure(s) && Counted(s) && History(s.tasks, y.starts)
            && (s.running + 1 >= s.maxConcurrent || TotalLen(s.queues) <= 1)
  {
    var s := y.sched;
    assert t in RunningSet(s.tasks);
    var task := s.tasks[t].(state := if ok then Completed else Failed);
    RetireKeepsInvariant(s, y.starts, t, task);
    RunningUpdate(s.tasks, t, task);
    var s1 := s.(tasks := s.tasks[t := task]);
    assert Finish(s, t, ok) == s1.(running := s.running - 1);
    TotalLenZero(s.queues);
  }

  lemma CancelKeepsInvariant(y: System, id: TaskId)
    requires Inv(y)
    ensures Inv(System(CancelAt(y.sched, id).0, y.starts))
  {
    var s := y.sched;
    var i := FindTask(s.tasks, id);
    if i < |s.tasks| && !s.tasks[i].state.Terminal() {
      var task := CancelAt(s, id).0.tasks[i];
      RetireKeepsInvariant(s, y.starts, i, task);
      RunningUpdate(s.tasks, i, task);
    }
  }

  /** One critical section; a return from a task that is not running cannot happen and changes nothing. */
  function Next(y: System, a: Action): (y': System)
    requires Inv(y)
    ensures Inv(y')
  {
    var s := y.sched;
    match a
    case Submit(now, priority) =>
      if |s.tasks| >= MAX_TASKS then y else
      RegisterKeepsInvariant(y, now, priority);
      DrainKeepsInvariant(Register(s, now, priority), y.starts);
      Dispatch(Register(s, now, priority), y.starts)
    case Return(t, ok) =>
      if t >= |s.tasks| || s.tasks[t].state != Running then y else
      FinishKeepsInvariant(y, t, ok);
      DrainKeepsInvariant(Finish(s, t, ok), y.starts);
      Dispatch(Finish(s, t, ok), y.starts)
    case Cancel(id) =>
      CancelKeepsInvariant(y, id);
      System(CancelAt(s, id).0, y.starts)
  }

  function Run(y: System, actions: seq<Action>): (y': System)
    requires Inv(y)
    ensures Inv(y')
    decreases |actions|
  {
    if actions == [] then y else Run(Next(y, actions[0]), actions[1..])
  }

  function Fresh(maxConcurrent: nat): System {
    var m := if maxConcurrent != 0 then maxConcurrent else 32;
    System(Sched(m, [], [[], [], [], [], [], [], [], []], 0, 0), [])
  }

  lemma FreshInvariant(maxConcurrent: nat)
    ensures Inv(Fresh(maxConcurrent))
  {
    assert RunningSet([]) == {};
  }

  // ----- what holds in every interleaving -----

  /** Task `t` is queued, and every other queued task has a lower level, or the same level and a later submission. */
  ghost predicate IsBest(tasks: seq<Task>, t: nat) {
    && t < |tasks| && tasks[t].state == Queued
    && forall u :: 0 <= u < |tasks| && u != t && tasks[u].state == Queued ==>
         var lu, lt := Level(tasks[u].priority), Level(tasks[t].priority);
         lu < lt || (lu == lt && t < u)
  }

  ghost predicate NoneQueued(tasks: seq<Task>) {
    forall u :: 0 <= u < |tasks| ==> tasks[u].state != Queued
  }

  lemma QueuedWaits(s: Sched, u: nat)
    requires Structure(s) && u < |s.tasks| && s.tasks[u].state == Queued
    ensures u in s.queues[Level(s.tasks[u].priority)] && !s.tasks[u].cancelFlag
  {
    assert TaskOk(s.tasks, s.queues, u);
  }

  lemma HeadIsBest(s: Sched, p: nat)
    requires Structure(s) && p < LEVELS && s.queues[p] != [] && forall q :: p < q < LEVELS ==> s.queues[q] == []
    ensures var t := s.queues[p][0];
            t < |s.tasks| && (if s.tasks[t].cancelFlag then s.tasks[t].state == Cancelled else IsBest(s.tasks, t))
  {
    var t := s.queues[p][0];
    assert QueueOk(s.tasks, s.queues[p], p) && t in s.queues[p];
    assert forall x :: x in s.queues[p] ==> t <= x;
    assert TaskOk(s.tasks, s.queues, t);
    forall u | 0 <= u < |s.tasks| && u != t && s.tasks[u].state == Queued
      ensures var lu, lt := Level(s.tasks[u].priority), Level(s.tasks[t].priority);
              lu < lt || (lu == lt && t < u)
    {
      QueuedWaits(s, u);
    }
  }

  /** A dispatch starts the oldest queued task of the highest level, or nothing when none waits or no slot is free. */
  lemma {:induction false} DrainStartsBest(s: Sched)
    requires Structure(s)
    ensures InRange(s)
    ensures var (s', picked) := Drain(s);
            if picked.Some?
            then && IsBest(s.tasks, picked.value) && s'.running == s.running + 1
                 && s'.tasks == s.tasks[picked.value := s.tasks[picked.value].(state := Running)]
            else s'.tasks == s.tasks && s'.running == s.running && (s.running >= s.maxConcurrent || NoneQueued(s.tasks))
    decreases TotalLen(s.queues)
  {
    StructureInRange(s);
    var p := Highest(s.queues, LEVELS);
    if s.running < s.maxConcurrent {
      if p >= 0 {
        HeadIsBest(s, p);
        var t := s.queues[p][0];
        if s.tasks[t].cancelFlag {
          TotalLenUpdate(s.queues, p, s.queues[p][1..]);
          PopKeepsStructure(s, p, Cancelled);
          assert SetState(Pop(s, p), t, Cancelled).tasks == s.tasks;
          DrainStartsBest(SetState(Pop(s, p), t, Cancelled));
        }
      } else {
        forall u | 0 <= u < |s.tasks|
          ensures s.tasks[u].state != Queued
        {
          assert TaskOk(s.tasks, s.queues, u);
        }
      }
    }
  }

  ghost predicate Successor(a: Task, b: Task) {
    a.id == b.id && a.priority == b.priority && (a.state.Terminal() ==> b.state == a.state)
  }

  /** No task is lost, renamed or brought back from a terminal state. */
  ghost predicate Evolves(before: seq<Task>, after: seq<Task>) {
    |before| <= |after| && forall t :: 0 <= t < |before| ==> Successor(before[t], after[t])
  }

  lemma DrainEvolves(before: seq<Task>, s: Sched, starts: seq<nat>)
    requires Structure(s) && Evolves(before, s.tasks)
    ensures InRange(s)
    ensures Evolves(before, Dispatch(s, starts).sched.tasks) && starts <= Dispatch(s, starts).starts
  {
    DrainStartsBest(s);
    var s' := Drain(s).0;
    assert |s'.tasks| == |s.tasks|;
    forall t | 0 <= t < |before|
      ensures Successor(before[t], s'.tasks[t])
    {
      assert Successor(before[t], s.tasks[t]);
    }
  }

  /** Terminal states are never left, and function calls are only ever appended to the history. */
  lemma NextKeepsTerminal(y: System, a: Action)
    requires Inv(y)
    ensures y.starts <= Next(y, a).starts && Evolves(y.sched.tasks, Next(y, a).sched.tasks)
  {
    var s := y.sched;
    match a
    case Submit(now, priority) =>
      RegisterKeepsInvariant(y, now, priority);
      DrainEvolves(s.tasks, Register(s, now, priority), y.starts);
    case Return(t, ok) =>
      if t < |s.tasks| && s.tasks[t].state == Running {
        FinishKeepsInvariant(y, t, ok);
        DrainEvolves(s.tasks, Finish(s, t, ok), y.starts);
      }
    case Cancel(id) =>
  }

  lemma {:induction false} RunKeepsTerminal(y: System, actions: seq<Action>, t: nat)
    requires Inv(y) && t < |y.sched.tasks|
    ensures var y' := Run(y, actions);
            && y.starts <= y'.starts && t < |y'.sched.tasks|
            && (y.sched.tasks[t].state.Terminal() ==> y'.sched.tasks[t].state == y.sched.tasks[t].state)
    decreases |actions|
  {
    if actions != [] {
      NextKeepsTerminal(y, actions[0]);
      assert Successor(y.sched.tasks[t], Next(y, actions[0]).sched.tasks[t]);
      RunKeepsTerminal(Next(y, actions[0]), actions[1..], t);
    }
  }

  /** Identifiers are unique, so cancelling by the identifier of a queued task cancels that task. */
  lemma CancelHitsItsTask(s: Sched, t: nat)
    requires Structure(s) && t < |s.tasks| && s.tasks[t].state == Queued
    ensures CancelAt(s, s.tasks[t].id).0 == s.(tasks := s.tasks[t := Flagged(s.tasks[t])])
  {
    var i := FindTask(s.tasks, s.tasks[t].id);
    assert TaskOk(s.tasks, s.queues, t);
    assert i < |s.tasks| ==> TaskOk(s.tasks, s.queues, i);
  }

  /** A task cancelled while queued is never started, whatever happens afterwards. */
  lemma CancelledNeverStarts(y: System, actions: seq<Action>, t: nat)
    requires Inv(y) && t < |y.sched.tasks| && y.sched.tasks[t].state == Queued
    ensures var y' := Run(Next(y, Cancel(y.sched.tasks[t].id)), actions);
            t < |y'.sched.tasks| && y'.sched.tasks[t].state == Cancelled && t !in y'.starts
  {
    CancelHitsItsTask(y.sched, t);
    var y1 := Next(y, Cancel(y.sched.tasks[t].id));
    assert y1.sched.tasks[t].state == Cancelled;
    RunKeepsTerminal(y1, actions, t);
  }

  /** A greater priority is more urgent; 7 and everything above it count alike. */
  predicate MoreUrgent(a: Task, b: Task) {
    b.priority < a.priority && b.priority < 7
  }

  predicate SameUrgency(a: Task, b: Task) {
    a.priority == b.priority || (a.priority >= 7 && b.priority >= 7)
  }

  /** The j-th started task was submitted before the k-th started one, with the same urgency. */
  ghost predicate OlderSameUrgency(tasks: seq<Task>, starts: seq<nat>, j: nat, k: nat) {
    && j < |starts| && k < |starts| && starts[j] < starts[k] < |tasks|
    && SameUrgency(tasks[starts[j]], tasks[starts[k]])
  }

  /**
    * Every reachable state: the counter is the number of running tasks and respects the limit; no function is
    * called twice, nor for a task that ended up cancelled in the queue; equally urgent tasks start in submission
    * order; and when nothing runs nothing waits, so every submitted task has reached a terminal state.
    */
  lemma EveryRunIsSafe(maxConcurrent: nat, actions: seq<Action>)
    ensures Inv(Fresh(maxConcurrent))
    ensures var y := Run(Fresh(maxConcurrent), actions);
            var s := y.sched;
            && s.running == |RunningSet(s.tasks)| <= s.maxConcurrent
            && NoDup(y.starts)
            && (forall t :: 0 <= t < |s.tasks| && s.tasks[t].state == Cancelled ==> t !in y.starts)
            && (forall j: nat, k: nat :: OlderSameUrgency(s.tasks, y.starts, j, k) ==> j < k)
            && (s.running == 0 ==> AllEmpty(s) && forall t :: 0 <= t < |s.tasks| ==> s.tasks[t].state.Terminal())
  {
    FreshInvariant(maxConcurrent);
    var y := Run(Fresh(maxConcurrent), actions);
    var s := y.sched;
    forall j: nat, k: nat | OlderSameUrgency(s.tasks, y.starts, j, k)
      ensures j < k
    {
      assert ServedBefore(s.tasks, y.starts, y.starts[j], k);
      assert y.starts[j] in y.starts;
    }
    if s.running == 0 {
      forall t | 0 <= t < |s.tasks|
        ensures s.tasks[t].state.Terminal()
      {
        assert TaskOk(s.tasks, s.queues, t);
        assert t in RunningSet(s.tasks) <==> s.tasks[t].state == Running;
      }
    }
  }
}
