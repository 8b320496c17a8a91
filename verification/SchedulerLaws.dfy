/** What submitting, returning and cancelling do to every task, and which task a dispatch prefers. */
module SchedulerLaws {
  import opened Sequences
  import opened SchedulerProtocol

  /** The dispatch loop starts at most one task and changes nothing else about the tasks. */
  ghost predicate Starts(before: seq<Task>, after: seq<Task>, picked: Option<nat>) {
    match picked
    case None => after == before
    case Some(t) =>
      && t < |before| == |after| && before[t].state == Queued
      && after[t] == Task(before[t].id, before[t].priority, Running, before[t].cancelFlag)
      && forall u :: 0 <= u < |before| && u != t ==> after[u] == before[u]
  }

  /** Of the tasks waiting, the one with the greatest priority, 7 and above counting alike, and of those the oldest. */
  ghost predicate MostUrgent(tasks: seq<Task>, t: nat) {
    && t < |tasks| && tasks[t].state == Queued
    && forall u :: 0 <= u < |tasks| && u != t && tasks[u].state == Queued ==>
         MoreUrgent(tasks[t], tasks[u]) || (SameUrgency(tasks[t], tasks[u]) && t < u)
  }

  /** A dispatch that starts a task starts the most urgent one; one that does not has no free slot or nothing to start. */
  lemma DispatchStartsMostUrgent(s: Sched)
    requires Structure(s)
    ensures InRange(s)
    ensures var (s', picked) := Drain(s);
            && Starts(s.tasks, s'.tasks, picked) && s'.running == s.running + (if picked.Some? then 1 else 0)
            && (picked.Some? ==> s.running < s.maxConcurrent && MostUrgent(s.tasks, picked.value))
            && (picked.None? ==> s.running >= s.maxConcurrent || forall u :: 0 <= u < |s.tasks| ==> s.tasks[u].state != Queued)
  {
    DrainStartsBest(s);
    if s.running >= s.maxConcurrent {
      NoSlotNoStart(s);
    }
    var picked := Drain(s).1;
    if picked.Some? {
      BestIsMostUrgent(s.tasks, picked.value);
      StartsOne(s.tasks, picked.value);
    }
  }

  lemma NoSlotNoStart(s: Sched)
    requires InRange(s) && s.running >= s.maxConcurrent
    ensures Drain(s).1.None?
  {
  }

  lemma BestIsMostUrgent(tasks: seq<Task>, t: nat)
    requires IsBest(tasks, t)
    ensures MostUrgent(tasks, t)
  {
  }

  lemma StartsOne(tasks: seq<Task>, t: nat)
    requires t < |tasks| && tasks[t].state == Queued
    ensures Starts(tasks, tasks[t := tasks[t].(state := Running)], Some(t))
  {
  }

  /** What a call leaves: the tasks right after its own change, at most one of them then started and called. */
  ghost predicate ThenStarts(changed: seq<Task>, y: System, y': System) {
    exists picked ::
      && Starts(changed, y'.sched.tasks, picked) && (picked.Some? ==> MostUrgent(changed, picked.value))
      && y'.starts == y.starts + if picked.Some? then [picked.value] else []
  }

  lemma DispatchMeans(s: Sched, y: System)
    requires Structure(s)
    ensures InRange(s) && ThenStarts(s.tasks, y, Dispatch(s, y.starts))
  {
    DispatchStartsMostUrgent(s);
    var (s', picked) := Drain(s);
    assert Starts(s.tasks, s'.tasks, picked);
  }

  /** A submission appends its task, queued under the next number, and dispatches; a full table changes nothing. */
  lemma SubmitMeans(y: System, now: nat, priority: nat)
    requires Inv(y)
    ensures var tasks, y' := y.sched.tasks, Next(y, Submit(now, priority));
            if |tasks| >= 4096 then y' == y
            else ThenStarts(tasks + [Task(TaskId(now, |tasks| + 1), priority, Queued, false)], y, y')
  {
    if |y.sched.tasks| < MAX_TASKS {
      RegisterKeepsInvariant(y, now, priority);
      DispatchMeans(Register(y.sched, now, priority), y);
    }
  }

  /** A return makes its task completed or failed, as the task function said, and dispatches. */
  lemma ReturnMeans(y: System, t: nat, ok: bool)
    requires Inv(y) && t < |y.sched.tasks| && y.sched.tasks[t].state == Running
    ensures var tasks, y' := y.sched.tasks, Next(y, Return(t, ok));
            var done := Task(tasks[t].id, tasks[t].priority, if ok then Completed else Failed, tasks[t].cancelFlag);
            ThenStarts(tasks[t := done], y, y')
  {
    FinishKeepsInvariant(y, t, ok);
    DispatchMeans(Finish(y.sched, t, ok), y);
  }

  /** Only a task that has not ended can be cancelled: a queued one ends there, a running one is only flagged. */
  lemma CancelMeans(y: System, t: nat)
    requires Inv(y) && t < |y.sched.tasks|
    ensures var task, y' := y.sched.tasks[t], Next(y, Cancel(y.sched.tasks[t].id));
            && y'.starts == y.starts && y'.sched == y.sched.(tasks := y'.sched.tasks)
            && (CancelAt(y.sched, task.id).1 == OK <==> task.state == Queued || task.state == Running)
            && y'.sched.tasks == match task.state
               case Queued => y.sched.tasks[t := Task(task.id, task.priority, Cancelled, true)]
               case Running => y.sched.tasks[t := Task(task.id, task.priority, Running, true)]
               case _ => y.sched.tasks
  {
    IdsAreIndexes(y.sched, t);
  }

  lemma IdsAreIndexes(s: Sched, t: nat)
    requires Structure(s) && t < |s.tasks|
    ensures FindTask(s.tasks, s.tasks[t].id) == t
  {
    var i := FindTask(s.tasks, s.tasks[t].id);
    assert TaskOk(s.tasks, s.queues, t);
    assert i < |s.tasks| ==> TaskOk(s.tasks, s.queues, i);
  }

  lemma UnknownIdIsRefused(y: System, id: TaskId)
    requires Inv(y) && forall t :: 0 <= t < |y.sched.tasks| ==> y.sched.tasks[t].id != id
    ensures CancelAt(y.sched, id).1 == ErrNotFound && Next(y, Cancel(id)) == y
  {
  }
}
