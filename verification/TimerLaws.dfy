/** No timer is lost: what firing does to every timer, over whole loops and whole runs. */
module TimerLaws {
  import opened Sequences
  import opened Timers

  predicate Due(t: Timer, clock: nat) {
    t.deadline <= clock
  }

  /** The first timer that is due and not cancelled is the one called; only cancelled ones before it are dropped. */
  lemma {:induction false} FirstDueIsCalled(p: seq<Timer>, clock: nat, i: nat)
    requires i < |p| && !p[i].cancelled
    requires forall j :: 0 <= j <= i ==> Due(p[j], clock)
    requires forall j :: 0 <= j < i ==> p[j].cancelled
    ensures FireNext(p, clock) == (p[i + 1..], Some(p[i]))
    decreases i
  {
    if i > 0 {
      var rest := p[1..];
      assert forall j :: 0 <= j < |rest| ==> rest[j] == p[j + 1];
      assert p[0].cancelled;
      FirstDueIsCalled(rest, clock, i - 1);
      assert rest[i..] == p[i + 1..];
    }
  }

  /** Without such a timer exactly the due ones in front are dropped, all of them cancelled. */
  lemma {:induction false} NoneIsCalled(p: seq<Timer>, clock: nat, n: nat)
    requires n <= |p| && (n < |p| ==> !Due(p[n], clock))
    requires forall j :: 0 <= j < n ==> Due(p[j], clock) && p[j].cancelled
    ensures FireNext(p, clock) == (p[n..], None)
    decreases n
  {
    if n > 0 {
      var rest := p[1..];
      assert forall j :: 0 <= j < |rest| ==> rest[j] == p[j + 1];
      assert Due(p[0], clock) && p[0].cancelled;
      NoneIsCalled(rest, clock, n - 1);
      assert rest[n - 1..] == p[n..];
    }
  }

  /** The timers in front that are due and cancelled. */
  function Skipped(p: seq<Timer>, clock: nat): (n: nat)
    ensures n <= |p| && forall j :: 0 <= j < n ==> Due(p[j], clock) && p[j].cancelled
    ensures n < |p| ==> !Due(p[n], clock) || !p[n].cancelled
  {
    if p == [] || !Due(p[0], clock) || !p[0].cancelled then 0 else 1 + Skipped(p[1..], clock)
  }

  /** Which of the two happens. */
  lemma FireNextExactly(p: seq<Timer>, clock: nat)
    ensures var n := Skipped(p, clock);
            FireNext(p, clock) == if n < |p| && Due(p[n], clock) then (p[n + 1..], Some(p[n])) else (p[n..], None)
  {
    var n := Skipped(p, clock);
    if n < |p| && Due(p[n], clock) {
      FirstDueIsCalled(p, clock, n);
    } else {
      NoneIsCalled(p, clock, n);
    }
  }

  /** Position `i` before the step is behind the called timer, or is that timer, or was dropped as cancelled. */
  lemma WhereTheyGo(y: System, clock: nat, i: nat)
    requires Inv(y) && i < |y.pending|
    ensures var t, z := y.pending[i], Fire(y, clock);
            || (t in z.pending && y.fired <= z.fired)
            || (Due(t, clock) && !t.cancelled && z.fired == y.fired + [Firing(t.id, t.deadline, clock)])
            || (Due(t, clock) && t.cancelled && t.id in y.dead && y.fired <= z.fired)
  {
    var p, n := y.pending, Skipped(y.pending, clock);
    FireNextExactly(p, clock);
    assert PendingOk(y, p[i]);
    if i > n {
      assert p[i] == p[n + 1..][i - n - 1];
      assert p[i] == p[n..][i - n];
    } else if i == n && !(n < |p| && Due(p[n], clock)) {
      assert p[i] == p[n..][0];
    }
  }

  // ----- every timer of a run -----

  ghost predicate IsPending(y: System, id: nat) {
    exists i :: 0 <= i < |y.pending| && y.pending[i].id == id
  }

  /** Each id handed out is waiting, was called, or was cancelled while it waited. */
  ghost predicate Accounted(y: System) {
    forall id :: 1 <= id <= y.timerSeq ==> IsPending(y, id) || id in FiredIds(y.fired) || id in y.dead
  }

  lemma FiredIdsPrefix(a: seq<Firing>, b: seq<Firing>)
    requires a <= b
    ensures FiredIds(a) <= FiredIds(b)
  {
    forall id | id in FiredIds(a)
      ensures id in FiredIds(b)
    {
      var k :| 0 <= k < |a| && a[k].id == id;
      assert b[k] == a[k];
    }
  }

  lemma FireGrows(y: System, clock: nat)
    ensures y.fired <= Fire(y, clock).fired && Fire(y, clock).timerSeq == y.timerSeq && Fire(y, clock).dead == y.dead
  {
  }

  lemma FireKeepsAccounted(y: System, clock: nat)
    requires Inv(y) && Accounted(y)
    ensures Accounted(Fire(y, clock))
  {
    var z := Fire(y, clock);
    FireGrows(y, clock);
    FiredIdsPrefix(y.fired, z.fired);
    forall id | 1 <= id <= z.timerSeq && IsPending(y, id)
      ensures IsPending(z, id) || id in FiredIds(z.fired) || id in z.dead
    {
      var i :| 0 <= i < |y.pending| && y.pending[i].id == id;
      WhereTheyGo(y, clock, i);
      FiredIdsGrow(y.fired, Firing(id, y.pending[i].deadline, clock));
    }
  }

  lemma ArmedKeepsAccounted(y: System, deadline: nat)
    requires Inv(y) && Accounted(y)
    ensures Accounted(Armed(y, deadline))
    ensures IsPending(Armed(y, deadline), y.timerSeq + 1)
  {
    var t, z := Timer(deadline, y.timerSeq + 1, false), Armed(y, deadline);
    var n := Slot(y.pending, deadline);
    InsertAt(y.pending, t);
    assert z.pending[n].id == y.timerSeq + 1;
    forall id | IsPending(y, id)
      ensures IsPending(z, id)
    {
      InsertKeepsPending(y, z, t, id);
    }
  }

  lemma InsertKeepsPending(y: System, z: System, t: Timer, id: nat)
    requires IsPending(y, id) && z.pending == InsertTimer(y.pending, t)
    ensures IsPending(z, id)
  {
    var n := Slot(y.pending, t.deadline);
    InsertAt(y.pending, t);
    var i :| 0 <= i < |y.pending| && y.pending[i].id == id;
    assert z.pending[if i < n then i else i + 1].id == id;
  }

  lemma CancelKeepsAccounted(y: System, i: nat)
    requires Accounted(y)
    ensures Accounted(Next(y, CancelTimer(i)))
  {
    var z := Next(y, CancelTimer(i));
    forall id | IsPending(y, id)
      ensures IsPending(z, id)
    {
      var j :| 0 <= j < |y.pending| && y.pending[j].id == id;
      assert z.pending[j].id == id;
    }
  }

  lemma NextKeepsAccounted(y: System, a: Action)
    requires Inv(y) && Accounted(y)
    ensures Accounted(Next(y, a))
  {
    match a
    case Once(deadline, clock) =>
      ArmedKeepsAccounted(y, deadline);
      InsertKeepsInv(y, deadline);
      FireKeepsAccounted(Armed(y, deadline), clock);
    case Resume(clock) => FireKeepsAccounted(y, clock);
    case CancelTimer(i) => CancelKeepsAccounted(y, i);
  }

  /** In every interleaving no timer gets lost, and one called was not cancelled while it waited. */
  lemma {:induction false} NoTimerIsLost(y: System, actions: seq<Action>)
    requires Inv(y) && Accounted(y)
    ensures Accounted(Run(y, actions)) && FiredIds(Run(y, actions).fired) !! Run(y, actions).dead
    decreases |actions|
  {
    if actions == [] {
      assert forall k :: 0 <= k < |y.fired| ==> y.fired[k].id !in y.dead;
    } else {
      NextKeepsAccounted(y, actions[0]);
      NextKeepsInv(y, actions[0]);
      NoTimerIsLost(Next(y, actions[0]), actions[1..]);
    }
  }

  lemma NothingArmedYet()
    ensures Inv(System([], 0, [], {})) && Accounted(System([], 0, [], {}))
  {
  }

  // ----- what an id was armed with -----

  /** Wherever timer `id` shows up, it has this deadline. */
  ghost predicate HasDeadline(y: System, id: nat, deadline: nat) {
    && id <= y.timerSeq
    && (forall i :: 0 <= i < |y.pending| && y.pending[i].id == id ==> y.pending[i].deadline == deadline)
    && (forall k :: 0 <= k < |y.fired| && y.fired[k].id == id ==> y.fired[k].deadline == deadline)
  }

  lemma FireKeepsDeadline(y: System, clock: nat, id: nat, deadline: nat)
    requires HasDeadline(y, id, deadline)
    ensures HasDeadline(Fire(y, clock), id, deadline)
  {
    var p, n := y.pending, Skipped(y.pending, clock);
    FireNextExactly(p, clock);
    if n < |p| && Due(p[n], clock) {
      CalledKeepsDeadline(y, p[n], p[n + 1..], clock, n + 1, id, deadline);
    } else {
      SuffixKeepsDeadline(y, p[n..], n, id, deadline);
    }
  }

  lemma SuffixKeepsDeadline(y: System, rest: seq<Timer>, n: nat, id: nat, deadline: nat)
    requires HasDeadline(y, id, deadline) && n <= |y.pending| && rest == y.pending[n..]
    ensures HasDeadline(y.(pending := rest), id, deadline)
  {
    assert forall i :: 0 <= i < |rest| ==> rest[i] == y.pending[n + i];
  }

  lemma CalledKeepsDeadline(y: System, t: Timer, rest: seq<Timer>, clock: nat, n: nat, id: nat, deadline: nat)
    requires HasDeadline(y, id, deadline) && 0 < n <= |y.pending| && t == y.pending[n - 1] && rest == y.pending[n..]
    ensures HasDeadline(y.(pending := rest, fired := y.fired + [Firing(t.id, t.deadline, clock)]), id, deadline)
  {
    SuffixKeepsDeadline(y, rest, n, id, deadline);
  }

  lemma ArmedHasDeadline(y: System, deadline: nat)
    requires Inv(y)
    ensures HasDeadline(Armed(y, deadline), y.timerSeq + 1, deadline)
    ensures forall id, d :: HasDeadline(y, id, d) ==> HasDeadline(Armed(y, deadline), id, d)
  {
    var t := Timer(deadline, y.timerSeq + 1, false);
    InsertAt(y.pending, t);
    assert forall i :: 0 <= i < |y.pending| ==> PendingOk(y, y.pending[i]);
  }

  lemma NextKeepsDeadline(y: System, a: Action, id: nat, deadline: nat)
    requires Inv(y) && HasDeadline(y, id, deadline)
    ensures HasDeadline(Next(y, a), id, deadline)
  {
    match a
    case Once(d, clock) =>
      ArmedHasDeadline(y, d);
      FireKeepsDeadline(Armed(y, d), clock, id, deadline);
    case Resume(clock) => FireKeepsDeadline(y, clock, id, deadline);
    case CancelTimer(i) =>
  }

  /** A timer that is called is called with the deadline it was armed with, whatever comes between. */
  lemma FiresAsArmed(y: System, deadline: nat, clock: nat, actions: seq<Action>)
    requires Inv(y)
    ensures HasDeadline(Run(Next(y, Once(deadline, clock)), actions), y.timerSeq + 1, deadline)
  {
    ArmedHasDeadline(y, deadline);
    InsertKeepsInv(y, deadline);
    FireKeepsDeadline(Armed(y, deadline), clock, y.timerSeq + 1, deadline);
    NextKeepsInv(y, Once(deadline, clock));
    RunKeepsDeadline(Next(y, Once(deadline, clock)), actions, y.timerSeq + 1, deadline);
  }

  lemma {:induction false} RunKeepsDeadline(y: System, actions: seq<Action>, id: nat, deadline: nat)
    requires Inv(y) && HasDeadline(y, id, deadline)
    ensures HasDeadline(Run(y, actions), id, deadline)
    decreases |actions|
  {
    if actions != [] {
      NextKeepsDeadline(y, actions[0], id, deadline);
      NextKeepsInv(y, actions[0]);
      RunKeepsDeadline(Next(y, actions[0]), actions[1..], id, deadline);
    }
  }

  // ----- the whole loop of one call -----

  function Resumes(clock: nat, n: nat): (r: seq<Action>)
    ensures |r| == n
  {
    seq(n, _ => Resume(clock))
  }

  /** When a step calls nothing, no due timer is left. */
  lemma QuietMeansNoneDue(y: System, clock: nat)
    requires Inv(y) && FireNext(y.pending, clock).1.None?
    ensures forall t :: t in Fire(y, clock).pending ==> !Due(t, clock)
  {
    var p, n := y.pending, Skipped(y.pending, clock);
    FireNextExactly(p, clock);
    forall t | t in p[n..]
      ensures !Due(t, clock)
    {
      var i :| 0 <= i < |p[n..]| && p[n..][i] == t;
      assert i > 0 ==> Before(p[n], p[n + i]);
    }
  }

  lemma NothingDueStays(y: System, clock: nat)
    requires forall t :: t in y.pending ==> !Due(t, clock)
    ensures Fire(y, clock) == y
  {
    assert y.pending != [] ==> y.pending[0] in y.pending;
  }

  /** As long as the loop goes on it shortens the list, so after enough turns every due timer was called or cancelled. */
  lemma {:induction false} LoopCallsAllDue(y: System, clock: nat, n: nat, i: nat)
    requires Inv(y) && n > |y.pending| && i < |y.pending| && Due(y.pending[i], clock) && !y.pending[i].cancelled
    ensures y.pending[i].id in FiredIds(Run(y, Resumes(clock, n)).fired)
    decreases n
  {
    var t, z := y.pending[i], Fire(y, clock);
    OneTurn(y, clock, n);
    WhereTheyGo(y, clock, i);
    FireKeepsInv(y, clock);
    if t in z.pending {
      var j := StillThere(y, clock, t);
      LoopCallsAllDue(z, clock, n - 1, j);
    } else {
      CalledStaysCalled(y, z, t, clock, Resumes(clock, n - 1));
    }
  }

  lemma OneTurn(y: System, clock: nat, n: nat)
    requires n > 0
    ensures Run(y, Resumes(clock, n)) == Run(Fire(y, clock), Resumes(clock, n - 1))
  {
    assert Resumes(clock, n)[1..] == Resumes(clock, n - 1) && Resumes(clock, n)[0] == Resume(clock);
  }

  lemma StillThere(y: System, clock: nat, t: Timer) returns (j: nat)
    requires Inv(y) && t in Fire(y, clock).pending && Due(t, clock)
    ensures j < |Fire(y, clock).pending| < |y.pending| && Fire(y, clock).pending[j] == t
  {
    if FireNext(y.pending, clock).1.None? {
      QuietMeansNoneDue(y, clock);
      assert false;
    }
    FireNextExactly(y.pending, clock);
    var z := Fire(y, clock);
    j :| 0 <= j < |z.pending| && z.pending[j] == t;
  }

  lemma CalledStaysCalled(y: System, z: System, t: Timer, clock: nat, actions: seq<Action>)
    requires z.fired == y.fired + [Firing(t.id, t.deadline, clock)]
    ensures t.id in FiredIds(Run(z, actions).fired)
  {
    FiredIdsGrow(y.fired, Firing(t.id, t.deadline, clock));
    RunGrows(z, actions);
    FiredIdsPrefix(z.fired, Run(z, actions).fired);
  }

  lemma {:induction false} RunGrows(y: System, actions: seq<Action>)
    ensures y.fired <= Run(y, actions).fired && y.dead <= Run(y, actions).dead
    decreases |actions|
  {
    if actions != [] {
      RunGrows(Next(y, actions[0]), actions[1..]);
    }
  }
}
