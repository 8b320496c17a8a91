/** The flow-control engine: bounded visits, ordered conditional transitions and fallbacks. */
module FlowControl {
  import opened Sequences
  import Digraph

  type Id = nat

  datatype TerminalStatus = Completed | Failed | Cancelled

  datatype StepKind = Task(nodeId: Id) | Decision(description: string) | Terminal(status: TerminalStatus)

  /** Thresholds, metrics and scores are reals. */
  datatype Condition =
    | Always
    | MetricAtLeast(metric: string, threshold: real)
    | MetricBelow(metric: string, threshold: real)
    | ModelScoreAtLeast(model: string, threshold: real)

  datatype Transition = Transition(label_: string, condition: Condition, target: Id)

  datatype Step = Step(
    id: Id, name: string, kind: StepKind, transitions: seq<Transition>, fallback: Option<Id>, maxVisits: Option<nat>)

  datatype Flow = Flow(entrypoint: Id, steps: map<Id, Step>)

  datatype FlowError =
    | StepNotFound(step: Id)
    | TransitionTargetNotFound(from: Id, target: Id)
    | MissingMetric(metric: string)
    | ModelEvaluationFailed(model: string, reason: string)
    | MaxVisitsExceeded(step: Id, limit: nat)
    | NoMatchingTransition(step: Id)

  /** Metrics of one call, and what the model evaluator answers during it. */
  datatype Context = Context(metrics: map<string, real>, score: string -> Result<real, FlowError>)

  datatype Move = Next(step: Id) | Finished(status: TerminalStatus)

  function Evaluate(c: Context, cond: Condition): Result<bool, FlowError> {
    match cond
    case Always => Ok(true)
    case MetricAtLeast(m, t) => if m in c.metrics then Ok(c.metrics[m] >= t) else Err(MissingMetric(m))
    case MetricBelow(m, t) => if m in c.metrics then Ok(c.metrics[m] < t) else Err(MissingMetric(m))
    case ModelScoreAtLeast(m, t) =>
      match c.score(m)
      case Ok(s) => Ok(s >= t)
      case Err(e) => Err(e)
  }

  /** The first transition whose condition holds; an error in an earlier condition wins. */
  function FirstMatch(c: Context, ts: seq<Transition>): Result<Option<Id>, FlowError> {
    if ts == [] then Ok(None) else
    match Evaluate(c, ts[0].condition)
    case Err(e) => Err(e)
    case Ok(hit) => if hit then Ok(Some(ts[0].target)) else FirstMatch(c, ts[1..])
  }

  function Visits(visits: map<Id, nat>, s: Id): nat {
    if s in visits then visits[s] else 0
  }

  function Record(visits: map<Id, nat>, s: Id): map<Id, nat> {
    visits[s := Visits(visits, s) + 1]
  }

  function Ensured(g: Flow, from: Id, target: Id): Result<Move, FlowError> {
    if target in g.steps then Ok(Next(target)) else Err(TransitionTargetNotFound(from, target))
  }

  /** Where a call of `advance` goes from step `s` when `visits` already includes this visit. */
  function Decide(g: Flow, s: Id, c: Context, visits: map<Id, nat>): Result<Move, FlowError>
    requires s in g.steps
  {
    var step := g.steps[s];
    if step.maxVisits.Some? && Visits(visits, s) > step.maxVisits.value then
      if step.fallback.None? then Err(MaxVisitsExceeded(s, step.maxVisits.value)) else Ensured(g, s, step.fallback.value)
    else if step.kind.Terminal? then Ok(Finished(step.kind.status))
    else
      match FirstMatch(c, step.transitions)
      case Err(e) => Err(e)
      case Ok(None) => if step.fallback.None? then Err(NoMatchingTransition(s)) else Ensured(g, s, step.fallback.value)
      case Ok(Some(target)) => Ensured(g, s, target)
  }

  function AdvanceFrom(g: Flow, s: Id, c: Context, visits: map<Id, nat>): (Result<Move, FlowError>, map<Id, nat>) {
    if s !in g.steps then (Err(StepNotFound(s)), visits) else (Decide(g, s, c, Record(visits, s)), Record(visits, s))
  }

  // ----- what an answer means -----

  /** The metric or score is known and on the asked side of the threshold. */
  ghost predicate Met(c: Context, cond: Condition) {
    match cond
    case Always => true
    case MetricAtLeast(m, t) => m in c.metrics && t <= c.metrics[m]
    case MetricBelow(m, t) => m in c.metrics && c.metrics[m] < t
    case ModelScoreAtLeast(m, t) => c.score(m).Ok? && t <= c.score(m).value
  }

  /** The metric or score is not known: `e` says which. */
  ghost predicate Unknown(c: Context, cond: Condition, e: FlowError) {
    match cond
    case Always => false
    case MetricAtLeast(m, _) => m !in c.metrics && e == MissingMetric(m)
    case MetricBelow(m, _) => m !in c.metrics && e == MissingMetric(m)
    case ModelScoreAtLeast(m, _) => c.score(m) == Err(e)
  }

  ghost predicate Unmet(c: Context, cond: Condition) {
    !Met(c, cond) && forall e :: !Unknown(c, cond, e)
  }

  /** The first `n` conditions are known not to hold. */
  ghost predicate UnmetBefore(c: Context, ts: seq<Transition>, n: nat) {
    n <= |ts| && forall j :: 0 <= j < n ==> Unmet(c, ts[j].condition)
  }

  lemma EvaluateMeans(c: Context, cond: Condition)
    ensures Evaluate(c, cond) == Ok(true) <==> Met(c, cond)
    ensures forall e :: Evaluate(c, cond) == Err(e) <==> Unknown(c, cond, e)
    ensures Evaluate(c, cond) == Ok(false) <==> Unmet(c, cond)
  {
  }

  /** At the first condition that is not known to fail, the search stops with its target or its error. */
  lemma {:induction false} FirstMatchStopsAt(c: Context, ts: seq<Transition>, i: nat)
    requires i < |ts| && UnmetBefore(c, ts, i)
    ensures Met(c, ts[i].condition) ==> FirstMatch(c, ts) == Ok(Some(ts[i].target))
    ensures forall e :: Unknown(c, ts[i].condition, e) ==> FirstMatch(c, ts) == Err(e)
  {
    EvaluateMeans(c, ts[0].condition);
    if i > 0 {
      assert Unmet(c, ts[0].condition);
      assert forall j :: 0 <= j < i - 1 ==> ts[1..][j] == ts[j + 1];
      FirstMatchStopsAt(c, ts[1..], i - 1);
    }
  }

  lemma {:induction false} FirstMatchFindsNone(c: Context, ts: seq<Transition>)
    requires UnmetBefore(c, ts, |ts|)
    ensures FirstMatch(c, ts) == Ok(None)
  {
    if ts != [] {
      EvaluateMeans(c, ts[0].condition);
      assert Unmet(c, ts[0].condition);
      assert forall j :: 0 <= j < |ts[1..]| ==> ts[1..][j] == ts[j + 1];
      FirstMatchFindsNone(c, ts[1..]);
    }
  }

  /** Every list has a first condition that is not known to fail, or none: the two lemmas above cover all answers. */
  lemma {:induction false} FirstMatchExactly(c: Context, ts: seq<Transition>)
    ensures FirstMatch(c, ts) == Ok(None) <==> UnmetBefore(c, ts, |ts|)
    ensures forall t :: FirstMatch(c, ts) == Ok(Some(t)) <==>
              exists i :: 0 <= i < |ts| && UnmetBefore(c, ts, i) && Met(c, ts[i].condition) && ts[i].target == t
    ensures forall e :: FirstMatch(c, ts) == Err(e) <==>
              exists i :: 0 <= i < |ts| && UnmetBefore(c, ts, i) && Unknown(c, ts[i].condition, e)
  {
    var n := FirstKnown(c, ts);
    if n == |ts| {
      FirstMatchFindsNone(c, ts);
    } else {
      FirstMatchStopsAt(c, ts, n);
      assert Met(c, ts[n].condition) || exists e :: Unknown(c, ts[n].condition, e);
    }
    forall i | 0 <= i < |ts| && UnmetBefore(c, ts, i)
      ensures Met(c, ts[i].condition) ==> FirstMatch(c, ts) == Ok(Some(ts[i].target))
      ensures forall e :: Unknown(c, ts[i].condition, e) ==> FirstMatch(c, ts) == Err(e)
    {
      FirstMatchStopsAt(c, ts, i);
    }
  }

  lemma FirstKnown(c: Context, ts: seq<Transition>) returns (n: nat)
    ensures UnmetBefore(c, ts, n) && (n < |ts| ==> !Unmet(c, ts[n].condition))
  {
    n := 0;
    while n < |ts| && Unmet(c, ts[n].condition)
      invariant UnmetBefore(c, ts, n)
    {
      n := n + 1;
    }
  }

  /** The answer of a call that goes to `t`, which may be missing. */
  ghost predicate Leads(g: Flow, s: Id, t: Id, r: Result<Move, FlowError>) {
    if t in g.steps then r == Ok(Next(t)) else r == Err(TransitionTargetNotFound(s, t))
  }

  /** The answer of a call that has nothing but the fallback left. */
  ghost predicate FallsBack(g: Flow, s: Id, otherwise: FlowError, r: Result<Move, FlowError>)
    requires s in g.steps
  {
    match g.steps[s].fallback
    case Some(t) => Leads(g, s, t, r)
    case None => r == Err(otherwise)
  }

  /** One visit more for `s`, and for no other step. */
  ghost predicate OneMoreVisit(before: map<Id, nat>, after: map<Id, nat>, s: Id) {
    && after.Keys == before.Keys + {s}
    && after[s] == (if s in before then before[s] else 0) + 1
    && forall t :: t in before && t != s ==> after[t] == before[t]
  }

  /** Visits made before the call have used up the limit. */
  ghost predicate LimitReached(g: Flow, s: Id, before: map<Id, nat>)
    requires s in g.steps
  {
    g.steps[s].maxVisits.Some? && (if s in before then before[s] else 0) >= g.steps[s].maxVisits.value
  }

  /**
    * The whole answer of a call: a used-up step falls back; a terminal step ends with its own status; otherwise the
    * first transition whose condition is not known to fail decides, and the fallback if there is none.
    */
  ghost predicate Answers(g: Flow, s: Id, c: Context, before: map<Id, nat>, r: Result<Move, FlowError>)
    requires s in g.steps
  {
    var step := g.steps[s];
    && (LimitReached(g, s, before) ==> FallsBack(g, s, MaxVisitsExceeded(s, step.maxVisits.value), r))
    && (!LimitReached(g, s, before) && step.kind.Terminal? ==> r == Ok(Finished(step.kind.status)))
    && (!LimitReached(g, s, before) && !step.kind.Terminal? ==>
          && (forall i :: 0 <= i < |step.transitions| && UnmetBefore(c, step.transitions, i) ==>
                && (Met(c, step.transitions[i].condition) ==> Leads(g, s, step.transitions[i].target, r))
                && (forall e :: Unknown(c, step.transitions[i].condition, e) ==> r == Err(e)))
          && (UnmetBefore(c, step.transitions, |step.transitions|) ==> FallsBack(g, s, NoMatchingTransition(s), r)))
  }

  lemma AdvanceMeans(g: Flow, s: Id, c: Context, visits: map<Id, nat>)
    ensures var (r, visits') := AdvanceFrom(g, s, c, visits);
            if s !in g.steps then r == Err(StepNotFound(s)) && visits' == visits
            else Answers(g, s, c, visits, r) && OneMoreVisit(visits, visits', s)
  {
    if s in g.steps {
      var ts := g.steps[s].transitions;
      forall i | 0 <= i < |ts| && UnmetBefore(c, ts, i)
        ensures Met(c, ts[i].condition) ==> FirstMatch(c, ts) == Ok(Some(ts[i].target))
        ensures forall e :: Unknown(c, ts[i].condition, e) ==> FirstMatch(c, ts) == Err(e)
      {
        FirstMatchStopsAt(c, ts, i);
      }
      if UnmetBefore(c, ts, |ts|) {
        FirstMatchFindsNone(c, ts);
      }
    }
  }

  /** There is no second answer. */
  lemma AnswerIsUnique(g: Flow, s: Id, c: Context, visits: map<Id, nat>, r: Result<Move, FlowError>)
    requires s in g.steps && Answers(g, s, c, visits, r)
    ensures r == AdvanceFrom(g, s, c, visits).0
  {
    AdvanceMeans(g, s, c, visits);
    var ts := g.steps[s].transitions;
    var n := FirstKnown(c, ts);
    if n < |ts| && !Met(c, ts[n].condition) {
      var e :| Unknown(c, ts[n].condition, e);
    }
  }

  // ----- validation -----

  /** `t` is the target of a transition or the fallback of step `s`. */
  predicate Targets(g: Flow, s: Id, t: Id)
    requires s in g.steps
  {
    g.steps[s].fallback == Some(t) || exists i :: 0 <= i < |g.steps[s].transitions| && g.steps[s].transitions[i].target == t
  }

  ghost predicate Validated(g: Flow) {
    forall s, t :: s in g.steps && Targets(g, s, t) ==> t in g.steps
  }

  // ----- the engine -----

  class FlowState {
    var visits: map<Id, nat>

    constructor ()
      ensures visits == map[]
    {
      visits := map[];
    }

    method RecordVisit(s: Id) returns (count: nat)
      modifies this
      ensures visits == Record(old(visits), s) && count == Visits(visits, s)
    {
      if s !in visits {
        visits := visits[s := 0];
      }
      visits := visits[s := visits[s] + 1];
      count := visits[s];
    }
  }

  /** `FlowGraph::validate`: steps come in hash order, so any missing target may be the one reported. */
  method Validate(g: Flow) returns (r: Result<(), FlowError>)
    ensures r.Ok? <==> Validated(g)
    ensures r.Err? ==> && r.error.TransitionTargetNotFound? && r.error.from in g.steps
                       && Targets(g, r.error.from, r.error.target) && r.error.target !in g.steps
  {
    var todo := g.steps.Keys;
    while todo != {}
      invariant todo <= g.steps.Keys
      invariant forall s, t :: s in g.steps && s !in todo && Targets(g, s, t) ==> t in g.steps
      decreases todo
    {
      var s :| s in todo;
      var step := g.steps[s];
      for i := 0 to |step.transitions|
        invariant forall j :: 0 <= j < i ==> step.transitions[j].target in g.steps
      {
        var target := step.transitions[i].target;
        if target !in g.steps {
          assert Targets(g, s, target);
          return Err(TransitionTargetNotFound(s, target));
        }
      }
      if step.fallback.Some? && step.fallback.value !in g.steps {
        assert Targets(g, s, step.fallback.value);
        return Err(TransitionTargetNotFound(s, step.fallback.value));
      }
      todo := todo - {s};
    }
    return Ok(());
  }

  method EnsureStep(g: Flow, from: Id, target: Id) returns (r: Result<Move, FlowError>)
    ensures r == Ensured(g, from, target)
  {
    if target !in g.steps {
      return Err(TransitionTargetNotFound(from, target));
    }
    return Ok(Next(target));
  }

  method Advance(g: Flow, s: Id, c: Context, state: FlowState) returns (r: Result<Move, FlowError>)
    modifies state
    ensures (r, state.visits) == AdvanceFrom(g, s, c, old(state.visits))
    ensures s !in g.steps ==> r == Err(StepNotFound(s)) && state.visits == old(state.visits)
    ensures s in g.steps ==> Answers(g, s, c, old(state.visits), r) && OneMoreVisit(old(state.visits), state.visits, s)
  {
    AdvanceMeans(g, s, c, state.visits);
    if s !in g.steps {
      return Err(StepNotFound(s));
    }
    var step := g.steps[s];
    var count := state.RecordVisit(s);
    if step.maxVisits.Some? && count > step.maxVisits.value {
      if step.fallback.None? {
        return Err(MaxVisitsExceeded(s, step.maxVisits.value));
      }
      r := EnsureStep(g, s, step.fallback.value);
      return;
    }
    if step.kind.Terminal? {
      return Ok(Finished(step.kind.status));
    }
    var matched: Option<Id> := None;
    for i := 0 to |step.transitions|
      invariant matched.None? && FirstMatch(c, step.transitions) == FirstMatch(c, step.transitions[i..])
      invariant state.visits == Record(old(state.visits), s)
    {
      var hit := Evaluate(c, step.transitions[i].condition);
      if hit.Err? {
        return Err(hit.error);
      }
      assert step.transitions[i..][1..] == step.transitions[i + 1..];
      if hit.value {
        matched := Some(step.transitions[i].target);
        break;
      }
    }
    if matched.Some? {
      r := EnsureStep(g, s, matched.value);
    } else if step.fallback.Some? {
      r := EnsureStep(g, s, step.fallback.value);
    } else {
      r := Err(NoMatchingTransition(s));
    }
  }

  // ----- whole runs -----

  datatype Outcome = Running(step: Id, visits: map<Id, nat>) | Ended(status: TerminalStatus) | Broken(error: FlowError)

  /** Call `advance` once per context, following the steps it returns, until the flow ends or the contexts run out. */
  function Run(g: Flow, s: Id, visits: map<Id, nat>, contexts: seq<Context>): Outcome
    decreases |contexts|
  {
    if contexts == [] then Running(s, visits) else
    var (r, visits') := AdvanceFrom(g, s, contexts[0], visits);
    match r
    case Err(e) => Broken(e)
    case Ok(Finished(status)) => Ended(status)
    case Ok(Next(t)) => Run(g, t, visits', contexts[1..])
  }

  /** Every step that is not terminal limits its visits. */
  ghost predicate Limited(g: Flow) {
    forall s :: s in g.steps && !g.steps[s].kind.Terminal? ==> g.steps[s].maxVisits.Some?
  }

  ghost function FallbackEdges(g: Flow): set<Digraph.Edge> {
    set s | s in g.steps && g.steps[s].fallback.Some? :: (s, g.steps[s].fallback.value)
  }

  /** Length of the fallback chain that starts at `s`, cut off at `fuel`. */
  ghost function Chain(g: Flow, s: Id, fuel: nat): (n: nat)
    ensures n <= fuel
    decreases fuel
  {
    if fuel == 0 || s !in g.steps || g.steps[s].fallback.None? then 0
    else 1 + Chain(g, g.steps[s].fallback.value, fuel - 1)
  }

  /** A chain that exhausts its fuel spells out a walk along fallback edges. */
  lemma {:induction false} ChainWalk(g: Flow, s: Id, fuel: nat) returns (p: seq<Id>)
    requires Validated(g) && s in g.steps && Chain(g, s, fuel) == fuel
    ensures |p| == fuel + 1 && p[0] == s && Digraph.IsWalk(FallbackEdges(g), p)
    ensures forall i :: 0 <= i < |p| ==> p[i] in g.steps
    decreases fuel
  {
    if fuel == 0 {
      p := [s];
    } else {
      var t := g.steps[s].fallback.value;
      assert Targets(g, s, t);
      var q := ChainWalk(g, t, fuel - 1);
      p := [s] + q;
      assert (s, t) in FallbackEdges(g);
      forall i | 0 <= i < |p| - 1
        ensures Digraph.StepAt(FallbackEdges(g), p, i)
      {
        if i > 0 {
          assert Digraph.StepAt(FallbackEdges(g), q, i - 1);
        }
      }
    }
  }

  /** Without fallback cycles no chain is as long as the number of steps. */
  lemma ChainIsShort(g: Flow, s: Id)
    requires Validated(g) && Digraph.Acyclic(FallbackEdges(g)) && s in g.steps
    ensures Chain(g, s, |g.steps|) < |g.steps|
  {
    if Chain(g, s, |g.steps|) == |g.steps| {
      var p := ChainWalk(g, s, |g.steps|);
      var i, j := Digraph.Pigeonhole(g.steps.Keys, p);
      Digraph.SubWalk(FallbackEdges(g), p, i, j + 1);
      assert Digraph.IsCycle(FallbackEdges(g), p[i..j + 1]);
      assert false;
    }
  }

  lemma {:induction false} ChainStable(g: Flow, s: Id, fuel: nat)
    requires Chain(g, s, fuel) < fuel
    ensures Chain(g, s, fuel + 1) == Chain(g, s, fuel)
    decreases fuel
  {
    if s in g.steps && g.steps[s].fallback.Some? {
      ChainStable(g, g.steps[s].fallback.value, fuel - 1);
    }
  }

  ghost function Rank(g: Flow, s: Id): nat {
    Chain(g, s, |g.steps|)
  }

  lemma FallbackLowersRank(g: Flow, s: Id)
    requires Validated(g) && Digraph.Acyclic(FallbackEdges(g)) && s in g.steps && g.steps[s].fallback.Some?
    ensures g.steps[s].fallback.value in g.steps
    ensures Rank(g, s) == Rank(g, g.steps[s].fallback.value) + 1
  {
    var t := g.steps[s].fallback.value;
    assert Targets(g, s, t);
    ChainIsShort(g, t);
    ChainStable(g, t, |g.steps|);
    assert Chain(g, s, |g.steps| + 1) == 1 + Rank(g, t);
    ChainIsShort(g, s);
    ChainStable(g, s, |g.steps|);
  }

  ghost function MaxRank(g: Flow, ids: seq<Id>): nat {
    if ids == [] then 0 else
    var rest := MaxRank(g, ids[1..]);
    if Rank(g, ids[0]) > rest then Rank(g, ids[0]) else rest
  }

  /** The longest fallback chain, in edges. */
  ghost function LongestFallback(g: Flow): nat {
    MaxRank(g, SortedSeq(g.steps.Keys))
  }

  lemma {:induction false} RankAtMostMax(g: Flow, ids: seq<Id>, s: Id)
    requires s in ids
    ensures Rank(g, s) <= MaxRank(g, ids)
  {
    if s != ids[0] {
      RankAtMostMax(g, ids[1..], s);
    }
  }

  lemma RankAtMostLongest(g: Flow, s: Id)
    requires s in g.steps
    ensures Rank(g, s) <= LongestFallback(g)
  {
    assert s in ToSet(SortedSeq(g.steps.Keys));
    RankAtMostMax(g, SortedSeq(g.steps.Keys), s);
  }

  /** Visits step `s` may still receive within its limit. */
  ghost function Left(g: Flow, visits: map<Id, nat>, s: Id): nat {
    if s in g.steps && g.steps[s].maxVisits.Some? && Visits(visits, s) < g.steps[s].maxVisits.value
    then g.steps[s].maxVisits.value - Visits(visits, s) else 0
  }

  ghost function SumLeft(g: Flow, visits: map<Id, nat>, ids: seq<Id>): nat {
    if ids == [] then 0 else Left(g, visits, ids[0]) + SumLeft(g, visits, ids[1..])
  }

  ghost function Budget(g: Flow, visits: map<Id, nat>): nat {
    SumLeft(g, visits, SortedSeq(g.steps.Keys))
  }

  lemma {:induction false} RecordSpendsSum(g: Flow, visits: map<Id, nat>, ids: seq<Id>, s: Id)
    requires NoDup(ids)
    ensures SumLeft(g, Record(visits, s), ids) + (if s in ids && Left(g, visits, s) > 0 then 1 else 0) == SumLeft(g, visits, ids)
  {
    if ids != [] {
      assert ids == [ids[0]] + ids[1..];
      assert ids[0] !in ids[1..];
      RecordSpendsSum(g, visits, ids[1..], s);
    }
  }

  /** A visit within the limit costs one unit of the budget; a visit beyond it costs nothing. */
  lemma RecordSpends(g: Flow, visits: map<Id, nat>, s: Id)
    requires s in g.steps
    ensures Budget(g, Record(visits, s)) + (if Left(g, visits, s) > 0 then 1 else 0) == Budget(g, visits)
  {
    var ids := SortedSeq(g.steps.Keys);
    assert s in ToSet(ids);
    RecordSpendsSum(g, visits, ids, s);
  }

  /** The product, by repeated addition. */
  ghost function Times(a: nat, b: nat): nat {
    if a == 0 then 0 else Times(a - 1, b) + b
  }

  lemma {:induction false} TimesIsProduct(a: nat, b: nat)
    ensures Times(a, b) == a * b
  {
    if a > 0 {
      TimesIsProduct(a - 1, b);
    }
  }

  lemma TimesStep(a: nat, b: nat)
    ensures Times(a + 1, b) == Times(a, b) + b
  {
  }

  /** Remaining visits first, fallback rank second. */
  ghost function Measure(g: Flow, s: Id, visits: map<Id, nat>): nat {
    Times(Budget(g, visits), LongestFallback(g) + 1) + Rank(g, s)
  }

  /** A call that goes on stays within the flow, and with no visit left it can only take the fallback. */
  lemma GoesOnTo(g: Flow, s: Id, c: Context, visits: map<Id, nat>, t: Id)
    requires s in g.steps && Decide(g, s, c, Record(visits, s)) == Ok(Next(t))
    ensures t in g.steps
    ensures Limited(g) && Left(g, visits, s) == 0 ==> g.steps[s].fallback == Some(t)
  {
    var step := g.steps[s];
    if step.maxVisits.Some? && Visits(visits, s) + 1 > step.maxVisits.value {
    } else if step.kind.Terminal? {
    } else {
      var m := FirstMatch(c, step.transitions);
      assert m.Ok?;
    }
  }

  lemma Lexicographic(b: nat, b': nat, r: nat, r': nat, w: nat)
    requires r' < w && (b == b' + 1 || (b == b' && r' < r))
    ensures Times(b', w) + r' < Times(b, w) + r
  {
    TimesStep(b', w);
  }

  /** A move spends a visit, or else goes down a fallback. */
  lemma MoveLowersMeasure(g: Flow, s: Id, t: Id, visits: map<Id, nat>)
    requires Validated(g) && Digraph.Acyclic(FallbackEdges(g)) && s in g.steps && t in g.steps
    requires Left(g, visits, s) == 0 ==> g.steps[s].fallback == Some(t)
    ensures Measure(g, t, Record(visits, s)) < Measure(g, s, visits)
  {
    RecordSpends(g, visits, s);
    RankAtMostLongest(g, t);
    if Left(g, visits, s) == 0 {
      FallbackLowersRank(g, s);
    }
    Lexicographic(Budget(g, visits), Budget(g, Record(visits, s)), Rank(g, s), Rank(g, t), LongestFallback(g) + 1);
  }

  lemma CallLowersMeasure(g: Flow, s: Id, c: Context, visits: map<Id, nat>)
    requires Validated(g) && Limited(g) && Digraph.Acyclic(FallbackEdges(g)) && s in g.steps
    requires AdvanceFrom(g, s, c, visits).0.Ok? && AdvanceFrom(g, s, c, visits).0.value.Next?
    ensures var (r, visits') := AdvanceFrom(g, s, c, visits);
            r.value.step in g.steps && Measure(g, r.value.step, visits') < Measure(g, s, visits)
  {
    var t := AdvanceFrom(g, s, c, visits).0.value.step;
    GoesOnTo(g, s, c, visits, t);
    MoveLowersMeasure(g, s, t, visits);
  }

  lemma {:induction false} RunWithinMeasure(g: Flow, s: Id, visits: map<Id, nat>, contexts: seq<Context>)
    requires Validated(g) && Limited(g) && Digraph.Acyclic(FallbackEdges(g)) && s in g.steps
    requires |contexts| > Measure(g, s, visits)
    ensures !Run(g, s, visits, contexts).Running?
    decreases |contexts|
  {
    var (r, visits') := AdvanceFrom(g, s, contexts[0], visits);
    if r.Ok? && r.value.Next? {
      CallLowersMeasure(g, s, contexts[0], visits);
      RunWithinMeasure(g, r.value.step, visits', contexts[1..]);
    }
  }

  ghost predicate MissingStep(e: FlowError) {
    e.StepNotFound? || e.TransitionTargetNotFound?
  }

  /** The evaluator reports its own failures as evaluation failures. */
  ghost predicate HonestEvaluator(c: Context) {
    forall m :: c.score(m).Err? ==> c.score(m).error.ModelEvaluationFailed?
  }

  lemma {:induction false} FirstMatchIsTarget(g: Flow, c: Context, s: Id, i: nat)
    requires s in g.steps && i <= |g.steps[s].transitions| && Validated(g) && HonestEvaluator(c)
    ensures var r := FirstMatch(c, g.steps[s].transitions[i..]);
            && (r.Ok? && r.value.Some? ==> r.value.value in g.steps)
            && (r.Err? ==> !MissingStep(r.error))
    decreases |g.steps[s].transitions| - i
  {
    var ts := g.steps[s].transitions;
    if i < |ts| {
      assert ts[i..][1..] == ts[i + 1..];
      assert Targets(g, s, ts[i].target);
      FirstMatchIsTarget(g, c, s, i + 1);
    }
  }

  /** A validated flow never runs into a step that does not exist. */
  lemma {:induction false} NoMissingStep(g: Flow, s: Id, visits: map<Id, nat>, contexts: seq<Context>)
    requires Validated(g) && s in g.steps && forall i :: 0 <= i < |contexts| ==> HonestEvaluator(contexts[i])
    ensures var o := Run(g, s, visits, contexts); (o.Broken? ==> !MissingStep(o.error)) && (o.Running? ==> o.step in g.steps)
    decreases |contexts|
  {
    if contexts != [] {
      FirstMatchIsTarget(g, contexts[0], s, 0);
      assert g.steps[s].transitions[0..] == g.steps[s].transitions;
      assert g.steps[s].fallback.Some? ==> Targets(g, s, g.steps[s].fallback.value);
      var (r, visits') := AdvanceFrom(g, s, contexts[0], visits);
      if r.Ok? && r.value.Next? {
        NoMissingStep(g, r.value.step, visits', contexts[1..]);
      }
    }
  }

  /** (sum of limits + 1) * (longest fallback chain + 1). */
  ghost function CallBound(g: Flow): nat {
    Times(Budget(g, map[]) + 1, LongestFallback(g) + 1)
  }

  lemma CallBoundIsProduct(g: Flow)
    ensures CallBound(g) == (Budget(g, map[]) + 1) * (LongestFallback(g) + 1)
  {
    TimesIsProduct(Budget(g, map[]) + 1, LongestFallback(g) + 1);
  }

  lemma OneMoreRow(b: nat, longest: nat, rank: nat)
    requires rank <= longest
    ensures Times(b + 1, longest + 1) > Times(b, longest + 1) + rank
  {
    TimesStep(b, longest + 1);
  }

  lemma BoundExceedsMeasure(g: Flow)
    requires g.entrypoint in g.steps
    ensures CallBound(g) > Measure(g, g.entrypoint, map[])
  {
    RankAtMostLongest(g, g.entrypoint);
    OneMoreRow(Budget(g, map[]), LongestFallback(g), Rank(g, g.entrypoint));
  }

  /**
    * Every run from the entry step ends, at a terminal step or with an error other than a missing step,
    * within (sum of limits + 1) * (longest fallback chain + 1) calls.
    */
  lemma FlowTerminates(g: Flow, contexts: seq<Context>)
    requires Validated(g) && Limited(g) && Digraph.Acyclic(FallbackEdges(g)) && g.entrypoint in g.steps
    requires forall i :: 0 <= i < |contexts| ==> HonestEvaluator(contexts[i])
    requires |contexts| >= CallBound(g)
    ensures var o := Run(g, g.entrypoint, map[], contexts); o.Ended? || (o.Broken? && !MissingStep(o.error))
  {
    BoundExceedsMeasure(g);
    RunWithinMeasure(g, g.entrypoint, map[], contexts);
    NoMissingStep(g, g.entrypoint, map[], contexts);
  }

  /**
    * After n calls no step has been counted more than n times: within the bound the source's 32-bit counters
    * cannot overflow as long as the bound itself is below 2^32.
    */
  lemma {:induction false} CountsStayBelowCalls(g: Flow, s: Id, visits: map<Id, nat>, contexts: seq<Context>, t: Id)
    ensures var o := Run(g, s, visits, contexts);
            o.Running? ==> Visits(visits, t) <= Visits(o.visits, t) <= Visits(visits, t) + |contexts|
    decreases |contexts|
  {
    if contexts != [] {
      var (r, visits') := AdvanceFrom(g, s, contexts[0], visits);
      if r.Ok? && r.value.Next? {
        CountsStayBelowCalls(g, r.value.step, visits', contexts[1..], t);
      }
    }
  }

  /** Steps that have used up their limits and have a fallback among themselves. */
  ghost predicate UsedUp(g: Flow, S: set<Id>, visits: map<Id, nat>) {
    && S <= g.steps.Keys
    && forall t :: t in S ==>
         && g.steps[t].maxVisits.Some? && Visits(visits, t) >= g.steps[t].maxVisits.value
         && g.steps[t].fallback.Some? && g.steps[t].fallback.value in S
  }

  lemma {:induction false} UsedUpStepsGoOn(g: Flow, S: set<Id>, s: Id, visits: map<Id, nat>, contexts: seq<Context>)
    requires s in S && UsedUp(g, S, visits)
    ensures Run(g, s, visits, contexts).Running?
    decreases |contexts|
  {
    if contexts != [] {
      UsedUpStepsGoOn(g, S, g.steps[s].fallback.value, Record(visits, s), contexts[1..]);
    }
  }

  /**
    * Why acyclic fallbacks are needed: used-up steps that fall back to each other run for ever. The source's 32-bit
    * counters last as long as the greatest count plus the number of calls stays below 2^32.
    */
  lemma FallbackCycleNeverEnds(g: Flow, S: set<Id>, s: Id, visits: map<Id, nat>, contexts: seq<Context>)
    requires s in S && UsedUp(g, S, visits)
    ensures var o := Run(g, s, visits, contexts);
            o.Running? && forall t :: Visits(visits, t) <= Visits(o.visits, t) <= Visits(visits, t) + |contexts|
  {
    UsedUpStepsGoOn(g, S, s, visits, contexts);
    forall t
      ensures var o := Run(g, s, visits, contexts); Visits(visits, t) <= Visits(o.visits, t) <= Visits(visits, t) + |contexts|
    {
      CountsStayBelowCalls(g, s, visits, contexts, t);
    }
  }
}
