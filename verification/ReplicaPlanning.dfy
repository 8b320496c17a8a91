/** Choosing modules for a demand and sharing replicas among them. Scores and complexities are real numbers. */
module ReplicaPlanning {
  import opened Sequences

  datatype Kind = Ml | Ai

  datatype Module = Module(id: string, kind: Kind, efficiency: real, weight: real, maxReplicas: nat)

  datatype Demand = Demand(
    dimension: nat, task: nat, model: string, complexity: real, efficiencyTarget: real, maxReplicas: nat, policy: string)

  datatype Selection = Selection(moduleId: string, kind: Kind, score: real, replicas: nat)

  datatype Plan = Plan(model: string, modules: seq<Selection>, total: nat, rationale: string)

  datatype Scored = Scored(m: Module, score: real)

  const ENSEMBLE_THRESHOLD: real := 0.7

  function Clamp(x: real): (r: real)
    ensures 0.0 <= r <= 1.0
  {
    if x < 0.0 then 0.0 else if x > 1.0 then 1.0 else x
  }

  function Score(m: Module, d: Demand): real {
    m.efficiency * Clamp(d.efficiencyTarget) + m.weight * (1.0 - Clamp(d.efficiencyTarget))
  }

  function Ceil(x: real): (c: int)
    ensures (c as real) - 1.0 < x <= c as real
  {
    -((-x).Floor)
  }

  /** Clamping gives the nearest number from 0 to 1. */
  lemma ClampIsNearest(x: real, q: real)
    requires 0.0 <= q <= 1.0
    ensures if x < Clamp(x) then q - x >= Clamp(x) - x else x > Clamp(x) ==> x - q >= x - Clamp(x)
    ensures 0.0 <= x <= 1.0 ==> Clamp(x) == x
  {
  }

  /** The efficiency target moves a module's score from its complexity weight to its efficiency. */
  lemma ScoreMeans(m: Module, d: Demand)
    ensures d.efficiencyTarget <= 0.0 ==> Score(m, d) == m.weight
    ensures d.efficiencyTarget >= 1.0 ==> Score(m, d) == m.efficiency
    ensures 0.0 <= d.efficiencyTarget <= 1.0 ==>
              Score(m, d) - m.weight == d.efficiencyTarget * (m.efficiency - m.weight)
  {
  }

  // ----- ranking -----

  ghost predicate Descending(s: seq<Scored>) {
    forall i, j :: 0 <= i < j < |s| ==> s[i].score >= s[j].score
  }

  /** Stable: equal scores keep their order. */
  function InsertScored(x: Scored, s: seq<Scored>): seq<Scored> {
    if s == [] || s[0].score <= x.score then [x] + s else [s[0]] + InsertScored(x, s[1..])
  }

  function Rank(s: seq<Scored>): seq<Scored> {
    if s == [] then [] else InsertScored(s[0], Rank(s[1..]))
  }

  /** The entries of one score, in their order. */
  function WithScore(s: seq<Scored>, score: real): seq<Scored> {
    if s == [] then []
    else (if s[0].score == score then [s[0]] else []) + WithScore(s[1..], score)
  }

  lemma {:induction false} InsertScoredBag(x: Scored, s: seq<Scored>)
    ensures multiset(InsertScored(x, s)) == multiset([x]) + multiset(s)
    ensures forall y :: y in InsertScored(x, s) <==> y == x || y in s
  {
    if s != [] {
      assert s == [s[0]] + s[1..];
      InsertScoredBag(x, s[1..]);
    }
  }

  lemma {:induction false} InsertScoredSorted(x: Scored, s: seq<Scored>)
    requires Descending(s)
    ensures Descending(InsertScored(x, s))
  {
    if s != [] && s[0].score > x.score {
      InsertScoredSorted(x, s[1..]);
      InsertScoredBag(x, s[1..]);
      PrependDescending(s[0], InsertScored(x, s[1..]));
    } else {
      PrependDescending(x, s);
    }
  }

  lemma PrependDescending(x: Scored, s: seq<Scored>)
    requires Descending(s) && forall y :: y in s ==> y.score <= x.score
    ensures Descending([x] + s)
  {
    assert forall i :: 0 <= i < |s| ==> s[i] in s;
  }

  lemma WithScoreFirst(x: Scored, s: seq<Scored>, score: real)
    ensures WithScore([x] + s, score) == (if x.score == score then [x] else []) + WithScore(s, score)
  {
    assert ([x] + s)[1..] == s;
  }

  lemma {:induction false} InsertScoredStable(x: Scored, s: seq<Scored>, score: real)
    ensures WithScore(InsertScored(x, s), score) == (if x.score == score then [x] else []) + WithScore(s, score)
  {
    if s == [] || s[0].score <= x.score {
      WithScoreFirst(x, s, score);
    } else {
      InsertScoredStable(x, s[1..], score);
      WithScoreFirst(s[0], InsertScored(x, s[1..]), score);
      WithScoreFirst(s[0], s[1..], score);
      assert s == [s[0]] + s[1..];
    }
  }

  /** The ranking holds the same entries, as often, in descending order, and equal scores keep their order. */
  lemma {:induction false} RankSorted(s: seq<Scored>)
    ensures Descending(Rank(s)) && multiset(Rank(s)) == multiset(s)
    ensures forall y :: y in Rank(s) <==> y in s
    ensures forall score :: WithScore(Rank(s), score) == WithScore(s, score)
  {
    if s != [] {
      assert s == [s[0]] + s[1..];
      RankSorted(s[1..]);
      InsertScoredSorted(s[0], Rank(s[1..]));
      InsertScoredBag(s[0], Rank(s[1..]));
      forall score
        ensures WithScore(Rank(s), score) == WithScore(s, score)
      {
        InsertScoredStable(s[0], Rank(s[1..]), score);
        WithScoreFirst(s[0], s[1..], score);
      }
    }
  }

  // ----- choosing -----

  /** A module of the kind that none of the kind beats. */
  ghost predicate Best(scored: seq<Scored>, kind: Kind, x: Scored) {
    x in scored && x.m.kind == kind && forall y :: y in scored && y.m.kind == kind ==> y.score <= x.score
  }

  /** One module, the best of all; or from the threshold on, if both kinds exist, the best of each, ML first. */
  ghost predicate Chosen(scored: seq<Scored>, complexity: real, selections: seq<Scored>) {
    if complexity >= ENSEMBLE_THRESHOLD && (exists x :: x in scored && x.m.kind == Ml) && (exists x :: x in scored && x.m.kind == Ai)
    then |selections| == 2 && Best(scored, Ml, selections[0]) && Best(scored, Ai, selections[1])
    else |selections| == 1 && selections[0] in scored && forall y :: y in scored ==> y.score <= selections[0].score
  }

  /** First of each kind in the ranking. */
  method BestOfEach(scored: seq<Scored>) returns (ml: Option<Scored>, ai: Option<Scored>)
    requires Descending(scored)
    ensures ml.None? ==> (forall x :: x in scored ==> x.m.kind != Ml)
    ensures ai.None? ==> (forall x :: x in scored ==> x.m.kind != Ai)
    ensures ml.Some? ==> Best(scored, Ml, ml.value)
    ensures ai.Some? ==> Best(scored, Ai, ai.value)
  {
    ml, ai := None, None;
    for i := 0 to |scored|
      invariant ml.None? ==> forall k :: 0 <= k < i ==> scored[k].m.kind != Ml
      invariant ai.None? ==> forall k :: 0 <= k < i ==> scored[k].m.kind != Ai
      invariant ml.Some? ==> Best(scored, Ml, ml.value)
      invariant ai.Some? ==> Best(scored, Ai, ai.value)
    {
      var x := scored[i];
      if x.m.kind == Ml && ml.None? {
        FirstIsBest(scored, i);
        ml := Some(x);
      } else if x.m.kind == Ai && ai.None? {
        FirstIsBest(scored, i);
        ai := Some(x);
      }
      if ml.Some? && ai.Some? {
        break;
      }
    }
  }

  lemma FirstIsBest(scored: seq<Scored>, i: nat)
    requires Descending(scored) && i < |scored| && forall k :: 0 <= k < i ==> scored[k].m.kind != scored[i].m.kind
    ensures Best(scored, scored[i].m.kind, scored[i])
  {
  }

  method Choose(scored: seq<Scored>, complexity: real) returns (selections: seq<Scored>)
    requires Descending(scored) && scored != []
    ensures Chosen(scored, complexity, selections)
  {
    if complexity >= ENSEMBLE_THRESHOLD {
      var ml, ai := BestOfEach(scored);
      if ml.Some? && ai.Some? {
        return [ml.value, ai.value];
      }
    }
    selections := [scored[0]];
  }

  // ----- sharing -----

  function DesiredTotal(maxReplicas: nat, complexity: real, chosen: nat): (r: nat)
    requires 0.0 <= complexity <= 1.0
    ensures r >= 1 && r >= chosen
  {
    ScaledNonNegative(maxReplicas, complexity);
    Max(Max(Ceil(maxReplicas as real * complexity), chosen), 1)
  }

  /** The least number of replicas that covers the scaled maximum and gives every chosen module one. */
  lemma DesiredTotalIsLeast(maxReplicas: nat, complexity: real, chosen: nat, q: nat)
    requires 0.0 <= complexity <= 1.0
    ensures Covers(DesiredTotal(maxReplicas, complexity, chosen), maxReplicas, complexity, chosen)
    ensures Covers(q, maxReplicas, complexity, chosen) ==> DesiredTotal(maxReplicas, complexity, chosen) <= q
  {
    ScaledNonNegative(maxReplicas, complexity);
    var c := Ceil(maxReplicas as real * complexity);
    assert Covers(q, maxReplicas, complexity, chosen) ==> (c as real) - 1.0 < q as real;
  }

  predicate Covers(replicas: nat, maxReplicas: nat, complexity: real, chosen: nat) {
    replicas as real >= maxReplicas as real * complexity && replicas >= chosen && replicas >= 1
  }

  function Max(a: nat, b: nat): (r: nat)
    ensures r >= a && r >= b && (r == a || r == b)
  {
    if a < b then b else a
  }

  function Min(a: nat, b: nat): (r: nat)
    ensures r <= a && r <= b && (r == a || r == b)
  {
    if a < b then a else b
  }

  lemma ScaledNonNegative(maxReplicas: nat, complexity: real)
    requires 0.0 <= complexity <= 1.0
    ensures 0 <= Ceil(maxReplicas as real * complexity) <= maxReplicas
  {
    var m := maxReplicas as real;
    assert 0.0 <= m * complexity <= m;
  }

  function Total(modules: seq<Selection>): nat {
    if modules == [] then 0 else Total(modules[..|modules| - 1]) + modules[|modules| - 1].replicas
  }

  /** The first choice takes what the demand leaves beyond one replica each, up to its own limit; the others take one. */
  ghost predicate Shared(selections: seq<Scored>, desired: nat, modules: seq<Selection>) {
    && |modules| == |selections|
    && forall i :: 0 <= i < |modules| ==>
         var s := selections[i];
         modules[i] == Selection(s.m.id, s.m.kind, s.score,
                                 if i == 0 then Min(1 + Surplus(desired, |selections|), s.m.maxReplicas) else 1)
  }

  function Surplus(desired: nat, chosen: nat): nat {
    if desired > chosen then desired - chosen else 0
  }

  method Share(selections: seq<Scored>, desired: nat) returns (modules: seq<Selection>)
    requires forall s :: s in selections ==> s.m.maxReplicas >= 1
    ensures Shared(selections, desired, modules)
  {
    modules := [];
    var remaining := desired;
    for i := 0 to |selections|
      invariant |modules| == i && (i == 0 ==> remaining == desired)
      invariant forall k :: 0 <= k < i ==>
                  var s := selections[k];
                  modules[k] == Selection(s.m.id, s.m.kind, s.score,
                                          if k == 0 then Min(1 + Surplus(desired, |selections|), s.m.maxReplicas) else 1)
    {
      var s := selections[i];
      assert s in selections;
      var replicas := 1;
      if i == 0 && remaining > |selections| {
        replicas := replicas + (remaining - |selections|);
      }
      replicas := Min(Max(replicas, 1), s.m.maxReplicas);
      modules := modules + [Selection(s.m.id, s.m.kind, s.score, replicas)];
      remaining := if replicas < remaining then remaining - replicas else 0;
    }
  }

  lemma {:induction false} OnesAddUp(modules: seq<Selection>)
    requires modules != [] && forall i :: 1 <= i < |modules| ==> modules[i].replicas == 1
    ensures Total(modules) == modules[0].replicas + |modules| - 1
    decreases |modules|
  {
    if |modules| == 1 {
      assert modules[..0] == [];
    } else {
      OnesAddUp(modules[..|modules| - 1]);
    }
  }

  lemma SharedBounds(selections: seq<Scored>, desired: nat, modules: seq<Selection>)
    requires Shared(selections, desired, modules) && selections != [] && desired >= |selections|
    requires forall i :: 0 <= i < |selections| ==> selections[i].m.maxReplicas >= 1
    ensures forall i :: 0 <= i < |modules| ==> 1 <= modules[i].replicas <= selections[i].m.maxReplicas
    ensures Total(modules) == Min(desired, selections[0].m.maxReplicas + |selections| - 1)
  {
    OnesAddUp(modules);
  }

  lemma DesiredBound(maxReplicas: nat, complexity: real, chosen: nat)
    requires 0.0 <= complexity <= 1.0 && chosen >= 1
    ensures DesiredTotal(maxReplicas, complexity, chosen) <= Max(maxReplicas, chosen)
  {
    ScaledNonNegative(maxReplicas, complexity);
  }

  // ----- the whole plan -----

  function Chooser(listing: seq<Module>, d: Demand): (r: seq<Scored>)
    ensures |r| == |listing| && forall i :: 0 <= i < |r| ==> r[i] == Scored(listing[i], Score(listing[i], d))
  {
    seq(|listing|, i requires 0 <= i < |listing| => Scored(listing[i], Score(listing[i], d)))
  }

  function Rationale(complexity: real): string {
    if complexity >= ENSEMBLE_THRESHOLD then "high complexity signal requested an ML+AI ensemble"
    else "efficiency-weighted primary module selected"
  }

  method Sum(modules: seq<Selection>) returns (total: nat)
    ensures total == Total(modules)
  {
    total := 0;
    for i := 0 to |modules|
      invariant total == Total(modules[..i])
    {
      assert modules[..i + 1][..i] == modules[..i];
      total := total + modules[i].replicas;
    }
    assert modules[..|modules|] == modules;
  }

  /** A plan for the modules in some listing: who is chosen and what each gets. */
  ghost predicate PlanFor(listing: seq<Module>, d: Demand, selections: seq<Scored>, p: Plan) {
    && Chosen(Rank(Chooser(listing, d)), Clamp(d.complexity), selections)
    && Shared(selections, DesiredTotal(d.maxReplicas, Clamp(d.complexity), |selections|), p.modules)
    && p.total == Total(p.modules) && p.model == d.model
    && p.rationale == Rationale(Clamp(d.complexity))
  }

  /** `listing` is the order in which the hash map yields the registered modules. */
  method BuildPlan(listing: seq<Module>, d: Demand) returns (p: Option<Plan>, ghost selections: seq<Scored>)
    requires forall m :: m in listing ==> m.maxReplicas >= 1
    ensures p.None? <==> listing == []
    ensures p.Some? ==> PlanFor(listing, d, selections, p.value)
  {
    selections := [];
    if listing == [] {
      return None, [];
    }
    var scored := Rank(Chooser(listing, d));
    RankSorted(Chooser(listing, d));
    assert Chooser(listing, d)[0] in scored;
    var chosen := Choose(scored, Clamp(d.complexity));
    selections := chosen;
    var desired := DesiredTotal(d.maxReplicas, Clamp(d.complexity), |chosen|);
    ChosenAreListed(listing, d, chosen);
    var modules := Share(chosen, desired);
    var total := Sum(modules);
    p := Some(Plan(d.model, modules, total, Rationale(Clamp(d.complexity))));
  }

  lemma ScoredIsListed(listing: seq<Module>, d: Demand, s: Scored)
    requires s in Chooser(listing, d)
    ensures s.m in listing && s.score == Score(s.m, d)
  {
    var i :| 0 <= i < |listing| && Chooser(listing, d)[i] == s;
  }

  lemma RankMembers(s: seq<Scored>)
    ensures forall x :: x in Rank(s) <==> x in s
  {
    RankSorted(s);
  }

  lemma ChosenAreListed(listing: seq<Module>, d: Demand, selections: seq<Scored>)
    requires Chosen(Rank(Chooser(listing, d)), Clamp(d.complexity), selections)
    ensures forall s :: s in selections ==> s.m in listing && s.score == Score(s.m, d)
  {
    RankMembers(Chooser(listing, d));
    forall s | s in selections
      ensures s.m in listing && s.score == Score(s.m, d)
    {
      assert s in Rank(Chooser(listing, d));
      ScoredIsListed(listing, d, s);
    }
  }

  /**
    * Every plan gives each chosen module between 1 and its own maximum, and in total what the demand scales to,
    * as far as the first choice's limit allows: never more than the demand's maximum or one replica each.
    */
  lemma PlanIsWithinLimits(listing: seq<Module>, d: Demand, selections: seq<Scored>, p: Plan)
    requires PlanFor(listing, d, selections, p) && forall m :: m in listing ==> m.maxReplicas >= 1
    ensures |p.modules| == |selections| && 1 <= |p.modules| <= 2
    ensures forall i :: 0 <= i < |p.modules| ==>
              selections[i].m in listing && 1 <= p.modules[i].replicas <= selections[i].m.maxReplicas
    ensures p.total == Min(DesiredTotal(d.maxReplicas, Clamp(d.complexity), |selections|),
                           selections[0].m.maxReplicas + |selections| - 1)
    ensures p.total <= Max(d.maxReplicas, |p.modules|)
  {
    ChosenAreListed(listing, d, selections);
    assert forall i :: 0 <= i < |selections| ==> selections[i] in selections;
    SharedBounds(selections, DesiredTotal(d.maxReplicas, Clamp(d.complexity), |selections|), p.modules);
    DesiredBound(d.maxReplicas, Clamp(d.complexity), |selections|);
  }

  /** None of the listed modules, or of those of one kind, scores higher. */
  ghost predicate Unbeaten(listing: seq<Module>, d: Demand, kind: Option<Kind>, m: Module) {
    && m in listing && (kind.Some? ==> m.kind == kind.value)
    && forall o :: o in listing && (kind.Some? ==> o.kind == kind.value) ==> Score(o, d) <= Score(m, d)
  }

  /** What a plan says about each module in it, from complexity 0.7 on an ensemble of the best of both kinds, ML first. */
  lemma PlanMeans(listing: seq<Module>, d: Demand, selections: seq<Scored>, p: Plan)
    requires PlanFor(listing, d, selections, p) && forall m :: m in listing ==> m.maxReplicas >= 1
    ensures p.model == d.model && |p.modules| == |selections|
    ensures forall i :: 0 <= i < |selections| ==>
              var m := selections[i].m;
              && p.modules[i] == Selection(m.id, m.kind, Score(m, d), p.modules[i].replicas)
              && (i > 0 ==> p.modules[i].replicas == 1)
              && Unbeaten(listing, d, if |selections| == 1 then None else Some(if i == 0 then Ml else Ai), m)
    ensures |selections| == 2 ==> d.complexity >= 0.7
    ensures d.complexity >= 0.7 && |selections| == 1 ==>
              (forall m :: m in listing ==> m.kind == Ai) || (forall m :: m in listing ==> m.kind == Ml)
    ensures p.rationale == if d.complexity >= 0.7 then "high complexity signal requested an ML+AI ensemble"
                           else "efficiency-weighted primary module selected"
  {
    ChosenAreListed(listing, d, selections);
    ChosenNumber(listing, d, selections);
    forall i | 0 <= i < |selections|
      ensures selections[i] in selections
      ensures Unbeaten(listing, d, if |selections| == 1 then None else Some(if i == 0 then Ml else Ai), selections[i].m)
    {
      ChosenIsUnbeaten(listing, d, selections, i);
    }
  }

  lemma ChosenIsUnbeaten(listing: seq<Module>, d: Demand, selections: seq<Scored>, i: nat)
    requires Chosen(Rank(Chooser(listing, d)), Clamp(d.complexity), selections) && i < |selections|
    ensures Unbeaten(listing, d, if |selections| == 1 then None else Some(if i == 0 then Ml else Ai), selections[i].m)
  {
    ChosenAreListed(listing, d, selections);
    assert selections[i] in selections;
    forall m | m in listing
      ensures Scored(m, Score(m, d)) in Rank(Chooser(listing, d))
    {
      ListedIsRanked(listing, d, m);
    }
  }

  lemma ListedIsRanked(listing: seq<Module>, d: Demand, m: Module)
    requires m in listing
    ensures Scored(m, Score(m, d)) in Rank(Chooser(listing, d))
  {
    var i :| 0 <= i < |listing| && listing[i] == m;
    assert Chooser(listing, d)[i] in Chooser(listing, d);
    RankMembers(Chooser(listing, d));
  }

  /** Two modules are chosen from the threshold on if both kinds are registered, otherwise one. */
  function ChosenCount(listing: seq<Module>, d: Demand): nat {
    if && Clamp(d.complexity) >= ENSEMBLE_THRESHOLD
       && (exists m :: m in listing && m.kind == Ml) && (exists m :: m in listing && m.kind == Ai)
    then 2 else 1
  }

  lemma ChosenNumber(listing: seq<Module>, d: Demand, selections: seq<Scored>)
    requires Chosen(Rank(Chooser(listing, d)), Clamp(d.complexity), selections)
    ensures |selections| == ChosenCount(listing, d)
  {
    KindsInRanking(listing, d, Ml);
    KindsInRanking(listing, d, Ai);
  }

  lemma KindsInRanking(listing: seq<Module>, d: Demand, kind: Kind)
    ensures (exists x :: x in Rank(Chooser(listing, d)) && x.m.kind == kind) <==> exists m :: m in listing && m.kind == kind
  {
    var scored := Chooser(listing, d);
    RankSorted(scored);
    if x :| x in Rank(scored) && x.m.kind == kind {
      assert x in scored;
      assert x.m in listing;
    }
    if m :| m in listing && m.kind == kind {
      var i :| 0 <= i < |listing| && listing[i] == m;
      assert scored[i] in scored && scored[i].m == m;
    }
  }

  /** The demand's maximum is kept exactly when it allows one replica for each module that will be chosen. */
  lemma DemandMaximumKeptExactlyWhen(listing: seq<Module>, d: Demand, selections: seq<Scored>, p: Plan)
    requires PlanFor(listing, d, selections, p) && forall m :: m in listing ==> m.maxReplicas >= 1
    ensures |p.modules| == ChosenCount(listing, d)
    ensures p.total <= d.maxReplicas <==> d.maxReplicas >= ChosenCount(listing, d)
  {
    PlanIsWithinLimits(listing, d, selections, p);
    ChosenNumber(listing, d, selections);
  }

  /** So a demand for no replicas at all still gets at least one, whatever modules there are. */
  lemma DemandForNoneGetsOne(listing: seq<Module>, d: Demand, selections: seq<Scored>, p: Plan)
    requires PlanFor(listing, d, selections, p) && forall m :: m in listing ==> m.maxReplicas >= 1
    requires d.maxReplicas == 0
    ensures p.total >= 1
  {
    DemandMaximumKeptExactlyWhen(listing, d, selections, p);
  }
}
