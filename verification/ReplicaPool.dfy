/** Provisioning and releasing replicas: the pool's map and the kernel's map through partial failure. */
module ReplicaPooling {
  import opened Sequences
  import opened ReplicaPlanning

  datatype Request = Request(dimension: nat, task: nat, model: string, moduleId: string, policy: string)

  datatype Handle = Handle(id: nat, request: Request, createdAtMs: nat)

  datatype KernelError = LimitReached(limit: nat) | ReplicaNotFound(id: nat)

  datatype PoolError = NoModulesAvailable | KernelFailure(error: KernelError)

  type Handles = map<nat, Handle>

  // ----- the two maps as values -----

  datatype Kernel = Kernel(limit: nat, nextId: nat, replicas: Handles)

  datatype Pool = Pool(replicas: Handles, kernel: Kernel)

  function Made(k: Kernel, r: Request, now: nat): Handle {
    Handle(k.nextId, r, now)
  }

  function Create(k: Kernel, r: Request, now: nat): Kernel {
    if |k.replicas.Keys| >= k.limit then k
    else k.(nextId := k.nextId + 1, replicas := k.replicas[k.nextId := Made(k, r, now)])
  }

  /** Create one replica after another until done or refused; what was created stays. */
  function ProvisionAll(p: Pool, requests: seq<Request>, now: nat): Pool
    decreases |requests|
  {
    if requests == [] || |p.kernel.replicas.Keys| >= p.kernel.limit then p else
    ProvisionAll(With(p, requests[0], now), requests[1..], now)
  }

  function Release(p: Pool, id: nat): Pool {
    if id in p.replicas then Pool(p.replicas - {id}, p.kernel.(replicas := p.kernel.replicas - {id})) else p
  }

  /** Pool and kernel hold the same replicas, within the limit, all with ids already given out. */
  ghost predicate InStep(p: Pool) {
    && p.replicas == p.kernel.replicas
    && |p.kernel.replicas.Keys| <= p.kernel.limit
    && forall id :: id in p.replicas ==> id < p.kernel.nextId && p.replicas[id].id == id
  }

  function Room(p: Pool): int {
    p.kernel.limit - |p.kernel.replicas.Keys|
  }

  /** The pool after one accepted request. */
  function With(p: Pool, r: Request, now: nat): Pool {
    Pool(p.replicas[p.kernel.nextId := Made(p.kernel, r, now)], Create(p.kernel, r, now))
  }

  lemma WithKeepsStep(p: Pool, r: Request, now: nat)
    requires InStep(p) && Room(p) > 0
    ensures InStep(With(p, r, now)) && Room(With(p, r, now)) == Room(p) - 1
    ensures With(p, r, now).kernel.nextId == p.kernel.nextId + 1
    ensures |With(p, r, now).replicas.Keys| == |p.replicas.Keys| + 1
  {
    assert With(p, r, now).replicas.Keys == p.replicas.Keys + {p.kernel.nextId};
  }

  /** As many replicas are made as were asked for or as the limit has room for; the maps stay in step either way. */
  lemma {:induction false} ProvisionOutcome(p: Pool, requests: seq<Request>, now: nat)
    requires InStep(p)
    ensures var q, made := ProvisionAll(p, requests, now), Min(|requests|, Room(p));
            && InStep(q) && q.kernel.limit == p.kernel.limit
            && q.kernel.nextId == p.kernel.nextId + made
            && |q.replicas.Keys| == |p.replicas.Keys| + made
    decreases |requests|
  {
    if requests != [] && Room(p) > 0 {
      WithKeepsStep(p, requests[0], now);
      ProvisionOutcome(With(p, requests[0], now), requests[1..], now);
    }
  }

  /** Earlier replicas stay, and each request made has its own, under consecutive new ids. */
  lemma {:induction false} ProvisionContents(p: Pool, requests: seq<Request>, now: nat, id: nat)
    requires InStep(p)
    ensures var q, made := ProvisionAll(p, requests, now), Min(|requests|, Room(p));
            && (id in p.replicas ==> id in q.replicas && q.replicas[id] == p.replicas[id])
            && (p.kernel.nextId <= id < p.kernel.nextId + made ==>
                  id in q.replicas && q.replicas[id] == Handle(id, requests[id - p.kernel.nextId], now))
            && (id in q.replicas ==> id in p.replicas || p.kernel.nextId <= id < p.kernel.nextId + made)
    decreases |requests|
  {
    if requests != [] && Room(p) > 0 {
      WithKeepsStep(p, requests[0], now);
      ProvisionContents(With(p, requests[0], now), requests[1..], now, id);
    }
  }

  lemma ReleaseKeepsStep(p: Pool, id: nat)
    requires InStep(p)
    ensures InStep(Release(p, id)) && id !in Release(p, id).replicas
    ensures forall other :: other != id && other in p.replicas ==> other in Release(p, id).replicas
  {
    if id in p.replicas {
      assert (p.replicas - {id}).Keys == p.replicas.Keys - {id};
    }
  }

  datatype Op = Provision(requests: seq<Request>, now: nat) | ReleaseOne(id: nat)

  function Run(p: Pool, ops: seq<Op>): Pool
    decreases |ops|
  {
    if ops == [] then p else
    Run(match ops[0]
        case Provision(requests, now) => ProvisionAll(p, requests, now)
        case ReleaseOne(id) => Release(p, id),
        ops[1..])
  }

  /** Any run of provisions, finished or stopped by the limit, and releases keeps both maps the same and within it. */
  lemma {:induction false} EveryRunStaysInStep(p: Pool, ops: seq<Op>)
    requires InStep(p)
    ensures InStep(Run(p, ops)) && Run(p, ops).kernel.limit == p.kernel.limit
    decreases |ops|
  {
    if ops != [] {
      match ops[0] {
        case Provision(requests, now) =>
          ProvisionOutcome(p, requests, now);
          EveryRunStaysInStep(ProvisionAll(p, requests, now), ops[1..]);
        case ReleaseOne(id) =>
          ReleaseKeepsStep(p, id);
          EveryRunStaysInStep(Release(p, id), ops[1..]);
      }
    }
  }

  // ----- requests of a plan -----

  function RequestFor(d: Demand, s: Selection): Request {
    Request(d.dimension, d.task, d.model, s.moduleId, d.policy)
  }

  function Copies(r: Request, n: nat): seq<Request> {
    if n == 0 then [] else [r] + Copies(r, n - 1)
  }

  function Requests(d: Demand, modules: seq<Selection>): seq<Request>
    decreases |modules|
  {
    if modules == [] then [] else Copies(RequestFor(d, modules[0]), modules[0].replicas) + Requests(d, modules[1..])
  }

  lemma {:induction false} CopiesAre(r: Request, n: nat)
    ensures |Copies(r, n)| == n && forall j :: 0 <= j < n ==> Copies(r, n)[j] == r
  {
    if n > 0 {
      CopiesAre(r, n - 1);
    }
  }

  lemma {:induction false} TotalFront(modules: seq<Selection>)
    requires modules != []
    ensures Total(modules) == modules[0].replicas + Total(modules[1..])
    decreases |modules|
  {
    if |modules| == 1 {
      assert modules[..0] == [] && modules[1..] == [];
    } else {
      TotalFront(modules[..|modules| - 1]);
      assert modules[..|modules| - 1][1..] == modules[1..][..|modules| - 2];
    }
  }

  lemma {:induction false} RequestsLength(d: Demand, modules: seq<Selection>)
    ensures |Requests(d, modules)| == Total(modules)
    decreases |modules|
  {
    if modules != [] {
      CopiesAre(RequestFor(d, modules[0]), modules[0].replicas);
      RequestsLength(d, modules[1..]);
      TotalFront(modules);
    }
  }

  lemma {:induction false} RequestsSplit(d: Demand, modules: seq<Selection>, i: nat)
    requires i <= |modules|
    ensures Requests(d, modules) == Requests(d, modules[..i]) + Requests(d, modules[i..])
    decreases i
  {
    if i == 0 {
      assert modules[0..] == modules;
    } else {
      RequestsSplit(d, modules[1..], i - 1);
      assert modules[..i][1..] == modules[1..][..i - 1] && modules[1..][i - 1..] == modules[i..];
    }
  }

  /** The requests of the i-th module, by their place in the whole list. */
  lemma RequestAt(d: Demand, modules: seq<Selection>, i: nat, j: nat)
    requires i < |modules| && j < modules[i].replicas
    ensures Total(modules[..i]) + j < |Requests(d, modules)|
    ensures Requests(d, modules)[Total(modules[..i]) + j]
         == RequestFor(d, modules[i])
         == Request(d.dimension, d.task, d.model, modules[i].moduleId, d.policy)
  {
    RequestsSplit(d, modules, i);
    RequestsLength(d, modules[..i]);
    Splits(d, modules, i);
    CopiesAre(RequestFor(d, modules[i]), modules[i].replicas);
  }

  /** The handles a finished provisioning returns: consecutive new ids, each for its own request. */
  ghost predicate HandlesFor(made: seq<Handle>, first: nat, requests: seq<Request>, now: nat) {
    |made| <= |requests| && forall k :: 0 <= k < |made| ==> made[k] == Handle(first + k, requests[k], now)
  }

  lemma HandlesGrow(made: seq<Handle>, some: seq<Handle>, first: nat, d: Demand, modules: seq<Selection>, i: nat, now: nat)
    requires i < |modules| && |made| == Total(modules[..i]) && |some| == modules[i].replicas
    requires HandlesFor(made, first, Requests(d, modules), now)
    requires forall j :: 0 <= j < |some| ==> some[j] == Handle(first + |made| + j, RequestFor(d, modules[i]), now)
    ensures HandlesFor(made + some, first, Requests(d, modules), now)
  {
    RequestsLength(d, modules);
    Splits(d, modules, i);
    forall k | |made| <= k < |made + some|
      ensures (made + some)[k] == Handle(first + k, Requests(d, modules)[k], now)
    {
      RequestAt(d, modules, i, k - |made|);
    }
  }

  /** The i-th module's requests come next, and its replicas count towards the total. */
  lemma Splits(d: Demand, modules: seq<Selection>, i: nat)
    requires i < |modules|
    ensures Requests(d, modules[i..]) == Copies(RequestFor(d, modules[i]), modules[i].replicas) + Requests(d, modules[i + 1..])
    ensures Total(modules[..i + 1]) == Total(modules[..i]) + modules[i].replicas <= Total(modules)
  {
    assert modules[i..][1..] == modules[i + 1..] && modules[..i + 1][..i] == modules[..i];
    PrefixTotal(modules, i + 1);
  }

  lemma {:induction false} PrefixTotal(modules: seq<Selection>, i: nat)
    requires i <= |modules|
    ensures Total(modules[..i]) <= Total(modules)
    decreases |modules|
  {
    if i == |modules| {
      assert modules[..i] == modules;
    } else {
      PrefixTotal(modules[..|modules| - 1], i);
      assert modules[..|modules| - 1][..i] == modules[..i];
    }
  }

  // ----- the objects -----

  class InMemoryKernel {
    const limit: nat
    var nextId: nat
    var replicas: Handles

    function Value(): Kernel
      reads this
    {
      Kernel(limit, nextId, replicas)
    }

    constructor (limit: nat)
      ensures Value() == Kernel(limit, 1, map[])
    {
      this.limit, nextId, replicas := limit, 1, map[];
    }

    method CreateReplica(r: Request, now: nat) returns (h: Result<Handle, KernelError>)
      modifies this
      ensures Value() == Create(old(Value()), r, now)
      ensures h == if |old(replicas).Keys| >= limit then Err(LimitReached(limit)) else Ok(Made(old(Value()), r, now))
      ensures h.Ok? ==> h.value == Handle(old(nextId), r, now) && replicas == old(replicas)[old(nextId) := h.value]
      ensures h.Err? ==> Value() == old(Value())
    {
      if |replicas.Keys| >= limit {
        return Err(LimitReached(limit));
      }
      var made := Handle(nextId, r, now);
      nextId := nextId + 1;
      replicas := replicas[made.id := made];
      h := Ok(made);
    }

    method DestroyReplica(id: nat) returns (r: Result<(), KernelError>)
      modifies this`replicas
      ensures replicas == old(replicas) - {id}
      ensures r == if id in old(replicas) then Ok(()) else Err(ReplicaNotFound(id))
    {
      if id in replicas {
        replicas := replicas - {id};
        r := Ok(());
      } else {
        assert replicas == replicas - {id};
        r := Err(ReplicaNotFound(id));
      }
    }
  }

  class ReplicaPool {
    const kernel: InMemoryKernel
    var modules: map<string, Module>
    var replicas: Handles

    ghost predicate Valid()
      reads this, kernel
    {
      InStep(Value()) && forall id :: id in modules ==> modules[id].id == id && modules[id].maxReplicas >= 1
    }

    function Value(): Pool
      reads this, kernel
    {
      Pool(replicas, kernel.Value())
    }

    constructor (limit: nat)
      ensures Valid() && fresh(kernel) && modules == map[] && Value() == Pool(map[], Kernel(limit, 1, map[]))
    {
      kernel := new InMemoryKernel(limit);
      modules, replicas := map[], map[];
    }

    /** A module's limit is raised to at least one replica. */
    method RegisterModule(m: Module)
      requires Valid()
      modifies this`modules
      ensures Valid() && m.id in modules && modules == old(modules)[m.id := modules[m.id]]
      ensures modules[m.id] == Module(m.id, m.kind, m.efficiency, m.weight, if m.maxReplicas == 0 then 1 else m.maxReplicas)
    {
      modules := modules[m.id := m.(maxReplicas := Max(m.maxReplicas, 1))];
    }

    /** Ask the kernel for one replica and note it; `rest` is what is still to be provisioned afterwards. */
    method ProvisionOne(r: Request, ghost rest: seq<Request>, now: nat) returns (h: Result<Handle, KernelError>)
      requires Valid()
      modifies this`replicas, kernel
      ensures Valid()
      ensures h.Ok? ==> Value() == With(old(Value()), r, now) && h.value == Made(old(kernel.Value()), r, now)
      ensures h.Ok? ==> ProvisionAll(Value(), rest, now) == ProvisionAll(old(Value()), [r] + rest, now)
      ensures h.Err? ==> h.error == LimitReached(kernel.limit)
      ensures h.Err? ==> Value() == old(Value()) == ProvisionAll(old(Value()), [r] + rest, now)
    {
      assert ([r] + rest)[1..] == rest;
      if Room(Value()) > 0 {
        WithKeepsStep(Value(), r, now);
      }
      h := kernel.CreateReplica(r, now);
      if h.Ok? {
        replicas := replicas[h.value.id := h.value];
      }
    }

    /** The inner loop: one replica after another for one module. */
    method ProvisionCopies(r: Request, n: nat, ghost rest: seq<Request>, now: nat)
      returns (made: seq<Handle>, failure: Option<KernelError>)
      requires Valid()
      modifies this`replicas, kernel
      ensures Valid() && |made| <= n && kernel.nextId == old(kernel.nextId) + |made|
      ensures forall i :: 0 <= i < |made| ==> made[i] == Handle(old(kernel.nextId) + i, r, now)
      ensures failure.None? ==> |made| == n
      ensures failure.None? ==> ProvisionAll(Value(), rest, now) == ProvisionAll(old(Value()), Copies(r, n) + rest, now)
      ensures failure.Some? ==> failure == Some(LimitReached(kernel.limit)) && |made| < n
      ensures failure.Some? ==> Value() == ProvisionAll(old(Value()), Copies(r, n) + rest, now)
    {
      made, failure := [], None;
      for j := 0 to n
        invariant Valid() && |made| == j && kernel.nextId == old(kernel.nextId) + j
        invariant forall i :: 0 <= i < j ==> made[i] == Handle(old(kernel.nextId) + i, r, now)
        invariant ProvisionAll(Value(), Copies(r, n - j) + rest, now) == ProvisionAll(old(Value()), Copies(r, n) + rest, now)
      {
        assert Copies(r, n - j) + rest == [r] + (Copies(r, n - j - 1) + rest);
        var one := ProvisionOne(r, Copies(r, n - j - 1) + rest, now);
        if one.Err? {
          return made, Some(one.error);
        }
        made := made + [one.value];
      }
      assert Copies(r, 0) + rest == rest;
    }

    /** The outer loop: module after module, stopping at the first refusal. */
    method ProvisionModules(d: Demand, selected: seq<Selection>, now: nat)
      returns (made: seq<Handle>, failure: Option<KernelError>)
      requires Valid()
      modifies this`replicas, kernel
      ensures Valid() && Value() == ProvisionAll(old(Value()), Requests(d, selected), now)
      ensures failure.None? ==> kernel.nextId == old(kernel.nextId) + Total(selected) && |made| == Total(selected)
      ensures failure.None? ==> HandlesFor(made, old(kernel.nextId), Requests(d, selected), now)
      ensures failure.Some? ==> failure == Some(LimitReached(kernel.limit))
      ensures failure.Some? ==> kernel.nextId < old(kernel.nextId) + Total(selected)
    {
      made, failure := [], None;
      assert selected[0..] == selected;
      for i := 0 to |selected|
        invariant Valid() && kernel.nextId == old(kernel.nextId) + Total(selected[..i])
        invariant |made| == Total(selected[..i])
        invariant HandlesFor(made, old(kernel.nextId), Requests(d, selected), now)
        invariant ProvisionAll(Value(), Requests(d, selected[i..]), now) == ProvisionAll(old(Value()), Requests(d, selected), now)
      {
        Splits(d, selected, i);
        var some, f := ProvisionCopies(RequestFor(d, selected[i]), selected[i].replicas, Requests(d, selected[i + 1..]), now);
        if f.Some? {
          failure := f;
          return;
        }
        HandlesGrow(made, some, old(kernel.nextId), d, selected, i, now);
        made := made + some;
      }
      assert selected[..|selected|] == selected;
    }

    /**
      * Succeeds exactly when the kernel has room for the whole plan. When it has not, the replicas made before
      * the refusal stay, in the pool as in the kernel, although the caller gets no handles.
      */
    method Provision(listing: seq<Module>, d: Demand, now: nat)
      returns (r: Result<(Plan, seq<Handle>), PoolError>, ghost selections: seq<Scored>, ghost plan: Plan)
      requires Valid() && ToSet(listing) == modules.Values && NoDup(listing)
      modifies this`replicas, kernel
      ensures Valid()
      ensures listing == [] ==> r == Err(NoModulesAvailable) && Value() == old(Value())
      ensures listing != [] ==> PlanFor(listing, d, selections, plan)
      ensures listing != [] ==> Value() == ProvisionAll(old(Value()), Requests(d, plan.modules), now)
      ensures listing != [] ==> (r.Ok? <==> |old(replicas).Keys| + plan.total <= kernel.limit)
      ensures listing != [] && r.Err? ==> r.error == KernelFailure(LimitReached(kernel.limit))
      ensures r.Ok? ==> r.value.0 == plan && |r.value.1| == plan.total
      ensures r.Ok? ==> HandlesFor(r.value.1, old(kernel.nextId), Requests(d, plan.modules), now)
    {
      selections, plan := [], Plan("", [], 0, "");
      assert forall m :: m in listing ==> m in ToSet(listing);
      var p, chosen := BuildPlan(listing, d);
      if p.None? {
        r := Err(NoModulesAvailable);
        return;
      }
      selections, plan := chosen, p.value;
      RequestsLength(d, plan.modules);
      ProvisionOutcome(Value(), Requests(d, plan.modules), now);
      var made, failure := ProvisionModules(d, p.value.modules, now);
      r := if failure.Some? then Err(KernelFailure(failure.value)) else Ok((p.value, made));
    }

    /** A held replica is destroyed in the kernel too; any other id is ignored. */
    method ReleaseReplica(id: nat) returns (r: Result<(), PoolError>)
      requires Valid()
      modifies this`replicas, kernel`replicas
      ensures Valid() && Value() == Release(old(Value()), id) && r == Ok(())
      ensures replicas == old(replicas) - {id} && kernel.replicas == old(kernel.replicas) - {id}
    {
      ReleaseKeepsStep(Value(), id);
      if id in replicas {
        replicas := replicas - {id};
        var destroyed := kernel.DestroyReplica(id);
        r := match destroyed case Ok(_) => Ok(()) case Err(e) => Err(KernelFailure(e));
      } else {
        r := Ok(());
      }
    }
  }
}
