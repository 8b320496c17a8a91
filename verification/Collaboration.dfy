/** Last-write-wins resolution of concurrent canvas edits, per field key. */
module Collaboration {
  import opened Sequences
  import opened Strings

  datatype Change =
    | Move(position: (real, real))
    | SetParameter(name: string, value: string)
    | AddEdge(fromNode: string, fromPort: string, toNode: string, toPort: string)
    | RemoveEdge(fromNode: string, fromPort: string, toNode: string, toPort: string)

  datatype Edit = Edit(opId: string, author: string, timestampMs: nat, nodeId: string, change: Change)

  function FieldKey(e: Edit): string {
    match e.change
    case Move(_) => e.nodeId + ":position"
    case SetParameter(name, _) => e.nodeId + ":param:" + name
    case AddEdge(f, fp, t, tp) => "edge:" + f + ":" + fp + "->" + t + ":" + tp
    case RemoveEdge(f, fp, t, tp) => "edge:" + f + ":" + fp + "->" + t + ":" + tp
  }

  /** Later in time, or as late with the greater op id. */
  predicate Newer(a: Edit, b: Edit) {
    a.timestampMs > b.timestampMs || (a.timestampMs == b.timestampMs && Less(b.opId, a.opId))
  }

  type Accepted = map<string, Edit>

  function Accept(accepted: Accepted, e: Edit): Accepted {
    var key := FieldKey(e);
    if key in accepted && !Newer(e, accepted[key]) then accepted else accepted[key := e]
  }

  /** Edits delivered in the order of the list. */
  function Resolve(edits: seq<Edit>): Accepted {
    if edits == [] then map[] else Accept(Resolve(edits[..|edits| - 1]), edits[|edits| - 1])
  }

  // ----- convergence -----

  /** An edit of the key that no edit of the key is newer than. */
  ghost predicate Winner(edits: seq<Edit>, key: string, w: Edit) {
    w in edits && FieldKey(w) == key && forall e :: e in edits && FieldKey(e) == key ==> !Newer(e, w)
  }

  lemma NewerIsTransitive(a: Edit, b: Edit, c: Edit)
    requires !Newer(a, b) && !Newer(b, c)
    ensures !Newer(a, c)
  {
    Trichotomy(a.opId, b.opId);
    Trichotomy(b.opId, c.opId);
    if Less(c.opId, b.opId) {
    } else if Less(b.opId, a.opId) {
    } else if a.timestampMs == b.timestampMs == c.timestampMs {
      if Less(a.opId, b.opId) && Less(b.opId, c.opId) {
        Transitive(a.opId, b.opId, c.opId);
      }
      if Less(c.opId, a.opId) {
        Irreflexive(a.opId);
        if Less(a.opId, c.opId) {
          Transitive(a.opId, c.opId, a.opId);
        }
      }
    }
  }

  /** The resolver holds a winner for exactly the keys that were edited, whatever the order of delivery. */
  lemma {:induction false} ResolveHoldsWinners(edits: seq<Edit>, key: string)
    ensures key in Resolve(edits) <==> exists e :: e in edits && FieldKey(e) == key
    ensures key in Resolve(edits) ==> Winner(edits, key, Resolve(edits)[key])
  {
    if edits != [] {
      var init, last := edits[..|edits| - 1], edits[|edits| - 1];
      assert edits == init + [last];
      ResolveHoldsWinners(init, key);
      Irreflexive(last.opId);
      if key in Resolve(init) && FieldKey(last) == key {
        var held := Resolve(init)[key];
        if Newer(last, held) {
          forall e | e in edits && FieldKey(e) == key
            ensures !Newer(e, last)
          {
            if e in init {
              assert !Newer(e, held);
              NewerIsAsymmetric(last, held);
              NewerIsTransitive(e, held, last);
            }
          }
        }
      }
    }
  }

  lemma NewerIsAsymmetric(a: Edit, b: Edit)
    requires Newer(a, b)
    ensures !Newer(b, a)
  {
    if Less(a.opId, b.opId) && Less(b.opId, a.opId) {
      Transitive(a.opId, b.opId, a.opId);
      Irreflexive(a.opId);
    }
  }

  ghost predicate UniqueWinners(edits: seq<Edit>) {
    forall key, v, w :: Winner(edits, key, v) && Winner(edits, key, w) ==> v == w
  }

  /** Any list with the same edits, reordered or with repetitions, resolves alike. */
  ghost predicate Converges(edits: seq<Edit>) {
    forall other :: ToSet(other) == ToSet(edits) ==> Resolve(other) == Resolve(edits)
  }

  lemma SameWinners(edits: seq<Edit>, other: seq<Edit>, key: string, w: Edit)
    requires ToSet(other) == ToSet(edits)
    ensures Winner(edits, key, w) <==> Winner(other, key, w)
  {
    assert forall e :: e in edits <==> e in ToSet(edits);
    assert forall e :: e in other <==> e in ToSet(other);
  }

  lemma UniqueWinnersConverge(edits: seq<Edit>, other: seq<Edit>)
    requires UniqueWinners(edits) && ToSet(other) == ToSet(edits)
    ensures Resolve(other) == Resolve(edits)
  {
    forall key
      ensures key in Resolve(other) <==> key in Resolve(edits)
      ensures key in Resolve(edits) ==> Resolve(other)[key] == Resolve(edits)[key]
    {
      ResolveHoldsWinners(edits, key);
      ResolveHoldsWinners(other, key);
      assert forall e :: e in edits <==> e in ToSet(edits);
      assert forall e :: e in other <==> e in ToSet(other);
      if key in Resolve(edits) {
        SameWinners(edits, other, key, Resolve(other)[key]);
      }
    }
  }

  /** A winner delivered first is never displaced. */
  lemma {:induction false} FirstWinnerStays(w: Edit, edits: seq<Edit>)
    requires Winner([w] + edits, FieldKey(w), w)
    ensures FieldKey(w) in Resolve([w] + edits) && Resolve([w] + edits)[FieldKey(w)] == w
  {
    if edits == [] {
      assert [w] + edits == [w];
      assert [w][..0] == [];
    } else {
      var init, last := edits[..|edits| - 1], edits[|edits| - 1];
      var all := [w] + edits;
      assert all[..|all| - 1] == [w] + init;
      assert forall e :: e in [w] + init ==> e in all;
      FirstWinnerStays(w, init);
      assert last in all;
    }
  }

  /** Delivery order and repetition are irrelevant exactly when no key has two different newest edits. */
  lemma ConvergesExactlyWhenWinnersAreUnique(edits: seq<Edit>)
    ensures Converges(edits) <==> UniqueWinners(edits)
  {
    if UniqueWinners(edits) {
      forall other | ToSet(other) == ToSet(edits)
        ensures Resolve(other) == Resolve(edits)
      {
        UniqueWinnersConverge(edits, other);
      }
    }
    if Converges(edits) {
      forall key, v, w | Winner(edits, key, v) && Winner(edits, key, w)
        ensures v == w
      {
        DeliveredFirst(edits, key, v);
        DeliveredFirst(edits, key, w);
      }
    }
  }

  lemma DeliveredFirst(edits: seq<Edit>, key: string, w: Edit)
    requires Converges(edits) && Winner(edits, key, w)
    ensures key in Resolve(edits) && Resolve(edits)[key] == w
  {
    var other := [w] + edits;
    assert ToSet(other) == ToSet(edits);
    SameWinners(edits, other, key, w);
    FirstWinnerStays(w, edits);
  }

  ghost predicate DistinctIds(edits: seq<Edit>) {
    forall a, b :: a in edits && b in edits && a.opId == b.opId ==> a == b
  }

  /** When different edits have different op ids, every key has one winner, so every order converges to it. */
  lemma DistinctIdsConverge(edits: seq<Edit>)
    requires DistinctIds(edits)
    ensures Converges(edits)
    ensures forall key, w :: Winner(edits, key, w) ==> key in Resolve(edits) && Resolve(edits)[key] == w
  {
    forall key, v, w | Winner(edits, key, v) && Winner(edits, key, w)
      ensures v == w
    {
      Trichotomy(v.opId, w.opId);
    }
    ConvergesExactlyWhenWinnersAreUnique(edits);
    forall key, w | Winner(edits, key, w)
      ensures key in Resolve(edits) && Resolve(edits)[key] == w
    {
      DeliveredFirst(edits, key, w);
    }
  }

  /** Op ids are not checked: two edits with one id and time leave whichever came first. */
  lemma RepeatedIdDiverges()
    ensures exists a: Edit, b: Edit :: a.opId == b.opId && Resolve([a, b]) != Resolve([b, a])
  {
    var a := Edit("op", "alice", 1, "n", SetParameter("p", "x"));
    var b := Edit("op", "bob", 1, "n", SetParameter("p", "y"));
    assert Winner([a] + [b], FieldKey(a), a) && Winner([b] + [a], FieldKey(a), b) by {
      Irreflexive("op");
    }
    FirstWinnerStays(a, [b]);
    FirstWinnerStays(b, [a]);
    assert [a] + [b] == [a, b] && [b] + [a] == [b, a];
  }

  // ----- field keys -----

  /** What an edit is about; adding and removing an edge are about the same thing. */
  datatype Target =
    | Position(node: string)
    | Param(node: string, name: string)
    | Edge(fromNode: string, fromPort: string, toNode: string, toPort: string)

  function TargetOf(e: Edit): Target {
    match e.change
    case Move(_) => Position(e.nodeId)
    case SetParameter(name, _) => Param(e.nodeId, name)
    case AddEdge(f, fp, t, tp) => Edge(f, fp, t, tp)
    case RemoveEdge(f, fp, t, tp) => Edge(f, fp, t, tp)
  }

  predicate NoArrow(s: string) {
    forall i :: 0 <= i < |s| - 1 ==> s[i] != '-' || s[i + 1] != '>'
  }

  predicate Clean(s: string) {
    ':' !in s && NoArrow(s)
  }

  predicate CleanTarget(t: Target) {
    match t
    case Position(n) => Clean(n)
    case Param(n, p) => Clean(n) && Clean(p)
    case Edge(f, fp, t, tp) => Clean(f) && Clean(fp) && Clean(t) && Clean(tp)
  }

  /** Where the first colon of a string is. */
  function ColonAt(s: string): nat {
    if s == [] || s[0] == ':' then 0 else 1 + ColonAt(s[1..])
  }

  /** Where the first arrow is. */
  function ArrowAt(s: string): nat {
    if |s| < 2 || (s[0] == '-' && s[1] == '>') then 0 else 1 + ArrowAt(s[1..])
  }

  lemma {:induction false} ColonAfter(a: string, x: string)
    requires ':' !in a
    ensures ColonAt(a + ":" + x) == |a|
  {
    var s := a + ":" + x;
    if a != [] {
      assert s[1..] == a[1..] + ":" + x && s[0] == a[0];
      assert a[0] in a;
      ColonAfter(a[1..], x);
    }
  }

  lemma {:induction false} ArrowAfter(a: string, x: string)
    requires NoArrow(a)
    ensures ArrowAt(a + "->" + x) == |a|
  {
    var s := a + "->" + x;
    if a != [] {
      assert s[1..] == a[1..] + "->" + x && s[0] == a[0];
      assert s[1] == if |a| == 1 then '-' else a[1];
      forall i | 0 <= i < |a[1..]| - 1
        ensures a[1..][i] != '-' || a[1..][i + 1] != '>'
      {
        assert a[1..][i] == a[i + 1];
      }
      ArrowAfter(a[1..], x);
    }
  }

  /** A string is cut at its first colon in one way. */
  lemma FirstColon(a: string, x: string, b: string, y: string)
    requires ':' !in a && ':' !in b && a + ":" + x == b + ":" + y
    ensures a == b && x == y
  {
    ColonAfter(a, x);
    ColonAfter(b, y);
    SameCut(a, ":", x, b, y);
  }

  /** And at its first arrow. */
  lemma FirstArrow(a: string, x: string, b: string, y: string)
    requires NoArrow(a) && NoArrow(b) && a + "->" + x == b + "->" + y
    ensures a == b && x == y
  {
    ArrowAfter(a, x);
    ArrowAfter(b, y);
    SameCut(a, "->", x, b, y);
  }

  lemma SameCut(a: string, mid: string, x: string, b: string, y: string)
    requires |a| == |b| && a + mid + x == b + mid + y
    ensures a == b && x == y
  {
    var s, t := a + mid + x, b + mid + y;
    assert a == s[..|a|] && b == t[..|b|];
    assert x == s[|a| + |mid|..] && y == t[|b| + |mid|..];
  }

  function Colons(s: string): nat {
    if s == [] then 0 else (if s[0] == ':' then 1 else 0) + Colons(s[1..])
  }

  lemma {:induction false} ColonsAdd(a: string, b: string)
    ensures Colons(a + b) == Colons(a) + Colons(b)
  {
    if a == [] {
      assert a + b == b;
    } else {
      assert (a + b)[1..] == a[1..] + b;
      ColonsAdd(a[1..], b);
    }
  }

  lemma {:induction false} NoColons(a: string)
    requires ':' !in a
    ensures Colons(a) == 0
  {
    if a != [] {
      assert a[0] in a;
      NoColons(a[1..]);
    }
  }

  /** The key without its first component. */
  function KeyTail(t: Target): string {
    match t
    case Position(_) => "position"
    case Param(_, p) => "param:" + p
    case Edge(f, fp, t, tp) => f + ":" + fp + "->" + t + ":" + tp
  }

  function KeyHead(t: Target): string {
    if t.Edge? then "edge" else t.node
  }

  lemma KeyIsHeadAndTail(e: Edit)
    ensures FieldKey(e) == KeyHead(TargetOf(e)) + ":" + KeyTail(TargetOf(e))
  {
    match e.change
    case Move(_) =>
      assert e.nodeId + ":position" == e.nodeId + ":" + "position";
    case SetParameter(name, _) =>
      assert ":param:" == ":" + "param:";
      assert e.nodeId + ":param:" + name == e.nodeId + ":" + ("param:" + name);
    case AddEdge(f, fp, t, tp) =>
      assert "edge:" + f + ":" + fp + "->" + t + ":" + tp == "edge" + ":" + (f + ":" + fp + "->" + t + ":" + tp);
    case RemoveEdge(f, fp, t, tp) =>
      assert "edge:" + f + ":" + fp + "->" + t + ":" + tp == "edge" + ":" + (f + ":" + fp + "->" + t + ":" + tp);
  }

  lemma EqualEdgeTails(s: Target, t: Target)
    requires CleanTarget(s) && CleanTarget(t) && s.Edge? && t.Edge? && KeyTail(s) == KeyTail(t)
    ensures s == t
  {
    var (x, y) := (s.fromPort + "->" + s.toNode + ":" + s.toPort, t.fromPort + "->" + t.toNode + ":" + t.toPort);
    assert KeyTail(s) == s.fromNode + ":" + x && KeyTail(t) == t.fromNode + ":" + y;
    FirstColon(s.fromNode, x, t.fromNode, y);
    assert ':' !in s.fromPort + "->" + s.toNode && ':' !in t.fromPort + "->" + t.toNode;
    FirstColon(s.fromPort + "->" + s.toNode, s.toPort, t.fromPort + "->" + t.toNode, t.toPort);
    FirstArrow(s.fromPort, s.toNode, t.fromPort, t.toNode);
  }

  /** The kind of a target shows in the number of colons of its key. */
  lemma TailColons(t: Target)
    requires CleanTarget(t)
    ensures Colons(KeyTail(t)) == if t.Position? then 0 else if t.Param? then 1 else 2
  {
    assert Colons(":") == 1;
    match t
    case Position(_) =>
      NoColons("position");
    case Param(_, p) =>
      assert KeyTail(t) == "param" + ":" + p;
      NoColons("param");
      NoColons(p);
      ColonsAdd("param", ":");
      ColonsAdd("param" + ":", p);
    case Edge(f, fp, to, tp) =>
      var mid := fp + "->" + to;
      assert KeyTail(t) == f + ":" + mid + ":" + tp;
      NoColons(f);
      NoColons(mid);
      NoColons(tp);
      ColonsAdd(f, ":");
      ColonsAdd(f + ":", mid);
      ColonsAdd(f + ":" + mid, ":");
      ColonsAdd(f + ":" + mid + ":", tp);
  }

  /** Without ':' and "->" in ids and names, keys name their targets: different targets never share a key. */
  lemma CleanKeysNameTheirTargets(d: Edit, e: Edit)
    requires CleanTarget(TargetOf(d)) && CleanTarget(TargetOf(e))
    ensures FieldKey(d) == FieldKey(e) <==> TargetOf(d) == TargetOf(e)
  {
    var s, t := TargetOf(d), TargetOf(e);
    KeyIsHeadAndTail(d);
    KeyIsHeadAndTail(e);
    if FieldKey(d) == FieldKey(e) {
      FirstColon(KeyHead(s), KeyTail(s), KeyHead(t), KeyTail(t));
      TailColons(s);
      TailColons(t);
      if s.Edge? {
        EqualEdgeTails(s, t);
      } else if s.Param? {
        assert KeyTail(s)[6..] == s.name && KeyTail(t)[6..] == t.name;
      }
    }
  }

  /** A colon in a node id and a parameter name: moving one node and setting a parameter of another collide. */
  lemma ColonsCollide(n: string, p: string, d: Edit, e: Edit)
    requires d.change.Move? && d.nodeId == n + ":param:" + p
    requires e.change.SetParameter? && e.nodeId == n && e.change.name == p + ":position"
    ensures TargetOf(d) != TargetOf(e) && FieldKey(d) == FieldKey(e)
  {
    assert n + ":param:" + p + ":position" == n + ":param:" + (p + ":position");
  }

  /** Exactly when moving a node and setting a parameter share a key, whatever the ids and names. */
  lemma PositionMeetsParamExactlyWhen(d: Edit, e: Edit)
    requires d.change.Move? && e.change.SetParameter?
    ensures FieldKey(d) == FieldKey(e) <==> exists r :: ParamEndsInPosition(d.nodeId, e.nodeId, e.change.name, r)
  {
    var n, m, q := d.nodeId, e.nodeId, e.change.name;
    if FieldKey(d) == FieldKey(e) {
      PositionSuffix(n, m, q);
    }
    if r :| ParamEndsInPosition(n, m, q, r) {
      assert m + ":param:" + q == m + ":param" + (":" + q);
      assert m + ":param" + (r + ":position") == m + ":param" + r + ":position";
    }
  }

  /** The parameter's part of the key, with the colon before it, ends in ":position", and the node is the rest. */
  predicate ParamEndsInPosition(n: string, m: string, q: string, r: string) {
    ":" + q == r + ":position" && n == m + ":param" + r
  }

  lemma PositionSuffix(n: string, m: string, q: string)
    requires n + ":position" == m + ":param:" + q
    ensures exists r :: ParamEndsInPosition(n, m, q, r)
  {
    var key, head := n + ":position", m + ":param";
    assert m + ":param:" + q == head + (":" + q);
    assert key[|head|] == ':';
    ColonBeforePosition(n, |head|);
    var r := n[|head|..];
    assert n == key[..|n|] && head == key[..|head|];
    assert n[..|head|] == head && n == head + r;
    assert ":" + q == key[|head|..] && key[|head|..] == r + ":position";
    assert ParamEndsInPosition(n, m, q, r);
  }

  /** In a position key the last colon is the one before "position". */
  lemma ColonBeforePosition(n: string, i: nat)
    requires i < |n| + 9 && (n + ":position")[i] == ':'
    ensures i <= |n|
  {
    assert (n + ":position")[i] == if i < |n| then n[i] else ":position"[i - |n|];
  }

  /** An arrow in a port name or a node id: two different edges collide. */
  lemma ArrowsCollide(p: string, q: string, r: string, d: Edit, e: Edit)
    requires d.change.AddEdge? && d.change.fromPort == p + "->" + q && d.change.toNode == r
    requires e.change == AddEdge(d.change.fromNode, p, q + "->" + r, d.change.toPort)
    ensures TargetOf(d) != TargetOf(e) && FieldKey(d) == FieldKey(e)
  {
    var start := "edge:" + d.change.fromNode + ":";
    assert start + (p + "->" + q) + "->" + r == start + p + "->" + (q + "->" + r);
    assert |p| != |p + "->" + q|;
  }

  // ----- the resolver object -----

  class ConflictResolver {
    var accepted: Accepted
    ghost var delivered: seq<Edit>

    ghost predicate Valid()
      reads this
    {
      accepted == Resolve(delivered)
    }

    constructor ()
      ensures Valid() && accepted == map[] && delivered == []
    {
      accepted, delivered := map[], [];
    }

    /** Accepted exactly when nothing held for the key is as new; afterwards the key holds a newest edit. */
    method Apply(e: Edit) returns (ok: bool)
      requires Valid()
      modifies this
      ensures Valid() && delivered == old(delivered) + [e]
      ensures ok <==> FieldKey(e) !in old(accepted) || Newer(e, old(accepted)[FieldKey(e)])
      ensures ok <==> FieldKey(e) in old(accepted) ==>
                        var held := old(accepted)[FieldKey(e)];
                        held.timestampMs < e.timestampMs || (held.timestampMs == e.timestampMs && Less(held.opId, e.opId))
      ensures accepted == if ok then old(accepted)[FieldKey(e) := e] else old(accepted)
      ensures FieldKey(e) in accepted && Winner(delivered, FieldKey(e), accepted[FieldKey(e)])
    {
      delivered := delivered + [e];
      assert delivered[..|delivered| - 1] == old(delivered);
      ResolveHoldsWinners(delivered, FieldKey(e));
      var key := FieldKey(e);
      if key in accepted {
        var existing := accepted[key];
        if !(e.timestampMs > existing.timestampMs || (e.timestampMs == existing.timestampMs && Less(existing.opId, e.opId))) {
          return false;
        }
      }
      accepted := accepted[key := e];
      ok := true;
    }
  }
}
