/** Which list a diff is: eight passes one after the other, each in the order of its keys. */
module DiffOrder {
  import opened Sequences
  import opened GraphSchema
  import opened GraphPatching

  /** The place of an operation: the pass that emits it and the key it is about. */
  datatype Place = Place(pass: nat, key: Id)

  predicate Precedes(a: Place, b: Place) {
    a.pass < b.pass || (a.pass == b.pass && a.key < b.key)
  }

  ghost predicate InOrder(places: seq<Place>) {
    forall i, j :: 0 <= i < j < |places| ==> Precedes(places[i], places[j])
  }

  /** What belongs at a place: new entries are put and missing ones dropped, kind by kind. */
  ghost predicate Says(from: Schema, to: Schema, c: Place, op: PatchOp) {
    match c.pass
    case 0 => c.key in to.nodes && c.key !in from.nodes && op == PutNode(to.nodes[c.key])
    case 1 => c.key in from.nodes && c.key !in to.nodes && op == DropNode(c.key)
    case 2 => c.key in to.links && c.key !in from.links && op == PutLink(to.links[c.key])
    case 3 => c.key in from.links && c.key !in to.links && op == DropLink(c.key)
    case 4 => c.key in to.groups && c.key !in from.groups && op == PutGroup(to.groups[c.key])
    case 5 => c.key in from.groups && c.key !in to.groups && op == DropGroup(c.key)
    case 6 => c.key in to.subgraphs && c.key !in from.subgraphs && op == PutSubgraph(to.subgraphs[c.key])
    case 7 => c.key in from.subgraphs && c.key !in to.subgraphs && op == DropSubgraph(c.key)
    case _ => false
  }

  /** The operations of the passes from `lo` up to but not including `hi`, all of them, in order. */
  ghost predicate Lists(from: Schema, to: Schema, lo: nat, hi: nat, ops: seq<PatchOp>, places: seq<Place>) {
    && InOrder(places) && Within(places, lo, hi)
    && Told(from, to, ops, places) && Complete(from, to, lo, hi, places)
  }

  ghost predicate Within(places: seq<Place>, lo: nat, hi: nat) {
    forall i :: 0 <= i < |places| ==> lo <= places[i].pass < hi
  }

  ghost predicate Told(from: Schema, to: Schema, ops: seq<PatchOp>, places: seq<Place>) {
    |ops| == |places| && forall i :: 0 <= i < |places| ==> Says(from, to, places[i], ops[i])
  }

  ghost predicate Complete(from: Schema, to: Schema, lo: nat, hi: nat, places: seq<Place>) {
    forall c: Place, op :: lo <= c.pass < hi && Says(from, to, c, op) ==> c in places
  }

  /** The pass walks the keys `ks` and leaves out those in `skip`; `ops` holds its operations. */
  ghost predicate IsPass(from: Schema, to: Schema, pass: nat, ops: map<Id, PatchOp>, ks: seq<Id>, skip: set<Id>) {
    && StrictlySorted(ks) && (forall k :: k in ks ==> k in ops)
    && forall k, op :: Says(from, to, Place(pass, k), op) <==> k in ks && k !in skip && op == ops[k]
  }

  lemma JoinComplete(from: Schema, to: Schema, lo: nat, mid: nat, hi: nat, p: seq<Place>, q: seq<Place>)
    requires Complete(from, to, lo, mid, p) && Complete(from, to, mid, hi, q)
    ensures Complete(from, to, lo, hi, p + q)
  {
    forall c: Place, op | lo <= c.pass < hi && Says(from, to, c, op)
      ensures c in p + q
    {
      assert c in p || c in q;
    }
  }

  lemma JoinTold(from: Schema, to: Schema, a: seq<PatchOp>, p: seq<Place>, b: seq<PatchOp>, q: seq<Place>)
    requires Told(from, to, a, p) && Told(from, to, b, q)
    ensures Told(from, to, a + b, p + q)
  {
  }

  lemma JoinInOrder(p: seq<Place>, q: seq<Place>, lo: nat, mid: nat, hi: nat)
    requires lo <= mid <= hi && InOrder(p) && InOrder(q) && Within(p, lo, mid) && Within(q, mid, hi)
    ensures InOrder(p + q) && Within(p + q, lo, hi)
  {
  }

  lemma Join(from: Schema, to: Schema, lo: nat, mid: nat, hi: nat, a: seq<PatchOp>, p: seq<Place>, b: seq<PatchOp>, q: seq<Place>)
    requires lo <= mid <= hi && Lists(from, to, lo, mid, a, p) && Lists(from, to, mid, hi, b, q)
    ensures Lists(from, to, lo, hi, a + b, p + q)
  {
    JoinComplete(from, to, lo, mid, hi, p, q);
    JoinTold(from, to, a, p, b, q);
    JoinInOrder(p, q, lo, mid, hi);
  }

  function Places(ks: seq<Id>, skip: set<Id>, pass: nat): seq<Place> {
    if ks == [] then [] else (if ks[0] in skip then [] else [Place(pass, ks[0])]) + Places(ks[1..], skip, pass)
  }

  /** The operations at these places. */
  ghost predicate Follows(ops: map<Id, PatchOp>, emitted: seq<PatchOp>, places: seq<Place>) {
    |emitted| == |places| && forall i :: 0 <= i < |places| ==> places[i].key in ops && emitted[i] == ops[places[i].key]
  }

  lemma {:induction false} PlacesFollowEmit(ops: map<Id, PatchOp>, ks: seq<Id>, skip: set<Id>, pass: nat)
    requires forall k :: k in ks ==> k in ops
    ensures Follows(ops, Emit(ops, ks, skip), Places(ks, skip, pass))
    decreases |ks|
  {
    if ks != [] {
      PlacesFollowEmit(ops, ks[1..], skip, pass);
    }
  }

  lemma {:induction false} PlacesMembers(ks: seq<Id>, skip: set<Id>, pass: nat, c: Place)
    ensures c in Places(ks, skip, pass) <==> c.pass == pass && c.key in ks && c.key !in skip
    decreases |ks|
  {
    if ks != [] {
      PlacesMembers(ks[1..], skip, pass, c);
      assert ks == [ks[0]] + ks[1..];
    }
  }

  lemma {:induction false} PlacesInOrder(ks: seq<Id>, skip: set<Id>, pass: nat)
    requires StrictlySorted(ks)
    ensures InOrder(Places(ks, skip, pass))
    decreases |ks|
  {
    if ks != [] {
      var p := Places(ks[1..], skip, pass);
      PlacesInOrder(ks[1..], skip, pass);
      forall i | 0 <= i < |p|
        ensures Precedes(Place(pass, ks[0]), p[i])
      {
        PlacesMembers(ks[1..], skip, pass, p[i]);
        assert p[i].key in ks[1..];
      }
      FirstInOrder(Place(pass, ks[0]), p);
    }
  }

  lemma FirstInOrder(c: Place, p: seq<Place>)
    requires InOrder(p) && forall i :: 0 <= i < |p| ==> Precedes(c, p[i])
    ensures InOrder([c] + p)
  {
  }

  /** One pass over the keys of a collection. */
  lemma OnePass(from: Schema, to: Schema, ops: map<Id, PatchOp>, ks: seq<Id>, skip: set<Id>, pass: nat) returns (p: seq<Place>)
    requires IsPass(from, to, pass, ops, ks, skip)
    ensures Lists(from, to, pass, pass + 1, Emit(ops, ks, skip), p)
  {
    p := Places(ks, skip, pass);
    PlacesFollowEmit(ops, ks, skip, pass);
    PlacesInOrder(ks, skip, pass);
    forall i | 0 <= i < |p|
      ensures p[i].pass == pass && Says(from, to, p[i], Emit(ops, ks, skip)[i])
    {
      PlacesMembers(ks, skip, pass, p[i]);
      assert p[i] == Place(pass, p[i].key);
    }
    forall c: Place, op | c.pass == pass && Says(from, to, c, op)
      ensures c in p
    {
      PlacesMembers(ks, skip, pass, c);
      assert c == Place(pass, c.key);
    }
  }

  lemma NodePassesAre(from: Schema, to: Schema)
    ensures IsPass(from, to, 0, NodePuts(to.nodes), Ordered(to.nodes), from.nodes.Keys)
    ensures IsPass(from, to, 1, NodeDrops(from.nodes.Keys), Ordered(from.nodes), to.nodes.Keys)
  {
  }

  lemma NodePassesList(from: Schema, to: Schema) returns (p: seq<Place>)
    ensures Lists(from, to, 0, 2, NodeOps(from, to), p)
  {
    NodePassesAre(from, to);
    var a := OnePass(from, to, NodePuts(to.nodes), Ordered(to.nodes), from.nodes.Keys, 0);
    var b := OnePass(from, to, NodeDrops(from.nodes.Keys), Ordered(from.nodes), to.nodes.Keys, 1);
    p := a + b;
    Join(from, to, 0, 1, 2, Emit(NodePuts(to.nodes), Ordered(to.nodes), from.nodes.Keys), a,
         Emit(NodeDrops(from.nodes.Keys), Ordered(from.nodes), to.nodes.Keys), b);
  }

  lemma LinkPassesAre(from: Schema, to: Schema)
    ensures IsPass(from, to, 2, LinkPuts(to.links), Ordered(to.links), from.links.Keys)
    ensures IsPass(from, to, 3, LinkDrops(from.links.Keys), Ordered(from.links), to.links.Keys)
  {
  }

  lemma LinkPassesList(from: Schema, to: Schema) returns (p: seq<Place>)
    ensures Lists(from, to, 2, 4, LinkOps(from, to), p)
  {
    LinkPassesAre(from, to);
    var a := OnePass(from, to, LinkPuts(to.links), Ordered(to.links), from.links.Keys, 2);
    var b := OnePass(from, to, LinkDrops(from.links.Keys), Ordered(from.links), to.links.Keys, 3);
    p := a + b;
    Join(from, to, 2, 3, 4, Emit(LinkPuts(to.links), Ordered(to.links), from.links.Keys), a,
         Emit(LinkDrops(from.links.Keys), Ordered(from.links), to.links.Keys), b);
  }

  lemma GroupPassesAre(from: Schema, to: Schema)
    ensures IsPass(from, to, 4, GroupPuts(to.groups), Ordered(to.groups), from.groups.Keys)
    ensures IsPass(from, to, 5, GroupDrops(from.groups.Keys), Ordered(from.groups), to.groups.Keys)
  {
  }

  lemma GroupPassesList(from: Schema, to: Schema) returns (p: seq<Place>)
    ensures Lists(from, to, 4, 6, GroupOps(from, to), p)
  {
    GroupPassesAre(from, to);
    var a := OnePass(from, to, GroupPuts(to.groups), Ordered(to.groups), from.groups.Keys, 4);
    var b := OnePass(from, to, GroupDrops(from.groups.Keys), Ordered(from.groups), to.groups.Keys, 5);
    p := a + b;
    Join(from, to, 4, 5, 6, Emit(GroupPuts(to.groups), Ordered(to.groups), from.groups.Keys), a,
         Emit(GroupDrops(from.groups.Keys), Ordered(from.groups), to.groups.Keys), b);
  }

  lemma SubgraphPassesAre(from: Schema, to: Schema)
    ensures IsPass(from, to, 6, SubgraphPuts(to.subgraphs), Ordered(to.subgraphs), from.subgraphs.Keys)
    ensures IsPass(from, to, 7, SubgraphDrops(from.subgraphs.Keys), Ordered(from.subgraphs), to.subgraphs.Keys)
  {
  }

  lemma SubgraphPassesList(from: Schema, to: Schema) returns (p: seq<Place>)
    ensures Lists(from, to, 6, 8, SubgraphOps(from, to), p)
  {
    SubgraphPassesAre(from, to);
    var a := OnePass(from, to, SubgraphPuts(to.subgraphs), Ordered(to.subgraphs), from.subgraphs.Keys, 6);
    var b := OnePass(from, to, SubgraphDrops(from.subgraphs.Keys), Ordered(from.subgraphs), to.subgraphs.Keys, 7);
    p := a + b;
    Join(from, to, 6, 7, 8, Emit(SubgraphPuts(to.subgraphs), Ordered(to.subgraphs), from.subgraphs.Keys), a,
         Emit(SubgraphDrops(from.subgraphs.Keys), Ordered(from.subgraphs), to.subgraphs.Keys), b);
  }

  lemma DiffLists(from: Schema, to: Schema) returns (p: seq<Place>)
    ensures Lists(from, to, 0, 8, Diff(from, to), p)
  {
    var n, l, g, s := NodeOps(from, to), LinkOps(from, to), GroupOps(from, to), SubgraphOps(from, to);
    var pn := NodePassesList(from, to);
    var pl := LinkPassesList(from, to);
    var pg := GroupPassesList(from, to);
    var ps := SubgraphPassesList(from, to);
    Join(from, to, 0, 2, 4, n, pn, l, pl);
    Join(from, to, 0, 4, 6, n + l, pn + pl, g, pg);
    Join(from, to, 0, 6, 8, n + l + g, pn + pl + pg, s, ps);
    p := pn + pl + pg + ps;
  }

  lemma {:induction false} SamePlaces(p: seq<Place>, q: seq<Place>)
    requires InOrder(p) && InOrder(q) && forall c :: c in p <==> c in q
    ensures p == q
    decreases |p|
  {
    EmptyToSet(p);
    EmptyToSet(q);
    assert ToSet(p) == ToSet(q);
    if p != [] {
      assert p[0] in q && q[0] in p;
      assert p == [p[0]] + p[1..] && q == [q[0]] + q[1..];
      assert p[0] == q[0];
      forall c
        ensures c in p[1..] <==> c in q[1..]
      {
        assert c in p[1..] <==> c in p && c != p[0];
        assert c in q[1..] <==> c in q && c != q[0];
      }
      SamePlaces(p[1..], q[1..]);
    }
  }

  lemma ListsTheSame(from: Schema, to: Schema, a: seq<PatchOp>, p: seq<Place>, b: seq<PatchOp>, q: seq<Place>)
    requires Lists(from, to, 0, 8, a, p) && Lists(from, to, 0, 8, b, q)
    ensures a == b
  {
    forall c
      ensures c in p <==> c in q
    {
      if c in p {
        var i :| 0 <= i < |p| && p[i] == c;
        assert Says(from, to, c, a[i]);
      }
      if c in q {
        var i :| 0 <= i < |q| && q[i] == c;
        assert Says(from, to, c, b[i]);
      }
    }
    SamePlaces(p, q);
    forall i | 0 <= i < |p|
      ensures a[i] == b[i]
    {
      assert Says(from, to, p[i], a[i]) && Says(from, to, q[i], b[i]);
    }
  }

  /** The diff is the one list that says at every place what belongs there, nothing more, pass by pass and key by key. */
  lemma DiffIsTheListing(from: Schema, to: Schema, ops: seq<PatchOp>)
    ensures ops == Diff(from, to) <==> exists places :: Lists(from, to, 0, 8, ops, places)
  {
    var p := DiffLists(from, to);
    if places :| Lists(from, to, 0, 8, ops, places) {
      ListsTheSame(from, to, ops, places, Diff(from, to), p);
    }
  }
}
