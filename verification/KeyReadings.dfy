/** What a field key can be read as, and so exactly which edits share one. */
module KeyReadings {
  import opened Collaboration

  /** The key of a target; `FieldKey` of every edit about it. */
  function Key(t: Target): string {
    match t
    case Position(n) => n + ":position"
    case Param(n, p) => n + ":param:" + p
    case Edge(f, fp, to, tp) => "edge:" + f + ":" + fp + "->" + to + ":" + tp
  }

  lemma FieldKeyIsKey(e: Edit)
    ensures FieldKey(e) == Key(TargetOf(e))
  {
  }

  /** A way to cut a key: at its end, around ":param:" at `i`, or at a colon, an arrow and a colon of an edge. */
  datatype Reading = AsPosition | AsParam(i: nat) | AsEdge(i: nat, j: nat, k: nat)

  predicate At(key: string, i: nat, part: string) {
    i + |part| <= |key| && key[i..i + |part|] == part
  }

  /** The separators are where the reading says. */
  predicate Reads(key: string, r: Reading) {
    match r
    case AsPosition => |key| >= 9 && At(key, |key| - 9, ":position")
    case AsParam(i) => At(key, i, ":param:")
    case AsEdge(i, j, k) =>
      At(key, 0, "edge:") && 5 <= i < j && j + 2 <= k && At(key, i, ":") && At(key, j, "->") && At(key, k, ":")
  }

  /** What stands between the separators. */
  function ReadAs(key: string, r: Reading): Target
    requires Reads(key, r)
  {
    match r
    case AsPosition => Position(key[..|key| - 9])
    case AsParam(i) => Param(key[..i], key[i + 7..])
    case AsEdge(i, j, k) => Edge(key[5..i], key[i + 1..j], key[j + 2..k], key[k + 1..])
  }

  /** The reading that a target's own key is built for. */
  function ReadingOf(t: Target): Reading {
    match t
    case Position(_) => AsPosition
    case Param(n, _) => AsParam(|n|)
    case Edge(f, fp, to, _) => AsEdge(5 + |f|, 6 + |f| + |fp|, 8 + |f| + |fp| + |to|)
  }

  // ----- strings cut and joined -----

  lemma Assoc(a: string, b: string, c: string)
    ensures (a + b) + c == a + (b + c)
  {
  }

  /** Eight parts joined from the left are the same parts joined from the right. */
  lemma Nested(e0: string, f: string, s1: string, fp: string, s2: string, to: string, s3: string, tp: string)
    ensures e0 + f + s1 + fp + s2 + to + s3 + tp == e0 + (f + (s1 + (fp + (s2 + (to + (s3 + tp))))))
  {
    Assoc(e0 + f + s1 + fp + s2 + to, s3, tp);
    Assoc(e0 + f + s1 + fp + s2, to, s3 + tp);
    Assoc(e0 + f + s1 + fp, s2, to + (s3 + tp));
    Assoc(e0 + f + s1, fp, s2 + (to + (s3 + tp)));
    Assoc(e0 + f, s1, fp + (s2 + (to + (s3 + tp))));
    Assoc(e0, f, s1 + (fp + (s2 + (to + (s3 + tp)))));
  }

  /** What follows `lo` starts with `part`, which ends at `hi`. */
  lemma Peel(key: string, lo: nat, part: string, rest: string, hi: nat)
    requires lo <= |key| && key[lo..] == part + rest && hi == lo + |part|
    ensures hi <= |key| && key[lo..hi] == part && At(key, lo, part) && key[hi..] == rest
  {
    assert key[lo..][..|part|] == part && key[lo..][|part|..] == rest;
  }

  /** The converse: `part` up to `hi` and then `rest`. */
  lemma Glue(key: string, lo: nat, hi: nat, part: string, rest: string)
    requires lo <= hi <= |key| && key[lo..hi] == part && key[hi..] == rest
    ensures key[lo..] == part + rest
  {
  }

  lemma GlueAt(key: string, lo: nat, part: string, hi: nat, rest: string)
    requires At(key, lo, part) && hi == lo + |part| && key[hi..] == rest
    ensures key[lo..] == part + rest
  {
    Glue(key, lo, hi, part, rest);
  }

  lemma Whole(key: string)
    ensures key[0..] == key && key[|key|..] == ""
  {
  }

  // ----- a target's own reading gives the target back -----

  lemma LastParts(fp: string, s2: string, to: string, s3: string, tp: string, key: string, lo: nat, j: nat, k: nat)
    requires lo <= |key| && key[lo..] == fp + (s2 + (to + (s3 + tp))) && |s2| == 2 && |s3| == 1
    requires j == lo + |fp| && k == j + 2 + |to|
    ensures At(key, j, s2) && At(key, k, s3) && key[lo..j] == fp && key[j + 2..k] == to && key[k + 1..] == tp
  {
    Peel(key, lo, fp, s2 + (to + (s3 + tp)), j);
    Peel(key, j, s2, to + (s3 + tp), j + 2);
    Peel(key, j + 2, to, s3 + tp, k);
    Peel(key, k, s3, tp, k + 1);
  }

  lemma EdgeParts(e0: string, f: string, s1: string, fp: string, s2: string, to: string, s3: string, tp: string,
                  key: string, i: nat, j: nat, k: nat)
    requires key == e0 + f + s1 + fp + s2 + to + s3 + tp && |e0| == 5 && |s1| == |s3| == 1 && |s2| == 2
    requires i == 5 + |f| && j == 6 + |f| + |fp| && k == 8 + |f| + |fp| + |to|
    ensures At(key, 0, e0) && At(key, i, s1) && At(key, j, s2) && At(key, k, s3)
    ensures key[5..i] == f && key[i + 1..j] == fp && key[j + 2..k] == to && key[k + 1..] == tp
  {
    Nested(e0, f, s1, fp, s2, to, s3, tp);
    Whole(key);
    Peel(key, 0, e0, f + (s1 + (fp + (s2 + (to + (s3 + tp))))), 5);
    Peel(key, 5, f, s1 + (fp + (s2 + (to + (s3 + tp)))), i);
    Peel(key, i, s1, fp + (s2 + (to + (s3 + tp))), i + 1);
    LastParts(fp, s2, to, s3, tp, key, i + 1, j, k);
  }

  lemma TwoParts(n: string, mid: string, p: string, key: string, i: nat, l: nat)
    requires key == n + mid + p && i == |n| && l == |mid|
    ensures i + l <= |key| && At(key, i, mid) && key[..i] == n && key[i + l..] == p
  {
    Assoc(n, mid, p);
    Whole(key);
    Peel(key, 0, n, mid + p, i);
    Peel(key, i, mid, p, i + l);
  }

  lemma OwnReading(t: Target)
    ensures Reads(Key(t), ReadingOf(t)) && ReadAs(Key(t), ReadingOf(t)) == t
  {
    match t
    case Position(n) => OwnPosition(n);
    case Param(n, p) => TwoParts(n, ":param:", p, Key(t), |n|, 7);
    case Edge(f, fp, to, tp) => OwnEdge(f, fp, to, tp);
  }

  lemma OwnPosition(n: string)
    ensures Reads(Key(Position(n)), AsPosition) && ReadAs(Key(Position(n)), AsPosition) == Position(n)
  {
    var key := Key(Position(n));
    assert key == n + ":position" + "";
    TwoParts(n, ":position", "", key, |n|, 9);
    assert |key| - 9 == |n|;
  }

  lemma OwnEdge(f: string, fp: string, to: string, tp: string)
    ensures var t := Edge(f, fp, to, tp); Reads(Key(t), ReadingOf(t)) && ReadAs(Key(t), ReadingOf(t)) == t
  {
    EdgeParts("edge:", f, ":", fp, "->", to, ":", tp, Key(Edge(f, fp, to, tp)),
              5 + |f|, 6 + |f| + |fp|, 8 + |f| + |fp| + |to|);
  }

  // ----- every reading rebuilds the key -----

  lemma PartsRejoin(key: string, i: nat, j: nat, k: nat, e0: string, f: string, s1: string, fp: string,
                    s2: string, to: string, s3: string, tp: string)
    requires |e0| == 5 && |s1| == |s3| == 1 && |s2| == 2 && 5 <= i < j && j + 2 <= k
    requires At(key, 0, e0) && At(key, i, s1) && At(key, j, s2) && At(key, k, s3)
    requires f == key[5..i] && fp == key[i + 1..j] && to == key[j + 2..k] && tp == key[k + 1..]
    ensures e0 + f + s1 + fp + s2 + to + s3 + tp == key
  {
    Whole(key);
    GlueAt(key, k, s3, k + 1, tp);
    Glue(key, j + 2, k, to, s3 + tp);
    GlueAt(key, j, s2, j + 2, to + (s3 + tp));
    Glue(key, i + 1, j, fp, s2 + (to + (s3 + tp)));
    GlueAt(key, i, s1, i + 1, fp + (s2 + (to + (s3 + tp))));
    Glue(key, 5, i, f, s1 + (fp + (s2 + (to + (s3 + tp)))));
    GlueAt(key, 0, e0, 5, f + (s1 + (fp + (s2 + (to + (s3 + tp))))));
    Nested(e0, f, s1, fp, s2, to, s3, tp);
  }

  lemma TwoRejoin(key: string, i: nat, mid: string, l: nat)
    requires At(key, i, mid) && l == |mid|
    ensures key[..i] + mid + key[i + l..] == key
  {
    Whole(key);
    GlueAt(key, i, mid, i + l, key[i + l..]);
    Glue(key, 0, i, key[..i], mid + key[i + l..]);
    Assoc(key[..i], mid, key[i + l..]);
  }

  lemma EdgeRebuilds(key: string, i: nat, j: nat, k: nat, f: string, fp: string, to: string, tp: string)
    requires Reads(key, AsEdge(i, j, k)) && ReadAs(key, AsEdge(i, j, k)) == Edge(f, fp, to, tp)
    ensures Key(Edge(f, fp, to, tp)) == key
    ensures |f| == i - 5 && |fp| == j - i - 1 && |to| == k - j - 2
  {
    PartsRejoin(key, i, j, k, "edge:", f, ":", fp, "->", to, ":", tp);
  }

  lemma ReadingRebuilds(key: string, r: Reading)
    requires Reads(key, r)
    ensures Key(ReadAs(key, r)) == key && ReadingOf(ReadAs(key, r)) == r
  {
    var t := ReadAs(key, r);
    match r
    case AsPosition => PositionRebuilds(key);
    case AsParam(i) => TwoRejoin(key, i, ":param:", 7);
    case AsEdge(i, j, k) => EdgeRebuilds(key, i, j, k, t.fromNode, t.fromPort, t.toNode, t.toPort);
  }

  lemma PositionRebuilds(key: string)
    requires Reads(key, AsPosition)
    ensures Key(ReadAs(key, AsPosition)) == key
  {
    TwoRejoin(key, |key| - 9, ":position", 9);
    Whole(key);
    var n := key[..|key| - 9];
    assert n + ":position" + "" == n + ":position";
  }

  // ----- the exact conditions -----

  /** The targets with a key are exactly what the key can be read as. */
  lemma KeyIsOfExactlyItsReadings(key: string, s: Target)
    ensures Key(s) == key <==> exists r :: Reads(key, r) && ReadAs(key, r) == s
  {
    if Key(s) == key {
      OwnReading(s);
    }
    if r :| Reads(key, r) && ReadAs(key, r) == s {
      ReadingRebuilds(key, r);
    }
  }

  /** Two edits about different things share a key exactly when the key of one has the other's reading too. */
  lemma EditsCollideExactlyWhen(d: Edit, e: Edit)
    ensures FieldKey(d) == FieldKey(e) && TargetOf(d) != TargetOf(e) <==>
            exists r :: Reads(FieldKey(e), r) && r != ReadingOf(TargetOf(e)) && ReadAs(FieldKey(e), r) == TargetOf(d)
  {
    var s, t, key := TargetOf(d), TargetOf(e), FieldKey(e);
    FieldKeyIsKey(d);
    FieldKeyIsKey(e);
    OwnReading(s);
    OwnReading(t);
    if r :| Reads(key, r) && r != ReadingOf(t) && ReadAs(key, r) == s {
      ReadingRebuilds(key, r);
    }
  }

  /** An edit about a given thing. */
  function EditOf(t: Target): (e: Edit)
    ensures TargetOf(e) == t
  {
    match t
    case Position(n) => Edit("", "", 0, n, Move((0.0, 0.0)))
    case Param(n, p) => Edit("", "", 0, n, SetParameter(p, ""))
    case Edge(f, fp, to, tp) => Edit("", "", 0, "", AddEdge(f, fp, to, tp))
  }

  /** No edit about anything else shares the key of `e` exactly when that key can be read in one way only. */
  lemma KeyIsSafeExactlyWhen(e: Edit)
    ensures (forall d :: FieldKey(d) == FieldKey(e) ==> TargetOf(d) == TargetOf(e)) <==>
            (forall r :: Reads(FieldKey(e), r) ==> r == ReadingOf(TargetOf(e)))
  {
    var key, own := FieldKey(e), ReadingOf(TargetOf(e));
    if forall r :: Reads(key, r) ==> r == own {
      forall d | FieldKey(d) == key
        ensures TargetOf(d) == TargetOf(e)
      {
        EditsCollideExactlyWhen(d, e);
      }
    } else {
      var r :| Reads(key, r) && r != own;
      var d := EditOf(ReadAs(key, r));
      EditsCollideExactlyWhen(d, e);
    }
  }
}
