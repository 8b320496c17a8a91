/** Sequence and result vocabulary shared by the component models. */
module Sequences {

  datatype Option<+T> = None | Some(value: T)

  datatype Result<+T, +E> = Ok(value: T) | Err(error: E)

  predicate NoDup<T(==)>(s: seq<T>) {
    forall i, j :: 0 <= i < j < |s| ==> s[i] != s[j]
  }

  function ToSet<T>(s: seq<T>): set<T> {
    set x | x in s
  }

  lemma {:induction false} NoDupCardinality<T>(s: seq<T>)
    requires NoDup(s)
    ensures |ToSet(s)| == |s|
  {
    if s == [] {
    } else {
      var init, last := s[..|s| - 1], s[|s| - 1];
      NoDupCardinality(init);
      assert ToSet(s) == ToSet(init) + {last} by {
        assert s == init + [last];
      }
    }
  }

  lemma SubsetCardinality<T>(a: set<T>, b: set<T>)
    requires a <= b
    ensures |a| <= |b|
    ensures |a| == |b| ==> a == b
  {
    assert b == a + (b - a);
  }

  /** The ascending order in which a BTreeMap or BTreeSet is iterated. */
  predicate StrictlySorted(s: seq<nat>) {
    forall i, j :: 0 <= i < j < |s| ==> s[i] < s[j]
  }

  ghost predicate IsLeast(m: nat, s: set<nat>) {
    m in s && forall x :: x in s ==> m <= x
  }

  lemma {:induction false} LeastExists(s: set<nat>) returns (m: nat)
    requires s != {}
    ensures IsLeast(m, s)
  {
    m :| m in s;
    var rest := s - {m};
    if rest != {} {
      var n := LeastExists(rest);
      m := if m < n then m else n;
    }
    assert forall x :: x in s ==> x in rest || x == m || m <= x;
  }

  function Least(s: set<nat>): (m: nat)
    requires s != {}
    ensures IsLeast(m, s)
  {
    assert exists m :: IsLeast(m, s) by { var m := LeastExists(s); }
    var m :| m in s && forall x :: x in s ==> m <= x;
    m
  }

  ghost function Greatest(s: set<nat>): (m: nat)
    requires s != {}
    ensures m in s && forall x :: x in s ==> x <= m
  {
    var m := Least(s);
    if s == {m} then m else
    var rest := Greatest(s - {m});
    assert forall x :: x in s ==> x == m || x in s - {m};
    rest
  }

  function SortedSeq(s: set<nat>): (q: seq<nat>)
    ensures StrictlySorted(q) && ToSet(q) == s
  {
    if s == {} then [] else
    var m := Least(s);
    var rest := SortedSeq(s - {m});
    assert forall x :: x in rest <==> x in ToSet(rest);
    assert forall x :: x in [m] + rest <==> x == m || x in rest;
    [m] + rest
  }

  lemma EmptyToSet<T>(s: seq<T>)
    ensures ToSet(s) == {} <==> s == []
  {
    if s != [] {
      assert s[0] in ToSet(s);
    }
  }

  lemma {:induction false} SortedUnique(a: seq<nat>, b: seq<nat>)
    requires StrictlySorted(a) && StrictlySorted(b) && ToSet(a) == ToSet(b)
    ensures a == b
  {
    if a == [] {
      EmptyToSet(b);
    } else {
      assert a[0] in ToSet(b);
      assert b != [];
      assert b[0] in ToSet(a);
      assert a[0] == b[0];
      forall x
        ensures x in ToSet(a[1..]) <==> x in ToSet(b[1..])
      {
        assert x in a[1..] <==> x in ToSet(a) && x != a[0];
        assert x in b[1..] <==> x in ToSet(b) && x != b[0];
      }
      SortedUnique(a[1..], b[1..]);
      assert a == [a[0]] + a[1..] && b == [b[0]] + b[1..];
    }
  }

  predicate Ascending(s: seq<nat>) {
    forall i, j :: 0 <= i < j < |s| ==> s[i] <= s[j]
  }

  lemma PrependAscending(x: nat, s: seq<nat>)
    requires Ascending(s) && (s == [] || x <= s[0])
    ensures Ascending([x] + s)
  {
  }

  function Insert(x: nat, s: seq<nat>): (r: seq<nat>)
    requires Ascending(s)
    ensures Ascending(r) && multiset(r) == multiset(s) + multiset{x}
    ensures r != [] && (r[0] == x || (s != [] && r[0] == s[0]))
  {
    if s == [] then [x]
    else if x <= s[0] then PrependAscending(x, s); [x] + s
    else
      assert multiset(s) == multiset{s[0]} + multiset(s[1..]) by { assert s == [s[0]] + s[1..]; }
      var rest := Insert(x, s[1..]);
      PrependAscending(s[0], rest);
      [s[0]] + rest
  }

  /** Rust's `sort_unstable` on identifiers. */
  function Sort(s: seq<nat>): (r: seq<nat>)
    ensures Ascending(r) && multiset(r) == multiset(s)
  {
    if s == [] then [] else
    assert s == [s[0]] + s[1..];
    Insert(s[0], Sort(s[1..]))
  }

  lemma {:induction false} NoDupCounts<T>(s: seq<T>)
    requires NoDup(s)
    ensures forall x :: multiset(s)[x] <= 1
  {
    if s != [] {
      assert s == [s[0]] + s[1..];
      NoDupCounts(s[1..]);
      assert s[0] !in s[1..];
    }
  }

  lemma {:induction false} CountsNoDup<T>(s: seq<T>)
    requires forall x :: multiset(s)[x] <= 1
    ensures NoDup(s)
  {
    if s != [] {
      assert s == [s[0]] + s[1..];
      assert forall x :: multiset(s)[x] == multiset{s[0]}[x] + multiset(s[1..])[x];
      CountsNoDup(s[1..]);
      assert s[0] !in multiset(s[1..]);
    }
  }

  lemma SortIsSortedSeq(s: seq<nat>)
    requires NoDup(s)
    ensures Sort(s) == SortedSeq(ToSet(s))
  {
    var r := Sort(s);
    NoDupCounts(s);
    CountsNoDup(r);
    assert forall x :: x in r <==> x in multiset(r);
    assert forall x :: x in s <==> x in multiset(s);
    SortedUnique(r, SortedSeq(ToSet(s)));
  }

  lemma AppendSorted(A: set<nat>, k: nat)
    requires forall x :: x in A ==> x < k
    ensures SortedSeq(A + {k}) == SortedSeq(A) + [k]
  {
    var q := SortedSeq(A);
    forall i | 0 <= i < |q|
      ensures q[i] < k
    {
      assert q[i] in ToSet(q);
      assert q[i] in A;
    }
    assert forall x :: x in q <==> x in ToSet(q);
    assert ToSet(q + [k]) == A + {k};
    SortedUnique(q + [k], SortedSeq(A + {k}));
  }

  /** One step of collecting, in key order, the keys that lie in `keep`. */
  lemma CollectStep(keys: seq<nat>, i: nat, keep: set<nat>)
    requires StrictlySorted(keys) && i < |keys|
    ensures SortedSeq(ToSet(keys[..i + 1]) * keep)
         == SortedSeq(ToSet(keys[..i]) * keep) + if keys[i] in keep then [keys[i]] else []
  {
    assert keys[..i + 1] == keys[..i] + [keys[i]];
    assert ToSet(keys[..i + 1]) == ToSet(keys[..i]) + {keys[i]};
    var A := ToSet(keys[..i]) * keep;
    if keys[i] in keep {
      assert ToSet(keys[..i + 1]) * keep == A + {keys[i]};
      AppendSorted(A, keys[i]);
    } else {
      assert ToSet(keys[..i + 1]) * keep == A;
    }
  }

  /** The values of an ordered map, in key order. */
  function Values<V>(m: map<nat, V>): (r: seq<V>)
    ensures |r| == |m.Keys|
  {
    var ks := SortedSeq(m.Keys);
    assert NoDup(ks);
    NoDupCardinality(ks);
    seq(|ks|, i requires 0 <= i < |ks| => assert ks[i] in ToSet(ks); m[ks[i]])
  }

  lemma ValuesMembers<V>(m: map<nat, V>)
    ensures forall v :: v in Values(m) <==> v in m.Values
  {
    var ks, vs := SortedSeq(m.Keys), Values(m);
    NoDupCardinality(ks);
    forall i | 0 <= i < |vs|
      ensures vs[i] in m.Values
    {
      assert ks[i] in ToSet(ks);
    }
    forall k | k in m
      ensures m[k] in vs
    {
      assert k in ToSet(ks);
      var i :| 0 <= i < |ks| && ks[i] == k;
      assert vs[i] == m[k];
    }
  }
}
