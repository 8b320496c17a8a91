/** The lexicographic order of strings by code point, and sorted duplicate-free string lists. */
module Strings {

  predicate Less(a: string, b: string) {
    if b == [] then false
    else if a == [] then true
    else a[0] < b[0] || (a[0] == b[0] && Less(a[1..], b[1..]))
  }

  /** A proper prefix comes first; otherwise the first differing character decides. */
  lemma {:induction false} LessMeans(a: string, b: string)
    ensures Less(a, b) <==> (a <= b && |a| < |b|) || exists i :: FirstDifference(a, b, i) && a[i] < b[i]
  {
    if a != [] && b != [] {
      LessMeans(a[1..], b[1..]);
      if a[0] == b[0] {
        forall i
          ensures FirstDifference(a[1..], b[1..], i) <==> i >= 0 && FirstDifference(a, b, i + 1)
        {
          DifferenceShifts(a, b, i);
        }
        assert a <= b <==> a[1..] <= b[1..];
        if i :| FirstDifference(a, b, i) && a[i] < b[i] {
          assert i > 0 && FirstDifference(a[1..], b[1..], i - 1) && a[1..][i - 1] < b[1..][i - 1];
        }
        if i :| FirstDifference(a[1..], b[1..], i) && a[1..][i] < b[1..][i] {
          assert FirstDifference(a, b, i + 1) && a[i + 1] < b[i + 1];
        }
      } else {
        assert FirstDifference(a, b, 0);
        assert forall i :: FirstDifference(a, b, i) ==> i == 0;
      }
    }
  }

  ghost predicate FirstDifference(a: string, b: string, i: int) {
    0 <= i < |a| && i < |b| && a[i] != b[i] && forall j :: 0 <= j < i ==> a[j] == b[j]
  }

  lemma DifferenceShifts(a: string, b: string, i: int)
    requires a != [] && b != [] && a[0] == b[0]
    ensures FirstDifference(a[1..], b[1..], i) <==> i >= 0 && FirstDifference(a, b, i + 1)
  {
    if i >= 0 && FirstDifference(a, b, i + 1) {
      assert forall j :: 0 <= j < i ==> a[1..][j] == a[j + 1] && b[1..][j] == b[j + 1];
    }
    if FirstDifference(a[1..], b[1..], i) {
      assert forall j :: 1 <= j < i + 1 ==> a[j] == a[1..][j - 1] && b[j] == b[1..][j - 1];
    }
  }

  lemma {:induction false} Irreflexive(a: string)
    ensures !Less(a, a)
  {
    if a != [] {
      Irreflexive(a[1..]);
    }
  }

  lemma {:induction false} Trichotomy(a: string, b: string)
    ensures Less(a, b) || a == b || Less(b, a)
    ensures !(Less(a, b) && Less(b, a))
  {
    if a != [] && b != [] {
      Trichotomy(a[1..], b[1..]);
      assert a == [a[0]] + a[1..] && b == [b[0]] + b[1..];
    }
  }

  lemma {:induction false} Transitive(a: string, b: string, c: string)
    requires Less(a, b) && Less(b, c)
    ensures Less(a, c)
  {
    if a != [] && a[0] == b[0] == c[0] {
      Transitive(a[1..], b[1..], c[1..]);
    }
  }

  ghost predicate StrictlyAscending(s: seq<string>) {
    forall i, j :: 0 <= i < j < |s| ==> Less(s[i], s[j])
  }

  function InsertNew(x: string, s: seq<string>): seq<string> {
    if s == [] then [x]
    else if x == s[0] then s
    else if Less(x, s[0]) then [x] + s
    else [s[0]] + InsertNew(x, s[1..])
  }

  /** `sort` followed by `dedup`. */
  function SortDedup(s: seq<string>): seq<string> {
    if s == [] then [] else InsertNew(s[0], SortDedup(s[1..]))
  }

  lemma {:induction false} InsertNewSorted(x: string, s: seq<string>)
    requires StrictlyAscending(s)
    ensures StrictlyAscending(InsertNew(x, s))
    ensures forall y :: y in InsertNew(x, s) <==> y == x || y in s
  {
    if s != [] {
      assert s == [s[0]] + s[1..];
      Trichotomy(x, s[0]);
      if x != s[0] {
        if Less(x, s[0]) {
          forall i | 0 <= i < |s|
            ensures Less(x, s[i])
          {
            if i > 0 {
              Transitive(x, s[0], s[i]);
            }
          }
        } else {
          InsertNewSorted(x, s[1..]);
          var r := InsertNew(x, s[1..]);
          forall i | 0 <= i < |r|
            ensures Less(s[0], r[i])
          {
            assert r[i] in r;
          }
        }
      }
    }
  }

  lemma {:induction false} SortDedupSorted(s: seq<string>)
    ensures StrictlyAscending(SortDedup(s))
    ensures forall y :: y in SortDedup(s) <==> y in s
  {
    if s != [] {
      assert s == [s[0]] + s[1..];
      SortDedupSorted(s[1..]);
      InsertNewSorted(s[0], SortDedup(s[1..]));
    }
  }

  /** A list already sorted without repeats is left alone. */
  lemma {:induction false} SortDedupFixed(s: seq<string>)
    requires StrictlyAscending(s)
    ensures SortDedup(s) == s
  {
    if s != [] {
      var rest := s[1..];
      assert forall i, j :: 0 <= i < j < |rest| ==> rest[i] == s[i + 1] && rest[j] == s[j + 1];
      SortDedupFixed(rest);
      if rest != [] {
        assert Less(s[0], rest[0]);
        Irreflexive(s[0]);
      }
      assert s == [s[0]] + rest;
    }
  }

  lemma AscendingNoDup(s: seq<string>)
    requires StrictlyAscending(s)
    ensures forall i, j :: 0 <= i < j < |s| ==> s[i] != s[j]
  {
    forall i, j | 0 <= i < j < |s|
      ensures s[i] != s[j]
    {
      Irreflexive(s[i]);
    }
  }
}
