/** Sequences without repetitions, and finite sets. */
module Sequences {

  ghost predicate Distinct(s: seq<nat>) {
    forall j, k {:trigger Differ(s, j, k)} :: 0 <= j < k < |s| ==> Differ(s, j, k)
  }

  predicate Differ(s: seq<nat>, j: nat, k: nat)
    requires j < |s| && k < |s|
  {
    s[j] != s[k]
  }

  lemma DistinctFresh(s: seq<nat>, x: nat)
    requires Distinct(s) && x !in s
    ensures Distinct(s + [x])
  {
    forall j, k | 0 <= j < k < |s + [x]| ensures Differ(s + [x], j, k) {
      if k < |s| {
        assert Differ(s, j, k);
      }
    }
  }

  lemma DistinctParts(a: seq<nat>, b: seq<nat>)
    requires Distinct(a + b)
    ensures Distinct(a) && Distinct(b) && forall x :: x in a ==> x !in b
  {
    forall j, k | 0 <= j < k < |a| ensures Differ(a, j, k) {
      assert Differ(a + b, j, k);
    }
    forall j, k | 0 <= j < k < |b| ensures Differ(b, j, k) {
      assert Differ(a + b, |a| + j, |a| + k);
    }
    forall x | x in a ensures x !in b {
      var j :| 0 <= j < |a| && a[j] == x;
      forall k | 0 <= k < |b| ensures b[k] != x {
        assert Differ(a + b, j, |a| + k);
      }
    }
  }

  lemma DistinctAppend(a: seq<nat>, b: seq<nat>)
    requires Distinct(a) && Distinct(b) && forall x :: x in a ==> x !in b
    ensures Distinct(a + b)
  {
    forall j, k | 0 <= j < k < |a + b| ensures Differ(a + b, j, k) {
      if k < |a| {
        assert Differ(a, j, k);
      } else if |a| <= j {
        assert Differ(b, j - |a|, k - |a|);
      } else {
        assert a[j] in a && b[k - |a|] in b;
      }
    }
  }

  lemma AppendAssoc<T>(a: seq<T>, b: seq<T>, c: seq<T>)
    ensures a + (b + c) == a + b + c
  {
  }

  lemma SubsetSize<T>(a: set<T>, b: set<T>)
    requires a <= b
    ensures |a| <= |b| && (|a| == |b| <==> a == b)
  {
    var c := b - a;
    assert b == a + c;
  }

  function Without<T>(s: seq<T>, i: nat): (r: seq<T>)
    requires i < |s|
    ensures |r| == |s| - 1
  {
    s[..i] + s[i + 1..]
  }
}
