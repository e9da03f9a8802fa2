// Facts about sequences without repetition and about sets of small numbers, which the free
// lists and the rings share.
module Sequences {

  ghost predicate Distinct<T>(s: seq<T>) {
    forall i, j :: 0 <= i < j < |s| ==> s[i] != s[j]
  }

  function Elements(s: seq<nat>): set<nat> {
    set x | x in s
  }

  lemma {:induction false} ElementsBound(s: seq<nat>)
    ensures |Elements(s)| <= |s|
  {
    if s == [] {
      assert Elements(s) == {};
    } else {
      ElementsBound(s[1..]);
      assert Elements(s) == {s[0]} + Elements(s[1..]);
    }
  }

  lemma {:induction false} DistinctInSet(s: seq<nat>, t: set<nat>)
    requires Distinct(s) && forall i :: 0 <= i < |s| ==> s[i] in t
    ensures |s| <= |t|
  {
    if s == [] {
      assert |s| == 0;
    } else {
      var n := |s| - 1;
      DistinctInSet(s[..n], t - {s[n]});
    }
  }

  lemma {:induction false} BoundedSet(t: set<nat>, n: nat)
    requires forall x :: x in t ==> x < n
    ensures |t| <= n
  {
    if n == 0 {
      assert t == {};
    } else {
      BoundedSet(t - {n - 1}, n - 1);
      if n - 1 in t { assert |t - {n - 1}| == |t| - 1; } else { assert t - {n - 1} == t; }
    }
  }

  // A sequence in which every number below n occurs has at least n elements.
  lemma CoveringIsLong(s: seq<nat>, n: nat)
    requires forall k: nat :: k < n ==> k in s
    ensures n <= |s|
  {
    var all := seq(n, i requires 0 <= i => i);
    DistinctInSet(all, Elements(s));
    ElementsBound(s);
  }

  lemma PrefixOfPrefix<T>(s: seq<T>, k: nat, n: nat)
    requires k <= n <= |s|
    ensures s[..n][..k] == s[..k]
  {
  }
}
