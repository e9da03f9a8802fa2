// The block driver of 参考资料/virtio_disk.cpp on its arrays. Each method performs a step of
// the protocol; the helpers alloc_desc, free_desc, free_chain and alloc3_desc are also
// those of os/src/FS/MMIO.cpp. A panic is a precondition that every caller here meets.
module VirtioDisk {
  import opened DescriptorFlags
  import opened Sequences
  import opened VirtioProtocol
  import opened VirtioSteps

  // A chain in the descriptor table: c[0] leads through `next` to the last descriptor, the
  // only one without NEXT.
  ghost predicate IsChain(desc: seq<Desc>, c: seq<nat>) {
    && c != [] && (forall i :: 0 <= i < |c| ==> c[i] < |desc|)
    && (forall i, j :: 0 <= i < j < |c| ==> c[i] != c[j])
    && (forall i :: 0 <= i < |c| - 1 ==> HasNext(desc[c[i]].flags) && desc[c[i]].next == c[i + 1])
    && !HasNext(desc[c[|c| - 1]].flags)
  }

  lemma PrefixGrows(c: seq<nat>, k: nat)
    requires k < |c| && forall i, j :: 0 <= i < j < |c| ==> c[i] != c[j]
    ensures forall x :: x in c[..k + 1] <==> x in c[..k] || x == c[k]
    ensures c[k] !in c[..k] && c[k] in c
  {
    assert c[..k + 1] == c[..k] + [c[k]];
  }

  class DescriptorTable {
    const desc: array<Desc>
    const free: array<bool>

    ghost predicate Valid() {
      desc.Length == 8 && free.Length == 8
    }

    constructor ()
      ensures Valid() && fresh(desc) && fresh(free)
      ensures forall i :: 0 <= i < 8 ==> desc[i] == Desc(0, 0, 0, 0) && free[i]
    {
      desc := new Desc[8](_ => Desc(0, 0, 0, 0));
      free := new bool[8](_ => true);
    }

    // alloc_desc: the first free descriptor, or -1.
    method AllocDesc() returns (r: int)
      requires Valid()
      modifies free
      ensures var k := FirstFree(old(free[..]), 0);
        if k < 8 then r == k && free[..] == old(free[..])[k := false]
        else r == -1 && free[..] == old(free[..])
    {
      var i := 0;
      while i < 8
        invariant 0 <= i <= 8
        invariant FirstFree(free[..], 0) == FirstFree(free[..], i)
        invariant free[..] == old(free[..])
      {
        if free[i] {
          free[i] := false;
          return i;
        }
        i := i + 1;
      }
      r := -1;
    }

    // free_desc
    method FreeDesc(i: int)
      requires Valid() && 0 <= i < 8 && !free[i]
      modifies desc, free
      ensures desc[..] == old(desc[..])[i := ClearAddr(old(desc[i]))]
      ensures free[..] == old(free[..])[i := true]
    {
      desc[i] := desc[i].(addr := 0);
      free[i] := true;
    }

    // free_chain: terminates, never frees a free descriptor, and frees exactly the chain.
    method FreeChain(head: nat, ghost c: seq<nat>)
      requires Valid() && IsChain(desc[..], c) && head == c[0]
      requires forall i :: i in c ==> !free[i]
      modifies desc, free
      ensures forall i :: 0 <= i < 8 ==> free[i] == (old(free[i]) || i in c)
      ensures forall i :: 0 <= i < 8 ==> desc[i] == if i in c then ClearAddr(old(desc[i])) else old(desc[i])
    {
      hide HasNext;
      var i := head;
      ghost var k := 0;
      while true
        invariant 0 <= k < |c| && i == c[k]
        invariant forall j :: 0 <= j < 8 ==> free[j] == (old(free[j]) || j in c[..k])
        invariant forall j :: 0 <= j < 8 ==> desc[j] == if j in c[..k] then ClearAddr(old(desc[j])) else old(desc[j])
        decreases |c| - k
      {
        PrefixGrows(c, k);
        FreeDesc(i);
        if HasNext(desc[i].flags) {
          i := desc[i].next;
          k := k + 1;
        } else {
          assert c[..k + 1] == c;
          break;
        }
      }
    }

    // alloc3_desc is all or nothing: it succeeds exactly when three descriptors are free and
    // then takes the first three; when it fails the free map is as before.
    method Alloc3Desc(idx: array<int>) returns (r: int)
      requires Valid() && idx.Length == 3
      modifies idx, desc, free
      ensures r == 0 <==> |InUse(old(free[..]))| <= 5
      ensures r == 0 ==>
        && 0 <= idx[0] < 8 && 0 <= idx[1] < 8 && 0 <= idx[2] < 8
        && ThreeFree(old(free[..]), idx[0], idx[1], idx[2])
        && free[..] == old(free[..])[idx[0] := false][idx[1] := false][idx[2] := false]
        && desc[..] == old(desc[..])
      ensures r == 0 ==> forall k :: 0 <= k < 3 ==> idx[k] == Pick(old(free[..]), k)
      ensures r == 0 ==> idx[0] < idx[1] < idx[2]
      ensures r == 0 ==> forall k :: 0 <= k < idx[2] && old(free[k]) ==> k in {idx[0], idx[1], idx[2]}
      ensures r != 0 ==> r == -1 && free[..] == old(free[..]) && desc[..] == ClearFree(old(desc[..]), old(free[..]))
    {
      hide Pick, ThreeFree, InUse, ClearFree, FirstFree, Taken, Picked;
      ghost var f := free[..];
      ghost var t: seq<nat> := [];
      NoneTaken(f);
      var i := 0;
      while i < 3
        invariant 0 <= i == |t| <= 3 && idx[..i] == t && Taken(f, free[..], t) && Picked(f, free[..], t)
        invariant desc[..] == old(desc[..])
      {
        ghost var g := free[..];
        idx[i] := AllocDesc();
        if idx[i] < 0 {
          AllInUse(f, g, t);
          GiveBack(idx, i, f, t);
          return -1;
        }
        TakeOne(f, g, t, idx[i]);
        t := t + [idx[i]];
        i := i + 1;
      }
      ThreeTaken(f, free[..], t);
      ThreePicked(f, free[..], t);
      PicksAscend(f);
      r := 0;
    }

    // The inner loop of alloc3_desc: the descriptors taken so far are freed again.
    method GiveBack(idx: array<int>, i: nat, ghost f: seq<bool>, ghost t: seq<nat>)
      requires Valid() && i <= idx.Length && idx[..i] == t && Taken(f, free[..], t)
      requires forall k :: 0 <= k < 8 ==> (f[k] <==> k in t)
      modifies desc, free
      ensures free[..] == f && desc[..] == ClearFree(old(desc[..]), f)
    {
      var j := 0;
      while j < i
        invariant 0 <= j <= i
        invariant forall k :: 0 <= k < 8 ==> free[k] == (k in t[..j])
        invariant forall k :: 0 <= k < 8 ==> desc[k] == if k in t[..j] then ClearAddr(old(desc[k])) else old(desc[k])
      {
        assert idx[j] == t[j] && t[j] !in t[..j] && t[j] in t;
        FreeDesc(idx[j]);
        assert t[..j + 1] == t[..j] + [t[j]];
        j := j + 1;
      }
      assert t[..i] == t;
    }
  }

  // From the free map f the distinct free descriptors t have been taken, which gives g.
  ghost predicate Taken(f: seq<bool>, g: seq<bool>, t: seq<nat>) {
    && |f| == |g| == 8 && |t| <= 3
    && (forall i :: 0 <= i < |t| ==> t[i] < 8 && f[t[i]])
    && (forall i, j :: 0 <= i < j < |t| ==> t[i] != t[j])
    && (forall k :: 0 <= k < 8 ==> g[k] == (f[k] && k !in t))
  }

  // The descriptors t are the answers of the first |t| calls of alloc_desc.
  ghost predicate Picked(f: seq<bool>, g: seq<bool>, t: seq<nat>) {
    g == AfterTaking(f, |t|) && forall k :: 0 <= k < |t| ==> t[k] == Pick(f, k)
  }

  lemma NoneTaken(f: seq<bool>)
    requires |f| == 8
    ensures Taken(f, f, []) && Picked(f, f, [])
  {
  }

  lemma TakeOne(f: seq<bool>, g: seq<bool>, t: seq<nat>, x: nat)
    requires |t| < 3 && Taken(f, g, t) && Picked(f, g, t) && |g| == 8
    requires x == FirstFree(g, 0) < 8
    ensures Taken(f, g[x := false], t + [x]) && Picked(f, g[x := false], t + [x])
  {
    TakeFirst(f, g, t, x);
    hide Taken, FirstFree;
  }

  lemma TakeFirst(f: seq<bool>, g: seq<bool>, t: seq<nat>, x: nat)
    requires |t| < 3 && Taken(f, g, t) && x < |g| && g[x]
    ensures Taken(f, g[x := false], t + [x])
  {
  }

  lemma ThreePicked(f: seq<bool>, g: seq<bool>, t: seq<nat>)
    requires Picked(f, g, t) && |t| == 3
    ensures t[0] == Pick(f, 0) && t[1] == Pick(f, 1) && t[2] == Pick(f, 2)
  {
  }

  // The picks are the lowest free descriptors, lowest first.
  lemma PicksAscend(f: seq<bool>)
    requires Pick(f, 0) < |f| && Pick(f, 1) < |f| && Pick(f, 2) < |f|
    ensures Pick(f, 0) < Pick(f, 1) < Pick(f, 2)
    ensures forall k :: 0 <= k < Pick(f, 2) && f[k] ==> k in {Pick(f, 0), Pick(f, 1), Pick(f, 2)}
  {
    var a, b := AfterTaking(f, 1), AfterTaking(f, 2);
    assert a == f[Pick(f, 0) := false] by { assert AfterTaking(f, 0) == f; }
    assert b == a[Pick(f, 1) := false];
    hide FirstFree, AfterTaking;
    PickFacts(f, 0);
    PickFacts(f, 1);
    PickFacts(f, 2);
    hide Pick;
    forall k | 0 <= k < Pick(f, 2) && f[k] ensures k in {Pick(f, 0), Pick(f, 1), Pick(f, 2)} {
      assert !b[k];
    }
  }

  lemma PickFacts(f: seq<bool>, n: nat)
    requires Pick(f, n) < |f|
    ensures AfterTaking(f, 0) == f && AfterTaking(f, n)[Pick(f, n)]
    ensures forall k :: 0 <= k < Pick(f, n) ==> !AfterTaking(f, n)[k]
  {
  }

  // When none is left after taking at most two, fewer than three were free.
  lemma AllInUse(f: seq<bool>, g: seq<bool>, t: seq<nat>)
    requires Taken(f, g, t) && |t| <= 2 && FirstFree(g, 0) == 8
    ensures |InUse(f)| > 5
    ensures forall k :: 0 <= k < 8 ==> (f[k] <==> k in t)
  {
    hide FirstFree;
    assert forall k :: 0 <= k < 8 ==> (f[k] <==> k in t);
    hide Taken;
    ElementsBound(t);
    Complement(InUse(f), Elements(t));
  }

  lemma Complement(u: set<nat>, t: set<nat>)
    requires u !! t && forall k: nat :: k < 8 <==> k in u + t
    ensures |u| + |t| == 8
  {
    var all: set<nat> := {0, 1, 2, 3, 4, 5, 6, 7};
    assert |all| == 8;
    assert u + t == all;
  }

  lemma ThreeTaken(f: seq<bool>, g: seq<bool>, t: seq<nat>)
    requires Taken(f, g, t) && |t| == 3
    ensures |f| == 8 && t[0] < 8 && t[1] < 8 && t[2] < 8
    ensures ThreeFree(f, t[0], t[1], t[2]) && g == f[t[0] := false][t[1] := false][t[2] := false]
    ensures |InUse(f)| <= 5
  {
    ThreeMoreInUse(f, t[0], t[1], t[2]);
    BoundedSet(InUse(f[t[0] := false][t[1] := false][t[2] := false]), 8);
  }
}
