// The linked-list descriptor allocator of os/src/FS/MMIO.cpp, for any queue size.
module DescriptorChains {
  import opened Bits
  import opened DescriptorFlags
  import opened Sequences

  const NONE: uint16 := 0xFFFF        // end of the free list

  ghost predicate InQueue(size: nat, s: seq<uint16>) {
    forall i :: 0 <= i < |s| ==> s[i] < size
  }

  // The element at position i of the list, or what follows its end.
  function At(s: seq<uint16>, i: nat, end: uint16): uint16 {
    if i < |s| then s[i] else end
  }

  // Following `next` through the list s leads to `end`.
  ghost predicate Linked(next: seq<uint16>, s: seq<uint16>, end: uint16)
    requires InQueue(|next|, s)
  {
    forall i :: 0 <= i < |s| ==> next[s[i]] == At(s, i + 1, end)
  }

  ghost predicate FreeList(next: seq<uint16>, head: uint16, s: seq<uint16>) {
    && |next| <= NONE
    && Distinct(s) && InQueue(|next|, s) && Linked(next, s, NONE)
    && head == At(s, 0, NONE)
  }

  // The descriptors 0 .. n-1 in order.
  function Ascending(n: nat): (r: seq<uint16>)
    requires n <= NONE
    ensures |r| == n && forall i :: 0 <= i < n ==> r[i] == i
  {
    seq(n, i requires 0 <= i < n => i)
  }

  // A chain as its user leaves it: linked, with NEXT set on every descriptor but the last.
  ghost predicate MarkedChain(next: seq<uint16>, flags: seq<uint16>, c: seq<uint16>) {
    && |flags| == |next| && c != [] && Distinct(c) && InQueue(|next|, c)
    && (forall i :: 0 <= i < |c| - 1 ==> HasNext(flags[c[i]]) && next[c[i]] == c[i + 1])
    && !HasNext(flags[c[|c| - 1]])
  }

  lemma DropFirst(next: seq<uint16>, head: uint16, s: seq<uint16>)
    requires FreeList(next, head, s) && s != []
    ensures head < |next| && head != NONE && FreeList(next, next[head], s[1..])
  {
    assert next[s[0]] == At(s, 1, NONE);
    forall i | 0 <= i < |s| - 1 ensures next[s[1..][i]] == At(s[1..], i + 1, NONE) {
      assert next[s[i + 1]] == At(s, i + 2, NONE);
    }
  }

  lemma JoinDistinct(c: seq<uint16>, s: seq<uint16>)
    requires Distinct(c) && Distinct(s) && forall x :: x in c ==> x !in s
    ensures Distinct(c + s)
  {
    var t := c + s;
    forall i, j | 0 <= i < j < |t| ensures t[i] != t[j] {
      if i < |c| <= j { assert t[i] in c && t[j] in s; }
    }
  }

  lemma JoinLinked(next: seq<uint16>, head: uint16, s: seq<uint16>, c: seq<uint16>)
    requires InQueue(|next|, s) && Linked(next, s, NONE) && head == At(s, 0, NONE)
    requires c != [] && Distinct(c) && InQueue(|next|, c) && InQueue(|next|, c + s)
    requires forall i :: 0 <= i < |c| - 1 ==> next[c[i]] == c[i + 1]
    requires forall x :: x in c ==> x !in s
    ensures Linked(next[c[|c| - 1] := head], c + s, NONE)
  {
    var n := |c| - 1;
    var next', t := next[c[n] := head], c + s;
    forall i | 0 <= i < |t| ensures next'[t[i]] == At(t, i + 1, NONE) {
      if i < n {
        assert t[i] == c[i] && next[c[i]] == c[i + 1];
      } else if i > n {
        assert t[i] == s[i - n - 1] && c[n] in c;
        assert next[s[i - n - 1]] == At(s, i - n, NONE);
      }
    }
  }

  // Linking the last descriptor of a chain to the free list puts the chain in front of it.
  lemma Prepend(next: seq<uint16>, head: uint16, s: seq<uint16>, c: seq<uint16>)
    requires FreeList(next, head, s)
    requires c != [] && Distinct(c) && InQueue(|next|, c)
    requires forall i :: 0 <= i < |c| - 1 ==> next[c[i]] == c[i + 1]
    requires forall x :: x in c ==> x !in s
    ensures FreeList(next[c[|c| - 1] := head], c[0], c + s)
  {
    hide Distinct, Linked;
    JoinDistinct(c, s);
    JoinLinked(next, head, s, c);
  }

  // The answer of alloc_desc_chain(num), and what it leaves on the list.
  function Answer(s: seq<uint16>, num: int): uint16 {
    if num <= |s| then At(s, 0, NONE) else NONE
  }

  function LeftOn(s: seq<uint16>, num: int): seq<uint16> {
    if num <= 0 then s else if num <= |s| then s[num..] else []
  }

  // At most n descriptors, found by following `next` from head.
  function Reached(next: seq<uint16>, head: uint16, n: nat): (r: seq<uint16>)
    ensures |r| <= n
    decreases n
  {
    if n == 0 || head >= |next| then [] else [head] + Reached(next, next[head], n - 1)
  }

  // What the caller gets: the descriptors it reaches from the answer, at least the one that
  // the answer names.
  function Given(next: seq<uint16>, head: uint16, num: int): seq<uint16> {
    Reached(next, head, if num < 1 then 1 else num)
  }

  lemma {:induction false} ReachedOnList(next: seq<uint16>, head: uint16, s: seq<uint16>, n: nat)
    requires FreeList(next, head, s) && n <= |s|
    ensures Reached(next, head, n) == s[..n]
    decreases n
  {
    if n == 0 {
      assert s[..0] == [];
    } else {
      DropFirst(next, head, s);
      hide FreeList;
      ReachedOnList(next, next[head], s[1..], n - 1);
      FirstOfList(next, head, s);
      OneMore(s, n);
    }
  }

  lemma OneMore(s: seq<uint16>, n: nat)
    requires 0 < n <= |s|
    ensures s[..n] == [s[0]] + s[1..][..n - 1]
  {
  }

  lemma FirstOfList(next: seq<uint16>, head: uint16, s: seq<uint16>)
    requires FreeList(next, head, s)
    ensures |next| <= NONE && head == At(s, 0, NONE) && Distinct(s)
  {
  }

  lemma NotNone(next: seq<uint16>, head: uint16, s: seq<uint16>)
    requires FreeList(next, head, s)
    ensures head == NONE <==> s == []
  {
  }

  lemma GivenOnList(next: seq<uint16>, head: uint16, s: seq<uint16>, num: int)
    requires FreeList(next, head, s)
    ensures Given(next, Answer(s, num), num) ==
            if s == [] || num > |s| then [] else if num < 1 then [s[0]] else s[..num]
  {
    FirstOfList(next, head, s);
    hide FreeList;
    if s != [] && num <= |s| {
      ReachedOnList(next, head, s, if num < 1 then 1 else num);
    } else {
      assert Reached(next, NONE, if num < 1 then 1 else num) == [];
    }
  }

  lemma HeadIs(next: seq<uint16>, head: uint16, s: seq<uint16>)
    requires FreeList(next, head, s)
    ensures head == if s == [] then NONE else s[0]
  {
  }

  lemma AnswerIs(next: seq<uint16>, head: uint16, s: seq<uint16>, num: int)
    requires FreeList(next, head, s)
    ensures Answer(s, num) == if num <= |s| then head else NONE
    ensures LeftOn(s, num) == if num <= 0 then s else if num <= |s| then s[num..] else []
  {
  }

  lemma Conserved(next: seq<uint16>, head: uint16, s: seq<uint16>, num: int)
    requires FreeList(next, head, s)
    ensures Given(next, Answer(s, num), num) + LeftOn(s, num) == s <==> s == [] || 1 <= num <= |s|
  {
    GivenOnList(next, head, s, num);
    hide FreeList, Given, Answer;
    if 1 <= num <= |s| { assert s[..num] + s[num..] == s; }
  }

  // Whatever the links, the list and the request: what the caller gets and what stays make
  // up the list exactly when the list is empty or it has the num entries and num is at least
  // one. With fewer entries, and only then, some are lost: neither given nor left. With num
  // below one, and only then, the answer names a descriptor that stays on the list.
  lemma NothingLost(next: seq<uint16>, head: uint16, s: seq<uint16>, num: int)
    requires FreeList(next, head, s)
    ensures var given, left := Given(next, Answer(s, num), num), LeftOn(s, num);
      && (given + left == s <==> s == [] || 1 <= num <= |s|)
      && ((forall x :: x in s ==> x in given || x in left) <==> s == [] || num <= |s|)
      && ((forall x :: x in given ==> x !in left) <==> s == [] || num >= 1)
  {
    Conserved(next, head, s, num);
    GivenOnList(next, head, s, num);
    FirstOfList(next, head, s);
    hide FreeList, Given, Answer;
    if 1 <= num <= |s| {
      assert s[..num] + s[num..] == s;
    } else if s != [] {
      assert s[0] in s;
    }
  }

  class Queue {
    const next: array<uint16>
    const flags: array<uint16>
    var freeDescHead: uint16
    ghost var free: seq<uint16>

    ghost predicate Valid()
      reads this, next, flags
    {
      && next != flags && flags.Length == next.Length
      && FreeList(next[..], freeDescHead, free)
    }

    // Static initialisation and the loop at the start of virtio_blk_init.
    constructor (queueSize: uint16)
      requires 0 < queueSize
      ensures Valid() && fresh(next) && fresh(flags) && next.Length == queueSize
      ensures free == Ascending(queueSize)
    {
      next := new uint16[queueSize];
      flags := new uint16[queueSize](_ => 0);
      freeDescHead := 0;
      free := Ascending(queueSize);
      new;
      var i := 0;
      while i < queueSize
        invariant 0 <= i <= queueSize && free == Ascending(queueSize) && freeDescHead == 0
        invariant forall k :: 0 <= k < i ==> next[k] == At(free, k + 1, NONE)
      {
        next[i] := if i == queueSize - 1 then 0xFFFF else i + 1;
        i := i + 1;
      }
    }

    // alloc_desc_chain. With num entries available it removes exactly the first num and
    // returns the head; otherwise it returns 0xFFFF and leaves the list empty. What the
    // caller finds by following `next` from the answer and what stays on the list make up
    // the old list exactly when the list was empty or num is between one and its length.
    method AllocDescChain(num: int) returns (head: uint16)
      requires Valid()
      modifies this
      ensures Valid()
      ensures head == Answer(old(free), num) && free == LeftOn(old(free), num)
      ensures head == if old(free) == [] || num > |old(free)| then 0xFFFF else old(free)[0]
      ensures free == if num <= 0 then old(free) else if num <= |old(free)| then old(free)[num..] else []
      ensures freeDescHead == if free == [] then 0xFFFF else free[0]
      ensures Given(next[..], head, num) + free == old(free) <==> old(free) == [] || 1 <= num <= |old(free)|
    {
      ghost var links, s := next[..], free;
      hide FreeList, Given, Distinct, Answer, LeftOn;
      Conserved(links, freeDescHead, s, num);
      AnswerIs(links, freeDescHead, s, num);
      HeadIs(links, freeDescHead, s);
      head := freeDescHead;
      var i := 0;
      while i < num
        invariant 0 <= i <= |s| && (i > 0 ==> i <= num)
        invariant next[..] == links && FreeList(links, freeDescHead, free) && free == s[i..]
      {
        NotNone(links, freeDescHead, free);
        HeadIs(links, freeDescHead, free);
        if freeDescHead == 0xFFFF { return 0xFFFF; }
        DropFirst(links, freeDescHead, free);
        freeDescHead := next[freeDescHead];
        free := free[1..];
        i := i + 1;
      }
      HeadIs(links, freeDescHead, free);
    }

    // free_desc_chain
    method FreeDescChain(head: uint16, ghost c: seq<uint16>)
      requires Valid() && MarkedChain(next[..], flags[..], c) && head == c[0]
      requires forall x :: x in c ==> x !in free
      modifies this, next
      ensures Valid()
      ensures free == c + old(free)
      ensures next[..] == old(next[..])[c[|c| - 1] := old(freeDescHead)]
    {
      var last := head;
      ghost var i := 0;
      while HasNext(flags[last])
        invariant 0 <= i < |c| && last == c[i]
        decreases |c| - i
      {
        assert i < |c| - 1;
        last := next[last];
        i := i + 1;
      }
      assert i == |c| - 1;
      Prepend(next[..], freeDescHead, free, c);
      next[last] := freeDescHead;
      freeDescHead := head;
      free := c + free;
    }

    // What the user of a freshly allocated chain does with the flags: NEXT on every
    // descriptor but the last.
    method MarkChain(head: uint16, num: int, ghost c: seq<uint16>)
      requires 1 <= num == |c| && head == c[0] && next != flags && flags.Length == next.Length
      requires Distinct(c) && InQueue(next.Length, c)
      requires forall i :: 0 <= i < |c| - 1 ==> next[c[i]] == c[i + 1]
      modifies flags
      ensures MarkedChain(next[..], flags[..], c)
    {
      var d, i := head, 0;
      while i < num - 1
        invariant 0 <= i <= num - 1 && d == c[i]
        invariant forall k :: 0 <= k < i ==> HasNext(flags[c[k]])
      {
        flags[d] := F_NEXT;
        d := next[d];
        i := i + 1;
      }
      flags[d] := F_WRITE;
      FlagValues();
    }

    // The life of a chain: allocate num descriptors, mark them as a chain, free them again.
    // The free list and every link are as before.
    method UseChain(num: int)
      requires Valid() && 1 <= num <= |free|
      modifies this, next, flags
      ensures Valid() && free == old(free)
      ensures next[..] == old(next[..]) && freeDescHead == old(freeDescHead)
    {
      ghost var c, m := free[..num], next[..];
      FirstPart(m, freeDescHead, free, num);
      PartsDisjoint(free, num);
      var head := AllocDescChain(num);
      assert freeDescHead == m[c[num - 1]];
      hide FreeList, HasNext;
      MarkChain(head, num, c);
      assert next[..] == m;
      FreeDescChain(head, c);
    }
  }

  lemma PartsDisjoint(s: seq<uint16>, num: nat)
    requires Distinct(s) && num <= |s|
    ensures Distinct(s[..num])
    ensures forall x :: x in s[..num] ==> x !in s[num..]
    ensures s[..num] + s[num..] == s
  {
  }

  // The first num entries of the free list are a chain of their own, ending in the rest.
  lemma FirstPart(next: seq<uint16>, head: uint16, s: seq<uint16>, num: nat)
    requires FreeList(next, head, s) && 1 <= num <= |s|
    ensures InQueue(|next|, s[..num]) && s[..num][0] == head
    ensures forall i :: 0 <= i < num - 1 ==> next[s[..num][i]] == s[..num][i + 1]
    ensures next[s[..num][num - 1]] == At(s[num..], 0, NONE)
  {
    forall i | 0 <= i < num - 1 ensures next[s[..num][i]] == s[..num][i + 1] {
      assert next[s[i]] == At(s, i + 1, NONE);
    }
    assert next[s[num - 1]] == At(s, num, NONE);
  }

  // A failing run: from the initialised queue of eight descriptors, two chains of three
  // leave two entries; the third request for three returns 0xFFFF and both are lost.
  method ThirdChainFails() returns (q: Queue, first: uint16, second: uint16, third: uint16, ghost before: seq<uint16>)
    ensures fresh(q) && q.Valid() && q.next.Length == 8
    ensures first == 0 && second == 3 && before == [6, 7]
    ensures third == NONE && q.free == []
  {
    hide FreeList, Given, Reached, Answer, LeftOn;
    q := new Queue(8);
    first := q.AllocDescChain(3);
    second := q.AllocDescChain(3);
    before := q.free;
    third := q.AllocDescChain(3);
  }
}
