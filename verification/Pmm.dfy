// The physical page allocator of os/src/pmm.cpp. Its free list is threaded through
// the first word of each free page.
module PageAllocation {
  import opened Bits
  import opened PhysicalMemory
  import opened Sequences

  // A page is 4096 bytes, 512 words.
  const PAGES: nat := 0x8_8000
  const RAM_END: nat := 0x8800_0000

  // Word i of page p.
  function Word(m: seq<uint64>, p: nat, i: nat): uint64
    requires i < 512 && p * 512 + 512 <= |m|
  {
    m[p * 512 + i]
  }

  // The address stored in the link before position i of the list.
  function Link(free: seq<nat>, i: nat): nat {
    if i < |free| then free[i] * 4096 else 0
  }

  // Every page of the list is non-null and in memory.
  ghost predicate InMemory(pages: nat, free: seq<nat>) {
    forall i :: 0 <= i < |free| ==> 0 < free[i] < pages
  }

  // The first word of each page of the list is the address of the next one, or NULL.
  ghost predicate Threaded(m: seq<uint64>, pages: nat, free: seq<nat>)
    requires |m| == pages * 512 && InMemory(pages, free)
  {
    forall i :: 0 <= i < |free| ==> Word(m, free[i], 0) == Link(free, i + 1)
  }

  ghost predicate FreeList(m: seq<uint64>, pages: nat, free: seq<nat>) {
    |m| == pages * 512 && Distinct(free) && InMemory(pages, free) && Threaded(m, pages, free)
  }

  // The pages lo .. hi-1, highest first.
  function Descending(lo: nat, hi: nat): (r: seq<nat>)
    requires lo <= hi
  {
    seq(hi - lo, i requires 0 <= i < hi - lo => hi - 1 - i)
  }

  // The list that pmm_init builds: every page of the range, once.
  lemma DescendingCovers(lo: nat, hi: nat)
    requires lo <= hi
    ensures Distinct(Descending(lo, hi)) && |Descending(lo, hi)| == hi - lo
    ensures forall p: nat :: p in Descending(lo, hi) <==> lo <= p < hi
    ensures forall i :: 0 <= i < hi - lo ==> Descending(lo, hi)[i] == hi - 1 - i
  {
    forall p: nat | lo <= p < hi ensures p in Descending(lo, hi) {
      assert Descending(lo, hi)[hi - 1 - p] == p;
    }
  }

  lemma DescendingEmpty(lo: nat)
    ensures Descending(lo, lo) == []
  {
  }

  lemma DescendingStep(lo: nat, hi: nat)
    requires lo <= hi
    ensures [hi] + Descending(lo, hi) == Descending(lo, hi + 1)
    ensures hi !in Descending(lo, hi)
  {
  }

  lemma PopFreeList(m: seq<uint64>, pages: nat, free: seq<nat>)
    requires FreeList(m, pages, free) && free != []
    ensures FreeList(m, pages, free[1..])
    ensures Word(m, free[0], 0) == Link(free[1..], 0)
  {
    assert Word(m, free[0], 0) == Link(free, 1);
    forall i | 0 <= i < |free| - 1
      ensures Word(m, free[1..][i], 0) == Link(free[1..], i + 1)
    {
      assert Word(m, free[i + 1], 0) == Link(free, i + 2);
    }
  }

  lemma PushDistinct(free: seq<nat>, p: nat)
    requires Distinct(free) && p !in free
    ensures Distinct([p] + free)
  {
  }

  lemma PushInMemory(pages: nat, free: seq<nat>, p: nat)
    requires InMemory(pages, free) && 0 < p < pages
    ensures InMemory(pages, [p] + free)
  {
  }

  lemma PushThreaded(m: seq<uint64>, pages: nat, free: seq<nat>, p: nat, head: uint64)
    requires |m| == pages * 512 && InMemory(pages, free) && Threaded(m, pages, free)
    requires p !in free && 0 < p < pages && head == Link(free, 0)
    requires InMemory(pages, [p] + free)
    ensures Threaded(m[p * 512 := head], pages, [p] + free)
  {
    var m', f := m[p * 512 := head], [p] + free;
    forall i | 0 <= i < |f|
      ensures Word(m', f[i], 0) == Link(f, i + 1)
    {
      if i > 0 { assert Word(m, free[i - 1], 0) == Link(free, i); }
    }
  }

  // Pushing a page that is not in the list keeps the list well formed.
  lemma PushFreeList(m: seq<uint64>, pages: nat, free: seq<nat>, p: nat, head: uint64)
    requires FreeList(m, pages, free) && p !in free && 0 < p < pages && head == Link(free, 0)
    ensures FreeList(m[p * 512 := head], pages, [p] + free)
  {
    PushDistinct(free, p);
    PushInMemory(pages, free, p);
    PushThreaded(m, pages, free, p, head);
  }

  // Word i of page p lies at byte address 4096 p + 8 i.
  lemma WordAddress(p: nat, i: nat)
    ensures (p * 4096 + 8 * i) % 8 == 0 && (p * 4096 + 8 * i) / 8 == p * 512 + i
  {
  }

  class PageAllocator {
    const mem: Memory
    var freePagesList: uint64
    ghost var free: seq<nat>

    // Before pmm_init the list head is the zero of static storage.
    constructor (mem: Memory)
      requires mem.bytes.Length == RAM_END
      ensures this.mem == mem && Valid() && free == []
    {
      this.mem := mem;
      freePagesList := 0;
      free := [];
    }

    ghost predicate Valid()
      reads this, mem.bytes
    {
      && mem.bytes.Length == RAM_END
      && freePagesList == Link(free, 0)
      && FreeList(mem.Words(), PAGES, free)
    }

    // pmm::alloc_page
    method AllocPage() returns (p: uint64)
      requires Valid()
      modifies this
      ensures Valid()
      ensures p == 0 <==> old(free) == []
      ensures old(free) == [] ==> free == []
      ensures old(free) != [] ==> p == old(free[0]) * 4096 && free == old(free)[1..]
    {
      hide WordsOf;
      p := freePagesList;
      if p != 0 {
        PopFreeList(mem.Words(), PAGES, free);
        WordAddress(free[0], 0);
        ghost var m := mem.Words();
        freePagesList := mem.Load64(p);
        free := free[1..];
        assert mem.Words() == m;
      }
    }

    // pmm::free_page. The caller gives back an aligned page, number p, that is not already free.
    method FreePage(page: uint64, ghost p: nat)
      requires Valid()
      requires page == p * 4096 && 0 < p < PAGES && p !in free
      modifies this, mem.bytes
      ensures Valid()
      ensures free == [p] + old(free)
      ensures mem.Words() == old(mem.Words())[p * 512 := Link(old(free), 0)]
      ensures Link(old(free), 0) == if old(free) == [] then 0 else old(free)[0] * 4096
    {
      hide WordsOf;
      WordAddress(p, 0);
      PushFreeList(mem.Words(), PAGES, free, p, freePagesList);
      mem.Store64(page, freePagesList);
      freePagesList := page;
      free := [p] + free;
    }

    // pmm::pmm_init; kernelEnd is _kernel_end, which the linker script aligns to a page,
    // number first. The result is the number of pages that the source prints.
    method PmmInit(kernelEnd: uint64, ghost first: nat) returns (num: nat)
      requires Valid() && free == []
      requires kernelEnd == first * 4096 && 0 < first <= PAGES
      modifies this, mem.bytes
      ensures Valid()
      ensures free == Descending(first, PAGES)
      ensures forall p: nat :: p in free <==> first <= p < PAGES
      ensures |free| == PAGES - first && forall i :: 0 <= i < |free| ==> free[i] == PAGES - 1 - i
      ensures num == PAGES - first
    {
      hide WordsOf, Descending, FreeList;
      DescendingEmpty(first);
      num := 0;
      var p := kernelEnd;
      while p < RAM_END
        invariant p == (first + num) * 4096 && first + num <= PAGES
        invariant Valid()
        invariant free == Descending(first, first + num)
      {
        DescendingStep(first, first + num);
        FreePage(p, first + num);
        num := num + 1;
        p := p + 4096;
      }
      assert first + num == PAGES;
      DescendingCovers(first, PAGES);
    }
  }
}
