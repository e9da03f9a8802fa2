// The page table class of os/src/vmm.cpp, working in place on physical memory.
module VirtualMemory {
  import opened Bits
  import opened PhysicalMemory
  import opened PageAllocation
  import opened Sequences
  import opened PageTableState
  import opened PageTableMemory
  import opened PageTableExhausted
  import opened PageTableEntry

  // --- What the operations do to the abstract state ---

  // The number of table pages that page_walk_alloc takes from the allocator.
  function Missing(s: State, b: Branch): nat {
    if b.v2 !in s.mids then 2 else if b !in s.leaves then 1 else 0
  }

  // The allocator has the pages for the tables that k still needs.
  ghost predicate Enough(s: State, k: Key) {
    k in s.dict || |s.free| >= Missing(s, BranchOf(k))
  }

  // With too few pages: page 0 is linked on the way to k, and its words are known.
  ghost predicate Exhausted(m: seq<uint64>, s: State, k: Key) {
    && LinksNull(m, PAGES, s.root, BranchOf(k))
    && NullPage(m, if s.free == [] && k.v2 !in s.mids then k.v1 else 512)
  }

  // What add then answers: -1 when both tables are page 0 and the entry for k is the link of
  // that page to itself, and otherwise 0.
  function NullAnswer(s: State, k: Key): int {
    if s.free == [] && k.v2 !in s.mids && k.v0 == k.v1 then -1 else 0
  }

  // page_walk_alloc: the level-0 table for b exists afterwards.
  function EnsureLeaf(s: State, b: Branch): State
    requires |s.free| >= Missing(s, b)
  {
    if b.v2 !in s.mids then
      var s1 := LinkMid(TakeFree(s), b.v2, s.free[0]);
      LinkLeaf(TakeFree(s1), b, s1.free[0])
    else if b !in s.leaves then
      LinkLeaf(TakeFree(s), b, s.free[0])
    else s
  }

  // The level-1 table is the first page taken and the level-0 table the next one.
  lemma TablesInOrder(s: State, b: Branch)
    requires |s.free| >= Missing(s, b)
    ensures var t := EnsureLeaf(s, b);
      && (b.v2 !in s.mids ==> t.mids == s.mids[b.v2 := s.free[0]] && t.leaves == s.leaves[b := s.free[1]])
      && (b.v2 in s.mids && b !in s.leaves ==> t.mids == s.mids && t.leaves == s.leaves[b := s.free[0]])
      && (b.v2 in s.mids && b in s.leaves ==> t == s)
  {
  }

  // add, where x is what the new entry designates. Without V in its flags the tables are
  // built but the key stays absent.
  function AddStep(s: State, k: Key, x: Mapping): State
    requires k !in s.dict ==> |s.free| >= Missing(s, BranchOf(k))
  {
    if k in s.dict then s
    else if !ValidFlags(x.flags) then EnsureLeaf(s, BranchOf(k))
    else MapPage(EnsureLeaf(s, BranchOf(k)), k, x.page, x.flags)
  }

  function EraseStep(s: State, k: Key): State {
    if k in s.dict then GiveFree(UnmapPage(s, k), s.dict[k].page) else s
  }

  // The page that erase gives back, or 0.
  function ErasedPage(s: State, k: Key): nat {
    if k in s.dict then s.dict[k].page else 0
  }

  // The page of the level-0 entry for k; page 0 when there was none for its table.
  function SlotPage(s: State, k: Key): nat {
    if BranchOf(k) in s.leaves then s.leaves[BranchOf(k)] else 0
  }

  // The address of the level-0 entry for k.
  function SlotAddress(s: State, k: Key): nat
    requires BranchOf(k) in s.leaves
  {
    s.leaves[BranchOf(k)] * 4096 + 8 * k.v0
  }

  // Pages that are held or mapped before the operation keep their contents, except page x;
  // page 0, which has no role, excepts none.
  ghost predicate ContentsKept(m: seq<uint64>, m': seq<uint64>, s: State, x: nat) {
    |m'| == |m| && forall p: nat, i: Index :: ContentPage(s, p) && p != x ==> At(m', p, i) == At(m, p, i)
  }

  // A new table: an empty root; every page that is neither it nor free is the caller's.
  function InitState(root: nat, free: seq<nat>, pages: nat): State {
    State(root, free, map[], map[], map[],
          map p: nat | 0 < p < pages :: if p == root then Root else if p in free then Free else Held)
  }

  lemma InitInv(m: seq<uint64>, root: nat, free: seq<nat>, pages: nat)
    requires FreeList(m, pages, free) && 0 < root < pages && root !in free && ZeroPage(m, root)
    ensures Inv(m, InitState(root, free, pages), pages)
  {
    var s := InitState(root, free, pages);
    InitOwned(root, free, pages);
    assert RootTable(m, s) by {
      forall i: Index ensures At(m, s.root, i) == RootEntry(s, i) { assert At(m, root, i) == 0; }
    }
  }

  lemma InitOwned(root: nat, free: seq<nat>, pages: nat)
    requires Distinct(free) && InMemory(pages, free) && 0 < root < pages && root !in free
    ensures Wf(InitState(root, free, pages), pages)
  {
  }

  // A cleared page reads as zero words and no other word changes.
  lemma ClearedPage(b: seq<uint8>, b': seq<uint8>, p: nat)
    requires |b'| == |b| && p * 4096 + 4096 <= |b|
    requires forall i :: 0 <= i < |b| ==> b'[i] == if p * 4096 <= i < p * 4096 + 4096 then 0 else b[i]
    ensures ZeroPage(WordsOf(b'), p) && OnlyPage(WordsOf(b), WordsOf(b'), p)
  {
    var m, m' := WordsOf(b), WordsOf(b');
    hide WordsOf;
    forall i: Index ensures At(m', p, i) == 0 {
      WordView(b', p * 512 + i);
    }
    forall q: nat, i: Index | q != p ensures At(m', q, i) == At(m, q, i) {
      if q * 512 + i < |m| {
        WordView(b, q * 512 + i);
        WordView(b', q * 512 + i);
        SameWord(b, b', p, q * 512 + i);
      }
    }
  }

  lemma SameWord(b: seq<uint8>, b': seq<uint8>, p: nat, k: nat)
    requires |b'| == |b| && 8 * k + 8 <= |b| && !(p * 512 <= k < p * 512 + 512)
    requires forall i :: 0 <= i < |b| && !(p * 4096 <= i < p * 4096 + 4096) ==> b'[i] == b[i]
    ensures WordAt(b', 8 * k) == WordAt(b, 8 * k)
  {
    assert forall i :: 8 * k <= i < 8 * k + 8 ==> b'[i] == b[i];
  }

  // --- Reading one level of the tree ---

  lemma RootWord(m: seq<uint64>, s: State, pages: nat, i: Index)
    requires Inv(m, s, pages)
    ensures |m| == pages * 512 && s.root < pages && At(m, s.root, i) == RootEntry(s, i)
    ensures !ContentPage(s, s.root)
    ensures i in s.mids ==> 0 < s.mids[i] < pages
  {
    assert Has(s, s.root, Root);
    if i in s.mids { assert Has(s, s.mids[i], Mid(i)); }
  }

  lemma MidWord(m: seq<uint64>, s: State, pages: nat, b: Branch)
    requires Inv(m, s, pages) && b.v2 in s.mids
    ensures |m| == pages * 512 && 0 < s.mids[b.v2] < pages && At(m, s.mids[b.v2], b.v1) == MidEntry(s, b)
    ensures !ContentPage(s, s.mids[b.v2])
    ensures b in s.leaves ==> 0 < s.leaves[b] < pages
  {
    assert Has(s, s.mids[b.v2], Mid(b.v2));
    if b in s.leaves { assert Has(s, s.leaves[b], Leaf(b)); }
  }

  lemma LeafWord(m: seq<uint64>, s: State, pages: nat, k: Key)
    requires Inv(m, s, pages) && BranchOf(k) in s.leaves
    ensures |m| == pages * 512 && 0 < s.leaves[BranchOf(k)] < pages
    ensures SlotHolds(s, k, At(m, s.leaves[BranchOf(k)], k.v0)) && !ContentPage(s, s.leaves[BranchOf(k)])
    ensures k in s.dict ==> 0 < s.dict[k].page < pages && ValidFlags(s.dict[k].flags)
  {
    assert Has(s, s.leaves[BranchOf(k)], Leaf(BranchOf(k)));
    if k in s.dict { assert Has(s, s.dict[k].page, Data(k)); }
  }

  lemma RootLevel(m: seq<uint64>, s: State, pages: nat, i: Index)
    requires Inv(m, s, pages) && pages <= 0x1000_0000_0000
    ensures s.root < pages
    ensures IsValid(At(m, s.root, i)) <==> i in s.mids
    ensures i in s.mids ==> 0 < s.mids[i] < pages && GetPa(At(m, s.root, i)) == s.mids[i] * 4096
  {
    hide IsValid, GetPa, Inv, At;
    RootWord(m, s, pages, i);
    ZeroIsInvalid();
    if i in s.mids { EntryFields(s.mids[i], 1); }
  }

  lemma MidLevel(m: seq<uint64>, s: State, pages: nat, b: Branch)
    requires Inv(m, s, pages) && pages <= 0x1000_0000_0000 && b.v2 in s.mids
    ensures IsValid(At(m, s.mids[b.v2], b.v1)) <==> b in s.leaves
    ensures b in s.leaves ==> 0 < s.leaves[b] < pages && GetPa(At(m, s.mids[b.v2], b.v1)) == s.leaves[b] * 4096
  {
    hide IsValid, GetPa, Inv, At, Entry, Wf, Represents, FreeList, ContentPage;
    MidWord(m, s, pages, b);
    ZeroIsInvalid();
    if b in s.leaves { EntryFields(s.leaves[b], 1); }
  }

  lemma LeafLevel(m: seq<uint64>, s: State, pages: nat, k: Key)
    requires Inv(m, s, pages) && pages <= 0x1000_0000_0000 && BranchOf(k) in s.leaves
    ensures IsValid(At(m, s.leaves[BranchOf(k)], k.v0)) <==> k in s.dict
    ensures k in s.dict ==>
      && 0 < s.dict[k].page < pages
      && GetPa(At(m, s.leaves[BranchOf(k)], k.v0)) == s.dict[k].page * 4096
  {
    hide IsValid, GetPa, Inv, At;
    LeafWord(m, s, pages, k);
    FlagsOf(At(m, s.leaves[BranchOf(k)], k.v0));
    if k in s.dict { EntryFields(s.dict[k].page, s.dict[k].flags); }
  }

  // A mapped key has its tables.
  lemma MappedHasTables(s: State, pages: nat, k: Key)
    requires Wf(s, pages)
    ensures k in s.dict ==> BranchOf(k) in s.leaves
    ensures BranchOf(k) in s.leaves ==> k.v2 in s.mids
  {
    if BranchOf(k) in s.leaves { assert BranchOf(k).v2 in s.mids; }
  }

  // alloc_empty_page: the page handed out is cleared. There is no test for an exhausted
  // allocator: page 0 is cleared then.
  method AllocEmptyPage(alloc: PageAllocator) returns (page: uint64)
    requires alloc.Valid()
    modifies alloc, alloc.mem.bytes
    ensures alloc.Valid()
    ensures page == HeadPage(old(alloc.free)) * 4096 && alloc.free == Rest(old(alloc.free))
    ensures ZeroPage(alloc.mem.Words(), HeadPage(old(alloc.free)))
    ensures OnlyPage(old(alloc.mem.Words()), alloc.mem.Words(), HeadPage(old(alloc.free)))
  {
    hide WordsOf;
    ghost var p, before := HeadPage(alloc.free), alloc.mem.bytes[..];
    assert p !in Rest(alloc.free);
    page := alloc.AllocPage();
    page := alloc.mem.Memset(page, 0, 4096);
    ClearedPage(before, alloc.mem.bytes[..], p);
    FreeListKept(WordsOf(before), alloc.mem.Words(), PAGES, alloc.free, p);
  }

  class PageTable {
    const alloc: PageAllocator
    var root: uint64
    ghost var s: State

    ghost predicate Valid()
      reads this, alloc, alloc.mem.bytes
    {
      && alloc.Valid()
      && root == s.root * 4096
      && alloc.free == s.free
      && Inv(alloc.mem.Words(), s, PAGES)
    }

    // The word at entry i of table page p.
    method ReadEntry(pte: nat, ghost p: nat, ghost i: Index) returns (w: uint64)
      requires alloc.mem.bytes.Length == RAM_END && pte == p * 4096 + 8 * i && p < PAGES
      ensures w == At(alloc.mem.Words(), p, i)
    {
      hide WordsOf;
      WordAddress(p, i);
      w := alloc.mem.Load64(pte);
    }

    // Stores a word at entry i of table page p.
    method WriteEntry(pte: nat, w: uint64, ghost p: nat, ghost i: Index)
      requires alloc.mem.bytes.Length == RAM_END && pte == p * 4096 + 8 * i && p < PAGES
      modifies alloc.mem.bytes
      ensures alloc.mem.Words() == old(alloc.mem.Words())[p * 512 + i := w]
    {
      hide WordsOf;
      WordAddress(p, i);
      alloc.mem.Store64(pte, w);
    }

    // page_walk: the entry for va, or NULL.
    method PageWalk(va: uint64) returns (pte: uint64)
      requires Valid()
      ensures pte == if KeyOf(va) in s.dict then SlotAddress(s, KeyOf(va)) else 0
    {
      hide WordsOf, FreeList, KeyOf, IsValid, GetPa, At, Wf, Represents;
      ghost var m := alloc.mem.Words();
      var k := KeyOf(va);
      MappedHasTables(s, PAGES, k);
      RootLevel(m, s, PAGES, k.v2);
      var w := ReadEntry(root + 8 * k.v2, s.root, k.v2);
      if !IsValid(w) { return 0; }
      MidLevel(m, s, PAGES, BranchOf(k));
      w := ReadEntry(Step(w, k.v1), s.mids[k.v2], k.v1);
      if !IsValid(w) { return 0; }
      LeafWord(m, s, PAGES, k);
      LeafLevel(m, s, PAGES, k);
      pte := Step(w, k.v0);
      w := ReadEntry(pte, s.leaves[BranchOf(k)], k.v0);
      if !IsValid(w) { return 0; }
    }

    // PageTable::PageTable. With an exhausted allocator the root is page 0.
    constructor (alloc: PageAllocator)
      requires alloc.Valid()
      modifies alloc, alloc.mem.bytes
      ensures this.alloc == alloc && alloc.Valid() && root == HeadPage(old(alloc.free)) * 4096
      ensures old(alloc.free) != [] ==>
        Valid() && s == InitState(old(alloc.free[0]), old(alloc.free)[1..], PAGES)
      ensures old(alloc.free) == [] ==> forall t: State :: root == t.root * 4096 ==> !Inv(alloc.mem.Words(), t, PAGES)
      ensures OnlyPage(old(alloc.mem.Words()), alloc.mem.Words(), HeadPage(old(alloc.free)))
    {
      hide WordsOf, At;
      ghost var free := alloc.free;
      HeadFacts(alloc.mem.Words(), PAGES, free);
      var page := AllocEmptyPage(alloc);
      if free != [] { InitInv(alloc.mem.Words(), free[0], alloc.free, PAGES); }
      this.alloc := alloc;
      root := page;
      s := InitState(HeadPage(free), alloc.free, PAGES);
      new;
      forall t: State | t.root == 0 ensures !Inv(alloc.mem.Words(), t, PAGES) {
        NullRoot(alloc.mem.Words(), t, PAGES);
      }
    }

    // The page that alloc_empty_page hands out is linked at entry i of page q.
    method LinkEmptyPage(pte: nat, ghost q: nat, ghost i: Index) returns (page: uint64, ghost cleared: seq<uint64>)
      requires alloc.Valid() && pte == q * 4096 + 8 * i && q < PAGES && q !in alloc.free
      modifies alloc, alloc.mem.bytes
      ensures alloc.Valid() && alloc.free == Rest(old(alloc.free))
      ensures page == HeadPage(old(alloc.free)) * 4096
      ensures Linked(old(alloc.mem.Words()), cleared, alloc.mem.Words(), HeadPage(old(alloc.free)), q, i)
    {
      hide WordsOf, MakePte, At, FreeList;
      ghost var free := alloc.free;
      HeadFacts(alloc.mem.Words(), PAGES, free);
      page := AllocEmptyPage(alloc);
      cleared := alloc.mem.Words();
      EntryFields(HeadPage(free), 1);
      WriteWord(cleared, q, i, MakePte(page, 1));
      FreeListKept(cleared, cleared[q * 512 + i := MakePte(page, 1)], PAGES, alloc.free, q);
      WriteEntry(pte, MakePte(page, 1), q, i);
    }

    // page_walk_alloc: the level-0 entry for va, building the missing tables. With too few
    // free pages it links page 0, and nothing is represented any more.
    method PageWalkAlloc(va: uint64) returns (pte: uint64)
      requires Valid()
      modifies this, alloc, alloc.mem.bytes
      ensures alloc.Valid() && root == old(root)
      ensures Enough(old(s), KeyOf(va)) ==>
        && Valid() && s == EnsureLeaf(old(s), BranchOf(KeyOf(va)))
        && BranchOf(KeyOf(va)) in s.leaves && pte == SlotAddress(s, KeyOf(va))
      ensures !Enough(old(s), KeyOf(va)) ==>
        && s == old(s) && alloc.free == [] && pte == 8 * KeyOf(va).v0
        && Exhausted(alloc.mem.Words(), old(s), KeyOf(va))
      ensures ContentsKept(old(alloc.mem.Words()), alloc.mem.Words(), old(s), 0)
      ensures Missing(old(s), BranchOf(KeyOf(va))) == 0 ==> alloc.mem.Words() == old(alloc.mem.Words())
    {
      hide WordsOf, FreeList, KeyOf, IsValid, GetPa, At, Wf, Represents, Linked, Exhausted;
      ghost var m := alloc.mem.Words();
      var k := KeyOf(va);
      ghost var b := BranchOf(k);
      RootLevel(m, s, PAGES, k.v2);
      MappedHasTables(s, PAGES, k);
      TablesNotFree(s, PAGES, b);
      var entry := root + 8 * k.v2;
      var w := ReadEntry(entry, s.root, k.v2);
      if !IsValid(w) {
        HeadFacts(m, PAGES, s.free);
        var page, m1 := LinkEmptyPage(entry, s.root, k.v2);
        ghost var mid := alloc.mem.Words();
        var page2, m2 := LinkEmptyPage(page + 8 * k.v1, HeadPage(s.free), k.v1);
        TwoLinked(m, m1, mid, m2, alloc.mem.Words(), s, k);
        if Enough(s, k) { s := EnsureLeaf(s, b); }
        return page2 + 8 * k.v0;
      }
      MidLevel(m, s, PAGES, b);
      entry := Step(w, k.v1);
      w := ReadEntry(entry, s.mids[k.v2], k.v1);
      if !IsValid(w) {
        var page, m1 := LinkEmptyPage(entry, s.mids[k.v2], k.v1);
        OneLinked(m, m1, alloc.mem.Words(), s, k);
        if Enough(s, k) { s := EnsureLeaf(s, b); }
        return page + 8 * k.v0;
      }
      pte := Step(w, k.v0);
    }

    // PageTable::add. When the key is absent and its entry is to be valid, the caller must
    // hold the page that it designates. With too few free pages for the missing tables the
    // entry is written to page 0, and no page table is represented any more.
    method Add(va: uint64, pa: uint64, perm: uint64) returns (r: int)
      requires Valid()
      requires KeyOf(va) !in s.dict && Enough(s, KeyOf(va)) && perm % 2 == 1 ==> Has(s, Stored(pa, perm).page, Held)
      modifies this, alloc, alloc.mem.bytes
      ensures alloc.Valid() && root == old(root)
      ensures Enough(old(s), KeyOf(va)) ==>
        && Valid()
        && r == (if KeyOf(va) in old(s.dict) then -1 else 0)
        && s == AddStep(old(s), KeyOf(va), Stored(pa, perm))
      ensures !Enough(old(s), KeyOf(va)) ==>
        && s == old(s) && alloc.free == []
        && r == (if s.free == [] && KeyOf(va).v2 !in s.mids && KeyOf(va).v0 == KeyOf(va).v1 then -1 else 0)
        && forall t: State :: root == t.root * 4096 ==> !Inv(alloc.mem.Words(), t, PAGES)
      ensures ContentsKept(old(alloc.mem.Words()), alloc.mem.Words(), old(s), 0)
      ensures Enough(old(s), KeyOf(va)) && r == -1 ==>
        alloc.mem.Words() == old(alloc.mem.Words()) && alloc.free == old(alloc.free)
      ensures r == 0 ==> At(alloc.mem.Words(), SlotPage(s, KeyOf(va)), KeyOf(va).v0) == MakePte(pa, perm)
    {
      hide WordsOf, FreeList, KeyOf, IsValid, GetPa, At, Wf, Represents, MakePte, Stored, SlotHolds, ContentPage;
      hide ValidFlags, Exhausted;
      ghost var k, s0, m0, x := KeyOf(va), s, alloc.mem.Words(), Stored(pa, perm);
      MappedHasTables(s, PAGES, k);
      StoredEntry(pa, perm);
      var pte := PageWalkAlloc(va);
      ghost var m := alloc.mem.Words();
      ghost var q := if Enough(s0, k) then s.leaves[BranchOf(k)] else 0;
      if Enough(s0, k) {
        LeafWord(m, s, PAGES, k);
        LeafLevel(m, s, PAGES, k);
        EnsureLeafKeeps(s0, PAGES, BranchOf(k));
      } else {
        NullWord(m, s0, k);
      }
      var w := ReadEntry(pte, q, k.v0);
      if IsValid(w) { return -1; }
      var e := MakePte(pa, perm);
      if !Enough(s0, k) {
        NullWrite(m0, m, s0, k, e);
      } else {
        SlotWriteKeepsContents(m0, m, s0, s, PAGES, k, e);
        if perm % 2 == 1 {
          MapPageInv(m, s, PAGES, k, x.page, x.flags, e);
        } else {
          InvalidSlotInv(m, s, PAGES, k, e);
        }
      }
      SlotWord(m0, m, s0, s, k, q, e);
      WriteEntry(pte, e, q, k.v0);
      if Enough(s0, k) { s := if perm % 2 == 1 then MapPage(s, k, x.page, x.flags) else s; }
      r := 0;
    }

    // PageTable::lookup
    method Lookup(va: uint64) returns (pa: uint64)
      requires Valid()
      ensures KeyOf(va) in s.dict ==> pa == s.dict[KeyOf(va)].page * 4096 != 0
      ensures KeyOf(va) !in s.dict ==> pa == 0
    {
      hide WordsOf, FreeList, KeyOf, IsValid, GetPa, At, Wf, Represents;
      ghost var k, m := KeyOf(va), alloc.mem.Words();
      MappedHasTables(s, PAGES, k);
      var pte := PageWalk(va);
      if k in s.dict {
        LeafWord(m, s, PAGES, k);
        LeafLevel(m, s, PAGES, k);
      }
      if pte == 0 { return 0; }
      var w := ReadEntry(pte, s.leaves[BranchOf(k)], k.v0);
      pa := GetPa(w);
    }

    // PageTable::erase: the mapped page goes back to the allocator.
    method Erase(va: uint64) returns (r: int)
      requires Valid()
      modifies this, alloc, alloc.mem.bytes
      ensures Valid()
      ensures r == if KeyOf(va) in old(s.dict) then 0 else -1
      ensures s == EraseStep(old(s), KeyOf(va))
      ensures ContentsKept(old(alloc.mem.Words()), alloc.mem.Words(), old(s), ErasedPage(old(s), KeyOf(va)))
      ensures r == -1 ==> alloc.mem.Words() == old(alloc.mem.Words()) && alloc.free == old(alloc.free)
      ensures r == 0 ==> At(alloc.mem.Words(), SlotPage(s, KeyOf(va)), KeyOf(va).v0) == 0
    {
      hide WordsOf, FreeList, KeyOf, IsValid, GetPa, At, Wf, Represents, MakePte;
      ghost var k, m := KeyOf(va), alloc.mem.Words();
      MappedHasTables(s, PAGES, k);
      var pte := PageWalk(va);
      if k in s.dict {
        LeafWord(m, s, PAGES, k);
        LeafLevel(m, s, PAGES, k);
      }
      if pte == 0 { return -1; }
      ghost var p, q := s.dict[k].page, s.leaves[BranchOf(k)];
      var w := ReadEntry(pte, q, k.v0);
      EraseInv(m, s, PAGES, k, Link(s.free, 0));
      alloc.FreePage(GetPa(w), p);
      EntryFields(0, 0);
      WriteWord(alloc.mem.Words(), q, k.v0, MakePte(0, 0));
      WriteEntry(pte, MakePte(0, 0), q, k.v0);
      s := EraseStep(s, k);
      r := 0;
    }

    // The rest of the kernel takes a page from the allocator for its own use.
    method TakePage() returns (page: uint64)
      requires Valid()
      modifies this, alloc
      ensures Valid()
      ensures page == if old(s.free) == [] then 0 else old(s.free[0]) * 4096
      ensures s == if old(s.free) == [] then old(s) else TakeFree(old(s))
      ensures alloc.mem.Words() == old(alloc.mem.Words())
    {
      hide WordsOf, Wf, Represents, FreeList;
      ghost var m := alloc.mem.Words();
      if s.free != [] { TakeFreeInv(m, s, PAGES); }
      page := alloc.AllocPage();
      if s.free != [] { s := TakeFree(s); }
      assert alloc.mem.Words() == m;
    }

    // The rest of the kernel gives back a page, number p, that it holds.
    method ReleasePage(page: uint64, ghost p: nat)
      requires Valid() && page == p * 4096 && Has(s, p, Held)
      modifies this, alloc, alloc.mem.bytes
      ensures Valid() && s == GiveFree(old(s), p)
      ensures ContentsKept(old(alloc.mem.Words()), alloc.mem.Words(), old(s), p)
    {
      hide WordsOf, Represents, FreeList;
      assert !Has(s, p, Free) && 0 < p < PAGES;
      hide Wf, At;
      GiveFreeInv(alloc.mem.Words(), s, PAGES, p, Link(s.free, 0));
      WriteWord(alloc.mem.Words(), p, 0, Link(s.free, 0));
      alloc.FreePage(page, p);
      s := GiveFree(s, p);
    }

    // The rest of the kernel, or a process through its mapping, stores a word in page p.
    method StoreWord(ghost p: nat, ghost i: Index, address: nat, w: uint64)
      requires Valid() && ContentPage(s, p) && address == p * 4096 + 8 * i
      modifies alloc.mem.bytes
      ensures Valid() && ContentsKept(old(alloc.mem.Words()), alloc.mem.Words(), s, p)
      ensures At(alloc.mem.Words(), p, i) == w
      ensures forall j: Index :: j != i ==> At(alloc.mem.Words(), p, j) == At(old(alloc.mem.Words()), p, j)
    {
      hide WordsOf, Represents, FreeList;
      assert p < PAGES;
      hide Wf, At, ContentPage;
      WriteWord(alloc.mem.Words(), p, i, w);
      ContentWrite(alloc.mem.Words(), alloc.mem.Words()[p * 512 + i := w], s, PAGES, p);
      WriteEntry(address, w, p, i);
    }

    // PageTable::make_satp
    method MakeSatpRegister() returns (satp: uint64)
      requires Valid()
      ensures satp == 0x8000_0000_0000_0000 + s.root
    {
      ghost var m := alloc.mem.Words();
      RootLevel(m, s, PAGES, 0);
      SatpFields(s.root);
      satp := MakeSatp(root);
    }
  }

  // The page that alloc_empty_page took and cleared is the caller's, and no page that was
  // held or mapped before has changed.
  lemma EmptyPageTaken(m: seq<uint64>, m': seq<uint64>, s: State, pages: nat)
    requires Inv(m, s, pages) && s.free != [] && OnlyPage(m, m', s.free[0])
    ensures Inv(m', TakeFree(s), pages)
    ensures Has(TakeFree(s), s.free[0], Held)
    ensures ContentsKept(m, m', s, 0)
  {
    assert Has(s, s.free[0], Free);
    TakeFreeInv(m, s, pages);
    ContentWrite(m, m', TakeFree(s), pages, s.free[0]);
  }

  // A write outside the pages with contents, or to the excepted page.
  lemma ContentsStay(m: seq<uint64>, m1: seq<uint64>, m2: seq<uint64>, s: State, x: nat, q: nat)
    requires ContentsKept(m, m1, s, x) && OnlyPage(m1, m2, q) && (q == x || !ContentPage(s, q))
    ensures ContentsKept(m, m2, s, x)
  {
    forall p: nat, i: Index | ContentPage(s, p) && p != x ensures At(m2, p, i) == At(m, p, i) {
      assert At(m1, p, i) == At(m, p, i);
    }
  }

  lemma NewMidInv(m: seq<uint64>, m1: seq<uint64>, s: State, pages: nat, i: Index, w: uint64)
    requires Inv(m, s, pages) && s.free != [] && i !in s.mids
    requires OnlyPage(m, m1, s.free[0]) && ZeroPage(m1, s.free[0]) && w == Entry(s.free[0], 1)
    ensures s.root < pages && s.root * 512 + i < |m1|
    ensures Inv(m1[s.root * 512 + i := w], LinkMid(TakeFree(s), i, s.free[0]), pages)
    ensures ContentsKept(m, m1[s.root * 512 + i := w], s, 0)
  {
    assert |m1| == |m|;
    hide Inv, At, OnlyPage, ContentsKept, ContentPage, ZeroPage, LinkMid, Entry;
    RootWord(m, s, pages, i);
    EmptyPageTaken(m, m1, s, pages);
    LinkMidInv(m1, TakeFree(s), pages, i, s.free[0], w);
    WriteOutsideContents(m, m1, s, s.root, i, w);
  }

  lemma MidOfTaken(s: State, b: Branch)
    requires s.free != [] && b.v2 in s.mids && b !in s.leaves
    ensures TakeFree(s).mids == s.mids && b !in TakeFree(s).leaves
  {
  }

  lemma NewLeafInv(m: seq<uint64>, m1: seq<uint64>, s: State, pages: nat, b: Branch, w: uint64)
    requires Inv(m, s, pages) && s.free != [] && b.v2 in s.mids && b !in s.leaves
    requires OnlyPage(m, m1, s.free[0]) && ZeroPage(m1, s.free[0]) && w == Entry(s.free[0], 1)
    ensures s.mids[b.v2] < pages && s.mids[b.v2] * 512 + b.v1 < |m1|
    ensures Inv(m1[s.mids[b.v2] * 512 + b.v1 := w], LinkLeaf(TakeFree(s), b, s.free[0]), pages)
    ensures ContentsKept(m, m1[s.mids[b.v2] * 512 + b.v1 := w], s, 0)
  {
    var q, i, t := s.mids[b.v2], b.v1, TakeFree(s);
    assert |m1| == |m|;
    MidOfTaken(s, b);
    hide Inv, At, OnlyPage, ContentsKept, ContentPage, ZeroPage, LinkLeaf, Entry, TakeFree, Has;
    MidWord(m, s, pages, b);
    EmptyPageTaken(m, m1, s, pages);
    LinkLeafInv(m1, t, pages, b, s.free[0], w);
    WriteOutsideContents(m, m1, s, q, i, w);
  }

  lemma WriteOutsideContents(m: seq<uint64>, m1: seq<uint64>, s: State, q: nat, i: Index, w: uint64)
    requires ContentsKept(m, m1, s, 0) && q * 512 + 512 <= |m1| && !ContentPage(s, q)
    ensures ContentsKept(m, m1[q * 512 + i := w], s, 0)
  {
    hide At, ContentsKept, ContentPage;
    WriteWord(m1, q, i, w);
    ContentsStay(m, m1, m1[q * 512 + i := w], s, 0, q);
  }

  lemma NewMidKeepsContents(s: State, pages: nat, i: Index)
    requires Wf(s, pages) && s.free != [] && i !in s.mids
    ensures forall q :: ContentPage(s, q) ==> ContentPage(LinkMid(TakeFree(s), i, s.free[0]), q)
    ensures forall b :: b in s.leaves ==> b.v2 != i
  {
    assert s.free[0] in s.free;
    assert Has(s, s.free[0], Free);
  }

  lemma FreePrefix(s: State, n: nat)
    requires FreeOwned(s) && n <= |s.free|
    ensures forall i :: 0 <= i < n ==> Has(s, s.free[i], Free)
    ensures n == 2 ==> s.free[0] != s.free[1]
  {
    forall i | 0 <= i < n ensures Has(s, s.free[i], Free) { assert s.free[i] in s.free; }
  }

  predicate IsTable(r: Role) {
    r.Root? || r.Mid? || r.Leaf?
  }

  // The free pages ps have become table pages; every other page keeps its role.
  ghost predicate BecomeTables(s: State, t: State, ps: seq<nat>) {
    && t.owner.Keys == s.owner.Keys
    && (forall p :: p in ps ==> Has(s, p, Free) && IsTable(t.owner[p]))
    && (forall p :: p in s.owner && p !in ps ==> t.owner[p] == s.owner[p])
  }

  lemma OneTable(s: State, b: Branch)
    requires FreeOwned(s) && b.v2 in s.mids && b !in s.leaves && |s.free| >= 1
    ensures BecomeTables(s, EnsureLeaf(s, b), s.free[..1])
  {
    FreePrefix(s, 1);
    hide FreeOwned;
    assert s.free[..1] == [s.free[0]];
  }

  lemma TwoTables(s: State, b: Branch)
    requires FreeOwned(s) && b.v2 !in s.mids && |s.free| >= 2
    ensures BecomeTables(s, EnsureLeaf(s, b), s.free[..2])
  {
    FreePrefix(s, 2);
    hide FreeOwned;
    assert s.free[..2] == [s.free[0], s.free[1]];
  }

  // Building tables takes pages from the front of the free list only.
  lemma EnsureLeafBecomes(s: State, pages: nat, b: Branch)
    requires Wf(s, pages) && |s.free| >= Missing(s, b)
    ensures BecomeTables(s, EnsureLeaf(s, b), s.free[..Missing(s, b)])
    ensures EnsureLeaf(s, b).dict == s.dict && EnsureLeaf(s, b).free == s.free[Missing(s, b)..]
  {
    if b.v2 !in s.mids {
      TwoTables(s, b);
    } else if b !in s.leaves {
      OneTable(s, b);
    }
    hide Wf, BecomeTables;
  }

  lemma BecomeTablesKeeps(s: State, t: State, ps: seq<nat>)
    requires BecomeTables(s, t, ps)
    ensures forall q :: ContentPage(s, q) ==> q in t.owner && t.owner[q] == s.owner[q]
    ensures forall q :: Has(s, q, Held) ==> Has(t, q, Held)
  {
  }

  lemma EnsureLeafKeeps(s: State, pages: nat, b: Branch)
    requires Wf(s, pages) && |s.free| >= Missing(s, b)
    ensures EnsureLeaf(s, b).dict == s.dict
    ensures forall q :: ContentPage(s, q) ==> q in EnsureLeaf(s, b).owner && EnsureLeaf(s, b).owner[q] == s.owner[q]
    ensures forall q :: Has(s, q, Held) ==> Has(EnsureLeaf(s, b), q, Held)
  {
    hide Wf, EnsureLeaf, BecomeTables;
    EnsureLeafBecomes(s, pages, b);
    BecomeTablesKeeps(s, EnsureLeaf(s, b), s.free[..Missing(s, b)]);
  }

  lemma SlotWriteKeepsContents(m0: seq<uint64>, m: seq<uint64>, s0: State, s: State, pages: nat, k: Key, w: uint64)
    requires ContentsKept(m0, m, s0, 0) && Inv(m, s, pages) && BranchOf(k) in s.leaves
    requires forall q :: ContentPage(s0, q) ==> q in s.owner && s.owner[q] == s0.owner[q]
    ensures s.leaves[BranchOf(k)] * 512 + k.v0 < |m|
    ensures ContentsKept(m0, m[s.leaves[BranchOf(k)] * 512 + k.v0 := w], s0, 0)
  {
    var q := s.leaves[BranchOf(k)];
    LeafIsTable(m, s, pages, BranchOf(k));
    assert !ContentPage(s0, q);
    hide Inv;
    WriteOutsideContents(m0, m, s0, q, k.v0, w);
  }

  lemma DataFacts(m: seq<uint64>, s: State, pages: nat, k: Key)
    requires Inv(m, s, pages) && k in s.dict
    ensures |m| == pages * 512
    ensures BranchOf(k) in s.leaves && 0 < s.leaves[BranchOf(k)] < pages && 0 < s.dict[k].page < pages
    ensures s.dict[k].page !in s.free && s.dict[k].page != s.leaves[BranchOf(k)]
    ensures !ContentPage(s, s.leaves[BranchOf(k)])
    ensures Has(UnmapPage(s, k), s.dict[k].page, Held)
  {
    var p, q := s.dict[k].page, s.leaves[BranchOf(k)];
    assert Has(s, p, Data(k)) && Has(s, q, Leaf(BranchOf(k)));
    assert !Has(s, p, Free);
  }

  // free_page of the mapped page and clearing of its entry touch different pages, so they
  // amount to unmapping the page and then giving it back.
  lemma EraseInv(m: seq<uint64>, s: State, pages: nat, k: Key, head: uint64)
    requires Inv(m, s, pages) && k in s.dict && head == Link(s.free, 0)
    ensures BranchOf(k) in s.leaves && s.dict[k].page !in s.free
    ensures 0 < s.dict[k].page < pages && s.leaves[BranchOf(k)] * 512 + k.v0 < |m|
    ensures var m' := m[s.dict[k].page * 512 := head][s.leaves[BranchOf(k)] * 512 + k.v0 := 0];
            Inv(m', EraseStep(s, k), pages) && ContentsKept(m, m', s, s.dict[k].page)
  {
    hide Inv, Wf, Represents, FreeList, At, ContentPage;
    DataFacts(m, s, pages, k);
    var p, q := s.dict[k].page, s.leaves[BranchOf(k)];
    UnmapPageInv(m, s, pages, k);
    var m1 := m[q * 512 + k.v0 := 0];
    GiveFreeInv(m1, UnmapPage(s, k), pages, p, head);
    SwapWrites(m, p * 512, head, q * 512 + k.v0, 0);
    WriteWord(m, q, k.v0, 0);
    WriteWord(m1, p, 0, head);
    ContentsStay(m, m, m1, s, p, q);
    ContentsStay(m, m1, m1[p * 512 := head], s, p, p);
  }

  lemma SwapWrites(m: seq<uint64>, i: nat, x: uint64, j: nat, y: uint64)
    requires i < |m| && j < |m| && i != j
    ensures m[i := x][j := y] == m[j := y][i := x]
  {
  }

  // --- Linking the pages that the allocator hands out, NULL included ---

  lemma TablesNotFree(s: State, pages: nat, b: Branch)
    requires Wf(s, pages)
    ensures 0 < s.root && s.root !in s.free
    ensures b.v2 in s.mids ==> s.mids[b.v2] !in s.free && s.mids[b.v2] != s.root
  {
    assert Has(s, s.root, Root);
    assert b.v2 in s.mids ==> Has(s, s.mids[b.v2], Mid(b.v2));
  }

  lemma LinkedFacts(m: seq<uint64>, c: seq<uint64>, m': seq<uint64>, h: nat, q: nat, i: Index)
    requires Linked(m, c, m', h, q, i)
    ensures OnlyPage(m, c, h) && ZeroPage(c, h) && |c| == |m| && Entry(h, 1) < TWO_TO_THE_64
    ensures q * 512 + i < |c| && m' == c[q * 512 + i := Entry(h, 1)]
  {
  }

  // A level-0 table at address 0: the link is in the level-1 table.
  lemma NullLeaf(m: seq<uint64>, c: seq<uint64>, m': seq<uint64>, s: State, pages: nat, b: Branch)
    requires Inv(m, s, pages) && b.v2 in s.mids && Linked(m, c, m', 0, s.mids[b.v2], b.v1)
    ensures LinksNull(m', pages, s.root, b) && NullPage(m', 512) && ContentsKept(m, m', s, 0)
  {
    var q := s.mids[b.v2];
    RootWord(m, s, pages, b.v2);
    MidWord(m, s, pages, b);
    TablesNotFree(s, pages, b);
    hide Inv, At, ContentsKept, ContentPage, LinksNull, NullPage, Linked, Entry, ZeroPage;
    LinkedFacts(m, c, m', 0, q, b.v1);
    assert At(c, s.root, b.v2) == Entry(q, 1);
    NullOnce(c, pages, s.root, q, b);
    NullContents(m, c, s, pages);
    WriteOutsideContents(m, c, s, q, b.v1, Entry(0, 1));
  }

  // Page 0 has no contents.
  lemma NullContents(m: seq<uint64>, c: seq<uint64>, s: State, pages: nat)
    requires Wf(s, pages) && OnlyPage(m, c, 0)
    ensures ContentsKept(m, c, s, 0) && !ContentPage(s, 0)
  {
  }

  // Both tables at address 0.
  lemma NullMid(m: seq<uint64>, c: seq<uint64>, m1: seq<uint64>, c1: seq<uint64>, m': seq<uint64>,
                s: State, pages: nat, b: Branch)
    requires Inv(m, s, pages) && Linked(m, c, m1, 0, s.root, b.v2) && Linked(m1, c1, m', 0, 0, b.v1)
    ensures LinksNull(m', pages, s.root, b) && NullPage(m', b.v1) && ContentsKept(m, m', s, 0)
  {
    RootWord(m, s, pages, b.v2);
    NullContents(m, c, s, pages);
    TablesNotFree(s, pages, b);
    hide Inv, Wf, At, ContentsKept, ContentPage, LinksNull, NullPage, Linked, ZeroPage;
    LinkedFacts(m, c, m1, 0, s.root, b.v2);
    LinkedFacts(m1, c1, m', 0, 0, b.v1);
    NullTwice(c, c1, pages, s.root, b);
    WriteOutsideContents(m, c, s, s.root, b.v2, Entry(0, 1));
    ContentsStay(m, m1, c1, s, 0, 0);
    WriteOutsideContents(m, c1, s, 0, b.v1, Entry(0, 1));
  }

  // A cleared page linked as a level-1 table.
  lemma LinkedMid(m: seq<uint64>, c: seq<uint64>, m': seq<uint64>, s: State, pages: nat, i: Index)
    requires Inv(m, s, pages) && s.free != [] && i !in s.mids && Linked(m, c, m', s.free[0], s.root, i)
    ensures Inv(m', LinkMid(TakeFree(s), i, s.free[0]), pages) && ContentsKept(m, m', s, 0)
  {
    hide Inv, LinkMid, ContentsKept, Linked;
    LinkedFacts(m, c, m', s.free[0], s.root, i);
    NewMidInv(m, c, s, pages, i, Entry(s.free[0], 1));
  }

  // A cleared page linked as a level-0 table.
  lemma LinkedLeaf(m: seq<uint64>, c: seq<uint64>, m': seq<uint64>, s: State, pages: nat, b: Branch)
    requires Inv(m, s, pages) && s.free != [] && b.v2 in s.mids && b !in s.leaves
    requires Linked(m, c, m', s.free[0], s.mids[b.v2], b.v1)
    ensures Inv(m', LinkLeaf(TakeFree(s), b, s.free[0]), pages) && ContentsKept(m, m', s, 0)
  {
    hide Inv, LinkLeaf, ContentsKept, Linked;
    LinkedFacts(m, c, m', s.free[0], s.mids[b.v2], b.v1);
    NewLeafInv(m, c, s, pages, b, Entry(s.free[0], 1));
  }

  // The two links of page_walk_alloc, with two, one or no free page.
  lemma TwoLinked(m: seq<uint64>, c: seq<uint64>, m1: seq<uint64>, c1: seq<uint64>, m': seq<uint64>,
                  s: State, k: Key)
    requires Inv(m, s, PAGES) && k.v2 !in s.mids && k !in s.dict && BranchOf(k) !in s.leaves
    requires Linked(m, c, m1, HeadPage(s.free), s.root, k.v2)
    requires Linked(m1, c1, m', HeadPage(Rest(s.free)), HeadPage(s.free), k.v1)
    ensures ContentsKept(m, m', s, 0)
    ensures Enough(s, k) ==> Inv(m', EnsureLeaf(s, BranchOf(k)), PAGES)
    ensures Enough(s, k) ==>
      && BranchOf(k) in EnsureLeaf(s, BranchOf(k)).leaves
      && SlotAddress(EnsureLeaf(s, BranchOf(k)), k) == HeadPage(Rest(s.free)) * 4096 + 8 * k.v0
      && EnsureLeaf(s, BranchOf(k)).free == Rest(Rest(s.free)) && EnsureLeaf(s, BranchOf(k)).root == s.root
    ensures !Enough(s, k) ==> Exhausted(m', s, k) && Rest(Rest(s.free)) == [] && HeadPage(Rest(s.free)) == 0
  {
    var b := BranchOf(k);
    hide Inv, Linked, ContentsKept, ContentPage, LinksNull, NullPage;
    if s.free == [] {
      NullMid(m, c, m1, c1, m', s, PAGES, b);
    } else {
      var s1 := LinkMid(TakeFree(s), k.v2, s.free[0]);
      LinkedMid(m, c, m1, s, PAGES, k.v2);
      NewMidStays(m, s, PAGES, k.v2);
      if |s.free| == 1 {
        NullLeaf(m1, c1, m', s1, PAGES, b);
      } else {
        LinkedLeaf(m1, c1, m', s1, PAGES, b);
      }
      ContentsTwice(m, m1, m', s, s1);
    }
  }

  lemma NewMidStays(m: seq<uint64>, s: State, pages: nat, i: Index)
    requires Inv(m, s, pages) && s.free != [] && i !in s.mids
    ensures forall q :: ContentPage(s, q) ==> ContentPage(LinkMid(TakeFree(s), i, s.free[0]), q)
  {
    NewMidKeepsContents(s, pages, i);
  }

  lemma ContentsTwice(m: seq<uint64>, m1: seq<uint64>, m': seq<uint64>, s: State, s1: State)
    requires ContentsKept(m, m1, s, 0) && ContentsKept(m1, m', s1, 0)
    requires forall q :: ContentPage(s, q) ==> ContentPage(s1, q)
    ensures ContentsKept(m, m', s, 0)
  {
    forall p: nat, i: Index | ContentPage(s, p) && p != 0 ensures At(m', p, i) == At(m, p, i) {
      assert At(m1, p, i) == At(m, p, i);
    }
  }

  // The one link of page_walk_alloc, with a free page or none.
  lemma OneLinked(m: seq<uint64>, c: seq<uint64>, m': seq<uint64>, s: State, k: Key)
    requires Inv(m, s, PAGES) && k.v2 in s.mids && k !in s.dict && BranchOf(k) !in s.leaves
    requires Linked(m, c, m', HeadPage(s.free), s.mids[k.v2], k.v1)
    ensures ContentsKept(m, m', s, 0)
    ensures Enough(s, k) ==> Inv(m', EnsureLeaf(s, BranchOf(k)), PAGES)
    ensures Enough(s, k) ==>
      && BranchOf(k) in EnsureLeaf(s, BranchOf(k)).leaves
      && SlotAddress(EnsureLeaf(s, BranchOf(k)), k) == HeadPage(s.free) * 4096 + 8 * k.v0
      && EnsureLeaf(s, BranchOf(k)).free == Rest(s.free) && EnsureLeaf(s, BranchOf(k)).root == s.root
    ensures !Enough(s, k) ==> Exhausted(m', s, k) && Rest(s.free) == [] && HeadPage(s.free) == 0
  {
    var b := BranchOf(k);
    hide Inv, Linked, ContentsKept, ContentPage, LinksNull, NullPage;
    if s.free == [] { NullLeaf(m, c, m', s, PAGES, b); } else { LinkedLeaf(m, c, m', s, PAGES, b); }
  }

  lemma NullEntry(m: seq<uint64>, s: State, k: Key)
    requires Exhausted(m, s, k)
    ensures IsValid(At(m, 0, k.v0)) <==> NullAnswer(s, k) == -1
  {
    ZeroIsInvalid();
    FlagsOf(1);
    assert At(m, 0, k.v0) == (if s.free == [] && k.v2 !in s.mids && k.v0 == k.v1 then 1 else 0);
    hide IsValid, LinksNull, NullPage, Exhausted;
  }

  // What add finds at address 0, and that nothing is represented.
  lemma NullWord(m: seq<uint64>, s: State, k: Key)
    requires Exhausted(m, s, k)
    ensures IsValid(At(m, 0, k.v0)) <==> NullAnswer(s, k) == -1
    ensures forall t: State :: s.root * 4096 == t.root * 4096 ==> !Inv(m, t, PAGES)
  {
    NullEntry(m, s, k);
    assert LinksNull(m, PAGES, s.root, BranchOf(k));
    hide *;
    forall t: State | s.root * 4096 == t.root * 4096 ensures !Inv(m, t, PAGES) {
      NothingRepresented(m, t, PAGES, BranchOf(k));
    }
  }

  // The entry that add writes, in the leaf table or in page 0.
  lemma SlotWord(m0: seq<uint64>, m: seq<uint64>, s0: State, s: State, k: Key, q: nat, e: uint64)
    requires Inv(m0, s0, PAGES) && |m| == |m0| && q < PAGES
    requires if Enough(s0, k) then BranchOf(k) in s.leaves && q == s.leaves[BranchOf(k)] else s == s0 && q == 0
    ensures q * 512 + k.v0 < |m| && At(m[q * 512 + k.v0 := e], q, k.v0) == e
    ensures SlotPage(s, k) == q
  {
    if BranchOf(k) in s0.leaves { assert BranchOf(k).v2 in s0.mids; }
    assert |m| == PAGES * 512;
    hide Inv;
    WriteWord(m, q, k.v0, e);
  }

  lemma NullWrite(m0: seq<uint64>, m: seq<uint64>, s: State, k: Key, e: uint64)
    requires Inv(m0, s, PAGES) && Exhausted(m, s, k) && ContentsKept(m0, m, s, 0)
    ensures k.v0 < |m| && FreeList(m[0 * 512 + k.v0 := e], PAGES, []) && ContentsKept(m0, m[0 * 512 + k.v0 := e], s, 0)
    ensures forall t: State :: s.root * 4096 == t.root * 4096 ==> !Inv(m[0 * 512 + k.v0 := e], t, PAGES)
  {
    assert |m| == |m0| == PAGES * 512;
    TablesNotFree(s, PAGES, BranchOf(k));
    NullContents(m, m, s, PAGES);
    hide Inv, LinksNull, NullPage, ContentsKept, ContentPage;
    WriteOutsideContents(m0, m, s, 0, k.v0, e);
    WriteWord(m, 0, k.v0, e);
    StillNull(m, m[0 * 512 + k.v0 := e], PAGES, s.root, BranchOf(k));
    forall t: State | s.root * 4096 == t.root * 4096 ensures !Inv(m[0 * 512 + k.v0 := e], t, PAGES) {
      NothingRepresented(m[0 * 512 + k.v0 := e], t, PAGES, BranchOf(k));
    }
  }
}
