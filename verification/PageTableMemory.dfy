// What single word writes do to a memory that represents a page table: each elementary
// step of PageTableState is realised by one write (or none), and keeps the invariant.
module PageTableMemory {
  import opened Bits
  import opened PageAllocation
  import opened PageTableState

  // m' differs from m at most in the words of page p.
  ghost predicate OnlyPage(m: seq<uint64>, m': seq<uint64>, p: nat) {
    |m'| == |m| && forall q: nat, i: Index :: q != p ==> At(m', q, i) == At(m, q, i)
  }

  ghost predicate ZeroPage(m: seq<uint64>, p: nat) {
    forall i: Index :: At(m, p, i) == 0
  }

  lemma WriteWord(m: seq<uint64>, p: nat, i: Index, w: uint64)
    requires p * 512 + 512 <= |m|
    ensures OnlyPage(m, m[p * 512 + i := w], p)
    ensures At(m[p * 512 + i := w], p, i) == w
    ensures forall j: Index :: j != i ==> At(m[p * 512 + i := w], p, j) == At(m, p, j)
  {
  }

  lemma RootTableFrame(m: seq<uint64>, m': seq<uint64>, s: State, t: State, p: nat)
    requires RootTable(m, s) && OnlyPage(m, m', p) && p != s.root
    requires t.root == s.root && t.mids == s.mids
    ensures RootTable(m', t)
  {
    forall i: Index ensures At(m', t.root, i) == RootEntry(t, i) {
      assert At(m, s.root, i) == RootEntry(s, i);
    }
  }

  lemma MidTablesFrame(m: seq<uint64>, m': seq<uint64>, s: State, t: State, p: nat)
    requires MidTables(m, s) && OnlyPage(m, m', p) && MidsOwned(s)
    requires p in s.owner && !s.owner[p].Mid?
    requires t.mids == s.mids && t.leaves == s.leaves
    ensures MidTables(m', t)
  {
    forall b: Branch | b.v2 in t.mids ensures At(m', t.mids[b.v2], b.v1) == MidEntry(t, b) {
      assert Has(s, s.mids[b.v2], Mid(b.v2));
      assert At(m, s.mids[b.v2], b.v1) == MidEntry(s, b);
    }
  }

  lemma LeafTablesFrame(m: seq<uint64>, m': seq<uint64>, s: State, t: State, p: nat)
    requires LeafTables(m, s) && OnlyPage(m, m', p) && LeavesOwned(s)
    requires p in s.owner && !s.owner[p].Leaf?
    requires t.leaves == s.leaves && t.dict == s.dict
    ensures LeafTables(m', t)
  {
    forall k: Key | BranchOf(k) in t.leaves ensures SlotHolds(t, k, At(m', t.leaves[BranchOf(k)], k.v0)) {
      assert Has(s, s.leaves[BranchOf(k)], Leaf(BranchOf(k)));
      assert SlotHolds(s, k, At(m, s.leaves[BranchOf(k)], k.v0));
    }
  }

  lemma FreeListKept(m: seq<uint64>, m': seq<uint64>, pages: nat, free: seq<nat>, p: nat)
    requires FreeList(m, pages, free) && OnlyPage(m, m', p) && p !in free
    ensures FreeList(m', pages, free)
  {
    forall i | 0 <= i < |free| ensures Word(m', free[i], 0) == Link(free, i + 1) {
      assert Word(m, free[i], 0) == Link(free, i + 1);
      assert At(m', free[i], 0) == At(m, free[i], 0);
    }
  }

  lemma FreeListFrame(m: seq<uint64>, m': seq<uint64>, s: State, pages: nat, p: nat)
    requires FreeList(m, pages, s.free) && FreeOwned(s) && OnlyPage(m, m', p)
    requires p in s.owner && !s.owner[p].Free?
    ensures FreeList(m', pages, s.free)
  {
    assert p !in s.free by {
      assert !Has(s, p, Free);
    }
    FreeListKept(m, m', pages, s.free, p);
  }

  // Whatever is written to a page the caller holds or to a mapped page, the representation
  // is unaffected.
  lemma ContentWrite(m: seq<uint64>, m': seq<uint64>, s: State, pages: nat, p: nat)
    requires Inv(m, s, pages) && ContentPage(s, p) && OnlyPage(m, m', p)
    ensures Inv(m', s, pages)
  {
    assert p != s.root by { assert Has(s, s.root, Root); }
    FreeListFrame(m, m', s, pages, p);
    RootTableFrame(m, m', s, s, p);
    MidTablesFrame(m, m', s, s, p);
    LeafTablesFrame(m, m', s, s, p);
  }

  // alloc_page: the head of the free list becomes a held page; memory is unchanged.
  lemma TakeFreeInv(m: seq<uint64>, s: State, pages: nat)
    requires Inv(m, s, pages) && s.free != []
    ensures Inv(m, TakeFree(s), pages)
    ensures Has(TakeFree(s), s.free[0], Held)
  {
    var t := TakeFree(s);
    TakeFreeWf(s, pages);
    PopFreeList(m, pages, s.free);
    assert RootTable(m, t) by {
      forall i: Index ensures At(m, t.root, i) == RootEntry(t, i) { assert At(m, s.root, i) == RootEntry(s, i); }
    }
    assert MidTables(m, t) by {
      forall b: Branch | b.v2 in t.mids ensures At(m, t.mids[b.v2], b.v1) == MidEntry(t, b) {
        assert At(m, s.mids[b.v2], b.v1) == MidEntry(s, b);
      }
    }
    assert LeafTables(m, t) by {
      forall k: Key | BranchOf(k) in t.leaves ensures SlotHolds(t, k, At(m, t.leaves[BranchOf(k)], k.v0)) {
        assert SlotHolds(s, k, At(m, s.leaves[BranchOf(k)], k.v0));
      }
    }
  }

  // free_page on a held page.
  lemma GiveFreeInv(m: seq<uint64>, s: State, pages: nat, p: nat, head: uint64)
    requires Inv(m, s, pages) && Has(s, p, Held) && head == Link(s.free, 0)
    ensures p * 512 < |m| && Inv(m[p * 512 := head], GiveFree(s, p), pages)
  {
    var t := GiveFree(s, p);
    GiveFreeWf(s, pages, p);
    assert p !in s.free;
    PushFreeList(m, pages, s.free, p, head);
    WriteWord(m, p, 0, head);
    var m' := m[p * 512 := head];
    RootTableFrame(m, m', s, t, p);
    MidTablesFrame(m, m', s, t, p);
    LeafTablesFrame(m, m', s, t, p);
  }

  // A root entry that points to a zeroed held page makes that page an empty level-1 table.
  lemma LinkMidInv(m: seq<uint64>, s: State, pages: nat, i: Index, p: nat, w: uint64)
    requires Inv(m, s, pages) && Has(s, p, Held) && ZeroPage(m, p) && i !in s.mids && w == Entry(p, 1)
    ensures s.root * 512 + i < |m| && Inv(m[s.root * 512 + i := w], LinkMid(s, i, p), pages)
  {
    var t := LinkMid(s, i, p);
    LinkMidWf(s, pages, i, p);
    WriteWord(m, s.root, i, w);
    var m' := m[s.root * 512 + i := w];
    FreeListFrame(m, m', s, pages, s.root);
    LinkMidRoot(m, m', s, i, p);
    LinkMidMids(m, m', s, i, p);
    LeafTablesFrame(m, m', s, t, s.root);
  }

  lemma LinkMidRoot(m: seq<uint64>, m': seq<uint64>, s: State, i: Index, p: nat)
    requires RootTable(m, s) && At(m', s.root, i) == Entry(p, 1)
    requires forall j: Index :: j != i ==> At(m', s.root, j) == At(m, s.root, j)
    ensures RootTable(m', LinkMid(s, i, p))
  {
    var t := LinkMid(s, i, p);
    forall j: Index ensures At(m', t.root, j) == RootEntry(t, j) {
      assert At(m, s.root, j) == RootEntry(s, j);
    }
  }

  lemma LinkMidMids(m: seq<uint64>, m': seq<uint64>, s: State, i: Index, p: nat)
    requires MidTables(m, s) && OnlyPage(m, m', s.root) && RootOwned(s) && MidsOwned(s) && LeavesOwned(s)
    requires Has(s, p, Held) && ZeroPage(m, p) && i !in s.mids
    ensures MidTables(m', LinkMid(s, i, p))
  {
    var t := LinkMid(s, i, p);
    forall b: Branch | b.v2 in t.mids ensures At(m', t.mids[b.v2], b.v1) == MidEntry(t, b) {
      if b.v2 == i {
        assert b !in s.leaves;
        assert At(m, p, b.v1) == 0;
      } else {
        assert Has(s, s.mids[b.v2], Mid(b.v2));
        assert At(m, s.mids[b.v2], b.v1) == MidEntry(s, b);
      }
    }
  }

  // A level-1 entry that points to a zeroed held page makes that page an empty level-0 table.
  lemma LinkLeafInv(m: seq<uint64>, s: State, pages: nat, b: Branch, p: nat, w: uint64)
    requires Inv(m, s, pages) && Has(s, p, Held) && ZeroPage(m, p) && b.v2 in s.mids && b !in s.leaves
    requires w == Entry(p, 1)
    ensures s.mids[b.v2] * 512 + b.v1 < |m| && Inv(m[s.mids[b.v2] * 512 + b.v1 := w], LinkLeaf(s, b, p), pages)
  {
    var t, q := LinkLeaf(s, b, p), s.mids[b.v2];
    LinkLeafWf(s, pages, b, p);
    assert Has(s, q, Mid(b.v2));
    WriteWord(m, q, b.v1, w);
    var m' := m[q * 512 + b.v1 := w];
    FreeListFrame(m, m', s, pages, q);
    RootTableFrame(m, m', s, t, q);
    LinkLeafMids(m, m', s, b, p);
    LinkLeafLeaves(m, m', s, b, p);
  }

  lemma LinkLeafMids(m: seq<uint64>, m': seq<uint64>, s: State, b: Branch, p: nat)
    requires MidTables(m, s) && MidsOwned(s) && b.v2 in s.mids && OnlyPage(m, m', s.mids[b.v2])
    requires At(m', s.mids[b.v2], b.v1) == Entry(p, 1)
    requires forall j: Index :: j != b.v1 ==> At(m', s.mids[b.v2], j) == At(m, s.mids[b.v2], j)
    ensures MidTables(m', LinkLeaf(s, b, p))
  {
    var t := LinkLeaf(s, b, p);
    forall c: Branch | c.v2 in t.mids ensures At(m', t.mids[c.v2], c.v1) == MidEntry(t, c) {
      assert Has(s, s.mids[c.v2], Mid(c.v2)) && Has(s, s.mids[b.v2], Mid(b.v2));
      assert At(m, s.mids[c.v2], c.v1) == MidEntry(s, c);
    }
  }

  lemma LinkLeafLeaves(m: seq<uint64>, m': seq<uint64>, s: State, b: Branch, p: nat)
    requires LeafTables(m, s) && MidsOwned(s) && LeavesOwned(s) && DictOwned(s)
    requires b.v2 in s.mids && OnlyPage(m, m', s.mids[b.v2])
    requires Has(s, p, Held) && ZeroPage(m, p) && b !in s.leaves
    ensures LeafTables(m', LinkLeaf(s, b, p))
  {
    var t := LinkLeaf(s, b, p);
    assert Has(s, s.mids[b.v2], Mid(b.v2));
    forall k: Key | BranchOf(k) in t.leaves ensures SlotHolds(t, k, At(m', t.leaves[BranchOf(k)], k.v0)) {
      if BranchOf(k) == b {
        assert k !in s.dict;
        assert At(m, p, k.v0) == 0;
      } else {
        assert Has(s, s.leaves[BranchOf(k)], Leaf(BranchOf(k)));
        assert SlotHolds(s, k, At(m, s.leaves[BranchOf(k)], k.v0));
      }
    }
  }

  // t is s with another mapping, or none, for k.
  ghost predicate SameButSlot(s: State, t: State, k: Key) {
    && t.root == s.root && t.free == s.free && t.mids == s.mids && t.leaves == s.leaves
    && t.dict - {k} == s.dict - {k}
  }

  lemma OtherSlot(s: State, t: State, k: Key, l: Key, w: nat)
    requires SameButSlot(s, t, k) && l != k
    ensures SlotHolds(t, l, w) <==> SlotHolds(s, l, w)
  {
    assert l in t.dict <==> l in t.dict - {k};
    assert l in s.dict <==> l in s.dict - {k};
    if l in t.dict { assert t.dict[l] == (t.dict - {k})[l] == s.dict[l]; }
  }

  lemma SlotLeaves(m: seq<uint64>, m': seq<uint64>, s: State, t: State, k: Key)
    requires LeafTables(m, s) && LeavesOwned(s) && BranchOf(k) in s.leaves && SameButSlot(s, t, k)
    requires OnlyPage(m, m', s.leaves[BranchOf(k)])
    requires SlotHolds(t, k, At(m', s.leaves[BranchOf(k)], k.v0))
    requires forall j: Index :: j != k.v0 ==> At(m', s.leaves[BranchOf(k)], j) == At(m, s.leaves[BranchOf(k)], j)
    ensures LeafTables(m', t)
  {
    forall l: Key | BranchOf(l) in t.leaves ensures SlotHolds(t, l, At(m', t.leaves[BranchOf(l)], l.v0)) {
      if l != k {
        assert Has(s, s.leaves[BranchOf(l)], Leaf(BranchOf(l))) && Has(s, s.leaves[BranchOf(k)], Leaf(BranchOf(k)));
        var w := At(m, s.leaves[BranchOf(l)], l.v0);
        assert SlotHolds(s, l, w);
        assert At(m', s.leaves[BranchOf(l)], l.v0) == w;
        OtherSlot(s, t, k, l, w);
      }
    }
  }

  lemma SlotRepresents(m: seq<uint64>, m': seq<uint64>, s: State, t: State, k: Key)
    requires Represents(m, s) && RootOwned(s) && MidsOwned(s) && LeavesOwned(s)
    requires BranchOf(k) in s.leaves && SameButSlot(s, t, k) && OnlyPage(m, m', s.leaves[BranchOf(k)])
    requires SlotHolds(t, k, At(m', s.leaves[BranchOf(k)], k.v0))
    requires forall j: Index :: j != k.v0 ==> At(m', s.leaves[BranchOf(k)], j) == At(m, s.leaves[BranchOf(k)], j)
    ensures Represents(m', t)
  {
    var q := s.leaves[BranchOf(k)];
    assert Has(s, q, Leaf(BranchOf(k))) && Has(s, s.root, Root);
    hide RootOwned, MidsOwned, LeavesOwned, RootTable, MidTables, LeafTables, OnlyPage, At, SlotHolds;
    RootTableFrame(m, m', s, t, q);
    MidTablesFrame(m, m', s, t, q);
    SlotLeaves(m, m', s, t, k);
  }

  lemma LeafIsTable(m: seq<uint64>, s: State, pages: nat, b: Branch)
    requires Inv(m, s, pages) && b in s.leaves
    ensures Has(s, s.leaves[b], Leaf(b)) && s.leaves[b] < pages && |m| == pages * 512
  {
  }

  // Writing a level-0 entry.
  lemma WriteSlotInv(m: seq<uint64>, s: State, t: State, pages: nat, k: Key, w: uint64)
    requires Inv(m, s, pages) && Wf(t, pages) && BranchOf(k) in s.leaves
    requires SameButSlot(s, t, k) && SlotHolds(t, k, w)
    ensures s.leaves[BranchOf(k)] * 512 + k.v0 < |m|
    ensures Inv(m[s.leaves[BranchOf(k)] * 512 + k.v0 := w], t, pages)
  {
    var q := s.leaves[BranchOf(k)];
    LeafIsTable(m, s, pages, BranchOf(k));
    hide Represents, FreeList, FreeOwned, RootOwned, MidsOwned, LeavesOwned, DictOwned, OwnsAll;
    hide SlotHolds, At, OnlyPage;
    WriteWord(m, q, k.v0, w);
    var m' := m[q * 512 + k.v0 := w];
    FreeListFrame(m, m', s, pages, q);
    SlotRepresents(m, m', s, t, k);
  }

  lemma MapPageInv(m: seq<uint64>, s: State, pages: nat, k: Key, p: nat, flags: nat, w: uint64)
    requires Inv(m, s, pages) && Has(s, p, Held) && k !in s.dict && BranchOf(k) in s.leaves && ValidFlags(flags)
    requires w == Entry(p, flags)
    ensures s.leaves[BranchOf(k)] * 512 + k.v0 < |m|
    ensures Inv(m[s.leaves[BranchOf(k)] * 512 + k.v0 := w], MapPage(s, k, p, flags), pages)
  {
    hide Wf, Represents, FreeList, ValidFlags, Entry;
    MapPageWf(s, pages, k, p, flags);
    assert SameButSlot(s, MapPage(s, k, p, flags), k);
    hide Inv;
    WriteSlotInv(m, s, MapPage(s, k, p, flags), pages, k, w);
  }

  // An entry without V leaves the key absent.
  lemma InvalidSlotInv(m: seq<uint64>, s: State, pages: nat, k: Key, w: uint64)
    requires Inv(m, s, pages) && k !in s.dict && BranchOf(k) in s.leaves && w % 2 == 0
    ensures s.leaves[BranchOf(k)] * 512 + k.v0 < |m|
    ensures Inv(m[s.leaves[BranchOf(k)] * 512 + k.v0 := w], s, pages)
  {
    hide Wf, Represents, FreeList;
    assert Wf(s, pages) && SameButSlot(s, s, k) && SlotHolds(s, k, w);
    hide Inv;
    WriteSlotInv(m, s, s, pages, k, w);
  }

  lemma UnmapPageInv(m: seq<uint64>, s: State, pages: nat, k: Key)
    requires Inv(m, s, pages) && k in s.dict
    ensures BranchOf(k) in s.leaves && s.leaves[BranchOf(k)] * 512 + k.v0 < |m|
    ensures Inv(m[s.leaves[BranchOf(k)] * 512 + k.v0 := 0], UnmapPage(s, k), pages)
  {
    assert BranchOf(k) in s.leaves;
    hide Wf, Represents, FreeList;
    UnmapPageWf(s, pages, k);
    assert SameButSlot(s, UnmapPage(s, k), k);
    hide Inv;
    WriteSlotInv(m, s, UnmapPage(s, k), pages, k, 0);
  }
}
