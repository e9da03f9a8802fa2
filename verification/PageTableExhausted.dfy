// What an allocator that runs out of pages does to a page table: alloc_page answers NULL,
// nothing tests for it, and the page at address 0 is cleared and linked as a table.
module PageTableExhausted {
  import opened Bits
  import opened PageAllocation
  import opened PageTableState
  import opened PageTableMemory

  // The page that alloc_page hands out; an exhausted allocator hands out NULL, page 0.
  function HeadPage(free: seq<nat>): nat {
    if free == [] then 0 else free[0]
  }

  function Rest(free: seq<nat>): seq<nat> {
    if free == [] then [] else free[1..]
  }

  // The root, or a level-1 table that the root points to, points to page 0 on the way to b.
  ghost predicate LinksNull(m: seq<uint64>, pages: nat, root: nat, b: Branch) {
    || At(m, root, b.v2) == Entry(0, 1)
    || exists q: nat :: 0 < q < pages && At(m, root, b.v2) == Entry(q, 1) && At(m, q, b.v1) == Entry(0, 1)
  }

  // Page 0 is clear, but for a link to itself at entry i when i is an index.
  ghost predicate NullPage(m: seq<uint64>, i: nat) {
    forall j: Index :: At(m, 0, j) == if j == i then Entry(0, 1) else 0
  }

  // The tables on the way to b are never page 0.
  lemma TablesAreNotNull(m: seq<uint64>, t: State, pages: nat, b: Branch)
    requires Inv(m, t, pages)
    ensures At(m, t.root, b.v2) == RootEntry(t, b.v2)
    ensures b.v2 in t.mids ==> t.mids[b.v2] != 0 && At(m, t.mids[b.v2], b.v1) == MidEntry(t, b)
    ensures b in t.leaves ==> t.leaves[b] != 0
  {
    assert b.v2 in t.mids ==> Has(t, t.mids[b.v2], Mid(b.v2));
    assert b in t.leaves ==> Has(t, t.leaves[b], Leaf(b));
  }

  // A memory in which page 0 is linked represents no page table with that root at all.
  lemma NothingRepresented(m: seq<uint64>, t: State, pages: nat, b: Branch)
    requires LinksNull(m, pages, t.root, b)
    ensures !Inv(m, t, pages)
  {
    hide Inv, At;
    if Inv(m, t, pages) { TablesAreNotNull(m, t, pages, b); }
  }

  lemma HeadFacts(m: seq<uint64>, pages: nat, free: seq<nat>)
    requires FreeList(m, pages, free) && pages > 0
    ensures HeadPage(free) < pages && HeadPage(free) !in Rest(free)
    ensures HeadPage(free) == 0 <==> free == []
  {
  }

  // The two links of page_walk_alloc when no page is left: both tables are page 0.
  lemma NullTwice(m1: seq<uint64>, m2: seq<uint64>, pages: nat, root: nat, b: Branch)
    requires |m1| == pages * 512 && 0 < root < pages && ZeroPage(m1, 0)
    requires ZeroPage(m2, 0) && OnlyPage(m1[root * 512 + b.v2 := Entry(0, 1)], m2, 0)
    ensures b.v1 < |m2|
    ensures LinksNull(m2[b.v1 := Entry(0, 1)], pages, root, b) && NullPage(m2[b.v1 := Entry(0, 1)], b.v1)
  {
    WriteWord(m1, root, b.v2, Entry(0, 1));
    WriteWord(m2, 0, b.v1, Entry(0, 1));
    var m := m2[b.v1 := Entry(0, 1)];
    assert m2[0 * 512 + b.v1 := Entry(0, 1)] == m;
    hide At;
    forall j: Index ensures At(m, 0, j) == if j == b.v1 then Entry(0, 1) else 0 {
      assert At(m2, 0, j) == 0;
    }
  }

  // The link in a level-1 table q that is itself in order.
  lemma NullOnce(m1: seq<uint64>, pages: nat, root: nat, q: nat, b: Branch)
    requires |m1| == pages * 512 && 0 < root < pages && 0 < q < pages && q != root
    requires ZeroPage(m1, 0) && At(m1, root, b.v2) == Entry(q, 1)
    ensures q * 512 + b.v1 < |m1|
    ensures LinksNull(m1[q * 512 + b.v1 := Entry(0, 1)], pages, root, b)
    ensures NullPage(m1[q * 512 + b.v1 := Entry(0, 1)], 512)
  {
    WriteWord(m1, q, b.v1, Entry(0, 1));
    hide At;
  }

  // Whatever is then written to page 0, nothing is represented again.
  lemma StillNull(m: seq<uint64>, m': seq<uint64>, pages: nat, root: nat, b: Branch)
    requires LinksNull(m, pages, root, b) && 0 < root && OnlyPage(m, m', 0)
    ensures LinksNull(m', pages, root, b)
  {
    hide At;
  }

  lemma NullRoot(m: seq<uint64>, t: State, pages: nat)
    requires t.root == 0
    ensures !Inv(m, t, pages)
  {
    assert Has(t, 0, Root) ==> 0 in t.owner;
  }

  // The page h is cleared, which gives `cleared`, and then linked at entry i of page q.
  ghost predicate Linked(m: seq<uint64>, cleared: seq<uint64>, m': seq<uint64>, h: nat, q: nat, i: Index) {
    && OnlyPage(m, cleared, h) && ZeroPage(cleared, h)
    && Entry(h, 1) < TWO_TO_THE_64
    && q * 512 + i < |cleared| && m' == cleared[q * 512 + i := Entry(h, 1)]
  }
}
