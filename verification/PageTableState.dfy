// The abstract state of one Sv39 page table together with the page allocator, and the
// invariant that ties it to the word memory. Every page of physical memory has exactly
// one role, so "no page is shared" is the statement that the role map has an inverse.
module PageTableState {
  import opened Bits
  import opened PageAllocation
  import opened Sequences

  type Index = i: nat | i < 512

  // A virtual page number, split into the three table indices.
  datatype Key = Key(v2: Index, v1: Index, v0: Index)

  // The two upper indices, which select a level-0 table.
  datatype Branch = Branch(v2: Index, v1: Index)

  function BranchOf(k: Key): Branch {
    Branch(k.v2, k.v1)
  }

  datatype Mapping = Mapping(page: nat, flags: nat)

  datatype Role =
    | Free
    | Held                          // owned by the caller: neither free nor part of the table
    | Root
    | Mid(v2: Index)                // level-1 table
    | Leaf(branch: Branch)          // level-0 table
    | Data(key: Key)                // mapped page

  datatype State = State(
    root: nat,
    free: seq<nat>,
    mids: map<Index, nat>,
    leaves: map<Branch, nat>,
    dict: map<Key, Mapping>,
    owner: map<nat, Role>)

  // --- The role map and the structure are inverse to each other ---

  ghost predicate OwnsAll(s: State, pages: nat) {
    forall p :: p in s.owner <==> 0 < p < pages
  }

  ghost predicate Has(s: State, p: nat, r: Role) {
    p in s.owner && s.owner[p] == r
  }

  // A page whose contents belong to the caller or to whoever uses the mapping.
  ghost predicate ContentPage(s: State, p: nat) {
    p in s.owner && (s.owner[p].Held? || s.owner[p].Data?)
  }

  ghost predicate FreeOwned(s: State) {
    && Distinct(s.free)
    && (forall p :: p in s.free ==> Has(s, p, Free))
    && (forall p :: Has(s, p, Free) ==> p in s.free)
  }

  ghost predicate RootOwned(s: State) {
    && Has(s, s.root, Root)
    && (forall p :: Has(s, p, Root) ==> p == s.root)
  }

  ghost predicate MidsOwned(s: State) {
    && (forall i :: i in s.mids ==> Has(s, s.mids[i], Mid(i)))
    && (forall p, i :: Has(s, p, Mid(i)) ==> i in s.mids && s.mids[i] == p)
  }

  ghost predicate LeavesOwned(s: State) {
    && (forall b :: b in s.leaves ==> b.v2 in s.mids && Has(s, s.leaves[b], Leaf(b)))
    && (forall p, b :: Has(s, p, Leaf(b)) ==> b in s.leaves && s.leaves[b] == p)
  }

  ghost predicate DictOwned(s: State) {
    && (forall k :: k in s.dict ==> BranchOf(k) in s.leaves && Has(s, s.dict[k].page, Data(k)))
    && (forall k :: k in s.dict ==> ValidFlags(s.dict[k].flags))
    && (forall p, k :: Has(s, p, Data(k)) ==> k in s.dict && s.dict[k].page == p)
  }

  // Flags that permission_code can produce: the V bit and nothing outside the ten flag bits.
  predicate ValidFlags(flags: nat) {
    flags < 1024 && flags % 2 == 1
  }

  // Well-formedness of the abstract state alone.
  ghost predicate Wf(s: State, pages: nat) {
    && OwnsAll(s, pages)
    && FreeOwned(s) && RootOwned(s) && MidsOwned(s) && LeavesOwned(s) && DictOwned(s)
  }

  // --- What the table pages hold ---

  // A page table entry: the page number above ten flag bits.
  function Entry(page: nat, flags: nat): nat {
    page * 1024 + flags
  }

  function RootEntry(s: State, i: Index): nat {
    if i in s.mids then Entry(s.mids[i], 1) else 0
  }

  function MidEntry(s: State, b: Branch): nat {
    if b in s.leaves then Entry(s.leaves[b], 1) else 0
  }

  // The level-0 entry of a mapped key holds its mapping; that of any other key is not valid.
  predicate SlotHolds(s: State, k: Key, w: nat) {
    if k in s.dict then w == Entry(s.dict[k].page, s.dict[k].flags) else w % 2 == 0
  }

  // Word i of page p, zero outside the memory.
  function At(m: seq<uint64>, p: nat, i: Index): uint64 {
    if p * 512 + i < |m| then m[p * 512 + i] else 0
  }

  ghost predicate RootTable(m: seq<uint64>, s: State) {
    forall i: Index :: At(m, s.root, i) == RootEntry(s, i)
  }

  ghost predicate MidTables(m: seq<uint64>, s: State) {
    forall b: Branch :: b.v2 in s.mids ==> At(m, s.mids[b.v2], b.v1) == MidEntry(s, b)
  }

  ghost predicate LeafTables(m: seq<uint64>, s: State) {
    forall k: Key :: BranchOf(k) in s.leaves ==> SlotHolds(s, k, At(m, s.leaves[BranchOf(k)], k.v0))
  }

  // The memory holds exactly this state.
  ghost predicate Represents(m: seq<uint64>, s: State) {
    RootTable(m, s) && MidTables(m, s) && LeafTables(m, s)
  }

  ghost predicate Inv(m: seq<uint64>, s: State, pages: nat) {
    && |m| == pages * 512
    && Wf(s, pages)
    && FreeList(m, pages, s.free)
    && Represents(m, s)
  }

  // --- Elementary steps ---

  function TakeFree(s: State): State
    requires s.free != []
  {
    s.(free := s.free[1..], owner := s.owner[s.free[0] := Held])
  }

  function GiveFree(s: State, p: nat): State {
    s.(free := [p] + s.free, owner := s.owner[p := Free])
  }

  function LinkMid(s: State, i: Index, p: nat): State {
    s.(mids := s.mids[i := p], owner := s.owner[p := Mid(i)])
  }

  function LinkLeaf(s: State, b: Branch, p: nat): State {
    s.(leaves := s.leaves[b := p], owner := s.owner[p := Leaf(b)])
  }

  function MapPage(s: State, k: Key, p: nat, flags: nat): State {
    s.(dict := s.dict[k := Mapping(p, flags)], owner := s.owner[p := Data(k)])
  }

  function UnmapPage(s: State, k: Key): State
    requires k in s.dict
  {
    s.(dict := s.dict - {k}, owner := s.owner[s.dict[k].page := Held])
  }

  // --- Each step keeps the state well formed ---

  // From s to t, page p takes the role r and every other page keeps its role.
  ghost predicate Reassigned(s: State, t: State, p: nat, r: Role) {
    p in s.owner && t.owner == s.owner[p := r] && t.root == s.root
  }

  lemma FreeFrame(s: State, t: State, p: nat, r: Role)
    requires FreeOwned(s) && Reassigned(s, t, p, r) && t.free == s.free
    requires !s.owner[p].Free? && !r.Free?
    ensures FreeOwned(t)
  {
    forall q | Has(t, q, Free) ensures q in t.free { assert Has(s, q, Free); }
  }

  lemma RootFrame(s: State, t: State, p: nat, r: Role)
    requires RootOwned(s) && Reassigned(s, t, p, r)
    requires !s.owner[p].Root? && !r.Root?
    ensures RootOwned(t)
  {
    forall q | Has(t, q, Root) ensures q == t.root { assert Has(s, q, Root); }
  }

  lemma MidsFrame(s: State, t: State, p: nat, r: Role)
    requires MidsOwned(s) && Reassigned(s, t, p, r) && t.mids == s.mids
    requires !s.owner[p].Mid? && !r.Mid?
    ensures MidsOwned(t)
  {
    forall q, i | Has(t, q, Mid(i)) ensures i in t.mids && t.mids[i] == q { assert Has(s, q, Mid(i)); }
  }

  lemma LeavesFrame(s: State, t: State, p: nat, r: Role)
    requires LeavesOwned(s) && Reassigned(s, t, p, r) && t.leaves == s.leaves
    requires s.mids.Keys <= t.mids.Keys
    requires !s.owner[p].Leaf? && !r.Leaf?
    ensures LeavesOwned(t)
  {
    forall q, b | Has(t, q, Leaf(b)) ensures b in t.leaves && t.leaves[b] == q { assert Has(s, q, Leaf(b)); }
  }

  lemma DictFrame(s: State, t: State, p: nat, r: Role)
    requires DictOwned(s) && Reassigned(s, t, p, r) && t.dict == s.dict
    requires s.leaves.Keys <= t.leaves.Keys
    requires !s.owner[p].Data? && !r.Data?
    ensures DictOwned(t)
  {
    forall q, k | Has(t, q, Data(k)) ensures k in t.dict && t.dict[k].page == q { assert Has(s, q, Data(k)); }
  }

  lemma OwnsAllFrame(s: State, t: State, p: nat, r: Role, pages: nat)
    requires OwnsAll(s, pages) && Reassigned(s, t, p, r)
    ensures OwnsAll(t, pages)
  {
  }

  lemma TakeFreeOwned(s: State)
    requires FreeOwned(s) && s.free != []
    ensures FreeOwned(TakeFree(s))
  {
    var t := TakeFree(s);
    forall p | p in t.free ensures Has(t, p, Free) {
      assert p in s.free;
      assert Has(s, p, Free);
    }
    forall p | Has(t, p, Free) ensures p in t.free { assert Has(s, p, Free); }
  }

  lemma TakeFreeWf(s: State, pages: nat)
    requires Wf(s, pages) && s.free != []
    ensures Wf(TakeFree(s), pages)
    ensures Has(TakeFree(s), s.free[0], Held)
  {
    var t, p := TakeFree(s), s.free[0];
    assert Has(s, p, Free);
    TakeFreeOwned(s);
    hide FreeOwned, RootOwned, MidsOwned, LeavesOwned, DictOwned, OwnsAll;
    OwnsAllFrame(s, t, p, Held, pages);
    RootFrame(s, t, p, Held);
    MidsFrame(s, t, p, Held);
    LeavesFrame(s, t, p, Held);
    DictFrame(s, t, p, Held);
  }

  lemma GiveFreeOwned(s: State, p: nat)
    requires FreeOwned(s) && Has(s, p, Held)
    ensures FreeOwned(GiveFree(s, p))
  {
    var t := GiveFree(s, p);
    assert p !in s.free;
    PushDistinct(s.free, p);
    forall q | q in t.free ensures Has(t, q, Free) { assert q != p ==> q in s.free; }
    forall q | Has(t, q, Free) ensures q in t.free {
      if q == p { assert t.free[0] == p; } else { assert Has(s, q, Free); assert q in s.free; }
    }
  }

  lemma GiveFreeWf(s: State, pages: nat, p: nat)
    requires Wf(s, pages) && Has(s, p, Held)
    ensures Wf(GiveFree(s, p), pages)
  {
    var t := GiveFree(s, p);
    GiveFreeOwned(s, p);
    hide FreeOwned, RootOwned, MidsOwned, LeavesOwned, DictOwned, OwnsAll;
    OwnsAllFrame(s, t, p, Free, pages);
    RootFrame(s, t, p, Free);
    MidsFrame(s, t, p, Free);
    LeavesFrame(s, t, p, Free);
    DictFrame(s, t, p, Free);
  }

  lemma LinkMidOwned(s: State, i: Index, p: nat)
    requires MidsOwned(s) && Has(s, p, Held) && i !in s.mids
    ensures MidsOwned(LinkMid(s, i, p))
  {
    var t := LinkMid(s, i, p);
    forall q, j | Has(t, q, Mid(j)) ensures j in t.mids && t.mids[j] == q {
      if q != p { assert Has(s, q, Mid(j)); }
    }
  }

  lemma LinkMidWf(s: State, pages: nat, i: Index, p: nat)
    requires Wf(s, pages) && Has(s, p, Held) && i !in s.mids
    ensures Wf(LinkMid(s, i, p), pages)
  {
    var t := LinkMid(s, i, p);
    LinkMidOwned(s, i, p);
    hide FreeOwned, RootOwned, MidsOwned, LeavesOwned, DictOwned, OwnsAll;
    OwnsAllFrame(s, t, p, Mid(i), pages);
    FreeFrame(s, t, p, Mid(i));
    RootFrame(s, t, p, Mid(i));
    LeavesFrame(s, t, p, Mid(i));
    DictFrame(s, t, p, Mid(i));
  }

  lemma LinkLeafOwned(s: State, b: Branch, p: nat)
    requires LeavesOwned(s) && Has(s, p, Held) && b.v2 in s.mids && b !in s.leaves
    ensures LeavesOwned(LinkLeaf(s, b, p))
  {
    var t := LinkLeaf(s, b, p);
    forall q, c | Has(t, q, Leaf(c)) ensures c in t.leaves && t.leaves[c] == q {
      if q != p { assert Has(s, q, Leaf(c)); }
    }
  }

  lemma LinkLeafWf(s: State, pages: nat, b: Branch, p: nat)
    requires Wf(s, pages) && Has(s, p, Held) && b.v2 in s.mids && b !in s.leaves
    ensures Wf(LinkLeaf(s, b, p), pages)
  {
    var t := LinkLeaf(s, b, p);
    LinkLeafOwned(s, b, p);
    hide FreeOwned, RootOwned, MidsOwned, LeavesOwned, DictOwned, OwnsAll;
    OwnsAllFrame(s, t, p, Leaf(b), pages);
    FreeFrame(s, t, p, Leaf(b));
    RootFrame(s, t, p, Leaf(b));
    MidsFrame(s, t, p, Leaf(b));
    DictFrame(s, t, p, Leaf(b));
  }

  lemma MapPageOwned(s: State, k: Key, p: nat, flags: nat)
    requires DictOwned(s) && Has(s, p, Held) && k !in s.dict && BranchOf(k) in s.leaves && ValidFlags(flags)
    ensures DictOwned(MapPage(s, k, p, flags))
  {
    var t := MapPage(s, k, p, flags);
    forall q, l | Has(t, q, Data(l)) ensures l in t.dict && t.dict[l].page == q {
      if q != p { assert Has(s, q, Data(l)); }
    }
  }

  lemma MapPageWf(s: State, pages: nat, k: Key, p: nat, flags: nat)
    requires Wf(s, pages) && Has(s, p, Held) && k !in s.dict && BranchOf(k) in s.leaves && ValidFlags(flags)
    ensures Wf(MapPage(s, k, p, flags), pages)
  {
    var t := MapPage(s, k, p, flags);
    MapPageOwned(s, k, p, flags);
    hide FreeOwned, RootOwned, MidsOwned, LeavesOwned, DictOwned, OwnsAll;
    OwnsAllFrame(s, t, p, Data(k), pages);
    FreeFrame(s, t, p, Data(k));
    RootFrame(s, t, p, Data(k));
    MidsFrame(s, t, p, Data(k));
    LeavesFrame(s, t, p, Data(k));
  }

  lemma UnmapPageOwned(s: State, k: Key)
    requires DictOwned(s) && k in s.dict
    ensures DictOwned(UnmapPage(s, k))
    ensures Has(s, s.dict[k].page, Data(k))
  {
    var t := UnmapPage(s, k);
    forall l | l in t.dict ensures BranchOf(l) in t.leaves && Has(t, t.dict[l].page, Data(l)) {
      assert Has(s, s.dict[l].page, Data(l));
      assert Has(s, s.dict[k].page, Data(k));
    }
    forall q, l | Has(t, q, Data(l)) ensures l in t.dict && t.dict[l].page == q {
      assert Has(s, q, Data(l));
    }
  }

  lemma UnmapPageWf(s: State, pages: nat, k: Key)
    requires Wf(s, pages) && k in s.dict
    ensures Wf(UnmapPage(s, k), pages)
    ensures Has(UnmapPage(s, k), s.dict[k].page, Held)
  {
    var t, p := UnmapPage(s, k), s.dict[k].page;
    UnmapPageOwned(s, k);
    hide FreeOwned, RootOwned, MidsOwned, LeavesOwned, DictOwned, OwnsAll;
    OwnsAllFrame(s, t, p, Held, pages);
    FreeFrame(s, t, p, Held);
    RootFrame(s, t, p, Held);
    MidsFrame(s, t, p, Held);
    LeavesFrame(s, t, p, Held);
  }
}
