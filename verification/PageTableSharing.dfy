// Several page tables over the one allocator of the kernel: what an operation of one table
// is for another, and why tables of different processes do not disturb each other.
module PageTableSharing {
  import opened Bits
  import opened PhysicalMemory
  import opened PageAllocation
  import opened PageTableState
  import opened PageTableMemory
  import opened PageTableEntry
  import opened VirtualMemory
  import opened PageTableRuns
  import opened PageTableHistory
  import opened PageTableExecution

  // A page that the table itself consists of or maps.
  ghost predicate Owned(s: State, p: nat) {
    p in s.owner && !s.owner[p].Free? && !s.owner[p].Held?
  }

  // Both see the one free list, and what either owns is a held page for the other.
  ghost predicate Separate(a: State, b: State) {
    && a.free == b.free
    && (forall p :: Owned(a, p) ==> Has(b, p, Held))
    && (forall p :: Owned(b, p) ==> Has(a, p, Held))
  }

  // --- What an operation of table a is for another table b ---

  function TakeMany(s: State, n: nat): State
    requires n <= |s.free|
    decreases n
  {
    if n == 0 then s else TakeMany(TakeFree(s), n - 1)
  }

  // How many pages an operation of a takes from the allocator.
  function Taken(a: State, op: Op): nat {
    match op
    case Take => if a.free == [] then 0 else 1
    case Add(va, pa, perm) => if KeyOf(va) in a.dict then 0 else Missing(a, BranchOf(KeyOf(va)))
    case _ => 0
  }

  // The page that an add maps, or 0.
  function MappedBy(a: State, op: Op): nat {
    if op.Add? && KeyOf(op.va) !in a.dict && op.perm % 2 == 1 then Stored(op.pa, op.perm).page else 0
  }

  // The pages a takes are taken by someone else, the page a gives back is given back by
  // someone else; nothing else happens to b.
  function Follow(b: State, a: State, op: Op): State {
    if LostPage(a, op) != 0 then GiveFree(b, LostPage(a, op))
    else if Taken(a, op) <= |b.free| then TakeMany(b, Taken(a, op))
    else b
  }

  // The page that the caller hands over or releases is not one that b owns, and the page
  // that is written is not one of the tables of b.
  ghost predicate LegalBeside(b: State, a: State, op: Op) {
    && (op.Release? ==> Has(b, op.page, Held))
    && (MappedBy(a, op) != 0 ==> Has(b, MappedBy(a, op), Held))
    && (op.Write? ==> ContentPage(b, op.page))
  }

  // --- Steps of the free list alone ---

  lemma {:induction false} TakeManyFacts(s: State, pages: nat, n: nat)
    requires Wf(s, pages) && n <= |s.free|
    ensures var t := TakeMany(s, n);
      && Wf(t, pages) && t.free == s.free[n..]
      && t.root == s.root && t.mids == s.mids && t.leaves == s.leaves && t.dict == s.dict
    ensures forall p :: Has(TakeMany(s, n), p, Held) <==> Has(s, p, Held) || p in s.free[..n]
    ensures forall p :: Owned(TakeMany(s, n), p) <==> Owned(s, p)
    decreases n
  {
    if n == 0 {
      assert s.free[0..] == s.free;
    } else {
      var u := TakeFree(s);
      TakeFreeWf(s, pages);
      TakeFreeRoles(s, pages);
      hide Wf, TakeFree, Has, Owned;
      TakeManyFacts(u, pages, n - 1);
      FirstAndRest(s.free, n);
    }
  }

  lemma FirstAndRest(f: seq<nat>, n: nat)
    requires 0 < n <= |f|
    ensures f[1..][n - 1..] == f[n..]
    ensures forall p :: p in f[..n] <==> p == f[0] || p in f[1..][..n - 1]
  {
    assert f[..n] == [f[0]] + f[1..][..n - 1];
  }

  lemma {:induction false} TakeManyKeepsContents(s: State, pages: nat, n: nat, p: nat)
    requires Wf(s, pages) && n <= |s.free| && ContentPage(s, p)
    ensures ContentPage(TakeMany(s, n), p)
    decreases n
  {
    if n == 0 {
      assert TakeMany(s, 0) == s;
    } else {
      FreePrefix(s, 1);
      TakeFreeWf(s, pages);
      hide Wf;
      TakeManyKeepsContents(TakeFree(s), pages, n - 1, p);
    }
  }

  // A page that is held or mapped for b stays so, unless the operation of a takes it away.
  lemma FollowKeepsContents(b: State, a: State, pages: nat, op: Op, p: nat)
    requires Wf(b, pages) && ContentPage(b, p) && p != LostPage(a, op)
    ensures ContentPage(Follow(b, a, op), p)
  {
    if LostPage(a, op) == 0 && Taken(a, op) <= |b.free| {
      hide Wf, LostPage, Taken;
      TakeManyKeepsContents(b, pages, Taken(a, op), p);
    }
  }

  lemma TakeFreeRoles(s: State, pages: nat)
    requires Wf(s, pages) && s.free != []
    ensures var u := TakeFree(s);
      && u.free == s.free[1..] && u.root == s.root && u.mids == s.mids && u.leaves == s.leaves && u.dict == s.dict
    ensures forall p :: Has(TakeFree(s), p, Held) <==> Has(s, p, Held) || p == s.free[0]
    ensures forall p :: Owned(TakeFree(s), p) <==> Owned(s, p)
  {
    FreePrefix(s, 1);
    hide Wf;
  }

  lemma GiveFreeRoles(s: State, p: nat)
    requires Has(s, p, Held)
    ensures forall q :: Has(GiveFree(s, p), q, Held) <==> Has(s, q, Held) && q != p
    ensures forall q :: Owned(GiveFree(s, p), q) <==> Owned(s, q)
  {
  }

  // --- The other table keeps its invariant ---

  // If the table pages of b are unchanged, b is still represented.
  lemma TablesKept(m: seq<uint64>, m': seq<uint64>, b: State, b': State)
    requires Represents(m, b) && RootOwned(b) && MidsOwned(b) && LeavesOwned(b)
    requires b'.root == b.root && b'.mids == b.mids && b'.leaves == b.leaves && b'.dict == b.dict
    requires forall q: nat, i: Index :: q in b.owner && IsTable(b.owner[q]) ==> At(m', q, i) == At(m, q, i)
    ensures Represents(m', b')
  {
    forall i: Index ensures At(m', b'.root, i) == RootEntry(b', i) {
      assert Has(b, b.root, Root);
      assert At(m, b.root, i) == RootEntry(b, i);
    }
    forall c: Branch | c.v2 in b'.mids ensures At(m', b'.mids[c.v2], c.v1) == MidEntry(b', c) {
      assert Has(b, b.mids[c.v2], Mid(c.v2));
      assert At(m, b.mids[c.v2], c.v1) == MidEntry(b, c);
    }
    forall k: Key | BranchOf(k) in b'.leaves ensures SlotHolds(b', k, At(m', b'.leaves[BranchOf(k)], k.v0)) {
      assert Has(b, b.leaves[BranchOf(k)], Leaf(BranchOf(k)));
      assert SlotHolds(b, k, At(m, b.leaves[BranchOf(k)], k.v0));
    }
  }

  lemma OtherKeepsInv(m: seq<uint64>, m': seq<uint64>, a: State, a': State, b: State, b': State, pages: nat, x: nat)
    requires Inv(m, b, pages) && Inv(m', a', pages) && Separate(a, b) && ContentsKept(m, m', a, x)
    requires Wf(b', pages) && b'.free == a'.free
    requires b'.root == b.root && b'.mids == b.mids && b'.leaves == b.leaves && b'.dict == b.dict
    requires !(x in b.owner && IsTable(b.owner[x]))
    ensures Inv(m', b', pages)
  {
    forall q: nat, i: Index | q in b.owner && IsTable(b.owner[q]) ensures At(m', q, i) == At(m, q, i) {
      assert Owned(b, q);
      assert Has(a, q, Held);
      assert ContentPage(a, q);
    }
    TablesKept(m, m', b, b');
  }

  lemma NullIsNoPage(s: State, pages: nat)
    requires Wf(s, pages)
    ensures 0 !in s.owner
  {
  }

  lemma LostIsHeld(a: State, b: State, pages: nat, op: Op)
    requires Wf(a, pages) && Separate(a, b) && LegalBeside(b, a, op)
    ensures LostPage(a, op) != 0 ==> Has(b, LostPage(a, op), Held)
  {
    if op.Erase? && KeyOf(op.va) in a.dict {
      assert Has(a, a.dict[KeyOf(op.va)].page, Data(KeyOf(op.va)));
      assert Owned(a, a.dict[KeyOf(op.va)].page);
    }
  }

  // The free list after an operation.
  lemma NextFree(a: State, pages: nat, op: Op)
    requires Wf(a, pages) && Legal(a, op)
    ensures Taken(a, op) <= |a.free|
    ensures Next(a, op).free ==
            if LostPage(a, op) != 0 then [LostPage(a, op)] + a.free else a.free[Taken(a, op)..]
  {
    hide Stored, KeyOf;
    match op {
      case Add(va, pa, perm) =>
        if KeyOf(va) !in a.dict { EnsureLeafBecomes(a, pages, BranchOf(KeyOf(va))); }
      case Erase(va) =>
        if KeyOf(va) in a.dict {
          assert Has(a, a.dict[KeyOf(va)].page, Data(KeyOf(va)));
          NullIsNoPage(a, pages);
        }
      case Release(p) => NullIsNoPage(a, pages);
      case _ =>
    }
  }

  // The state in which an operation of a leaves b, and what b owns.
  lemma FollowFacts(a: State, b: State, pages: nat, op: Op)
    requires Wf(a, pages) && Wf(b, pages) && Separate(a, b) && Legal(a, op) && LegalBeside(b, a, op)
    ensures var b' := Follow(b, a, op);
      && Wf(b', pages) && b'.free == Next(a, op).free
      && b'.root == b.root && b'.mids == b.mids && b'.leaves == b.leaves && b'.dict == b.dict
    ensures forall p :: Owned(Follow(b, a, op), p) <==> Owned(b, p)
    ensures forall p :: Has(b, p, Held) && p != LostPage(a, op) ==> Has(Follow(b, a, op), p, Held)
    ensures forall p :: p in a.free[..Taken(a, op)] && LostPage(a, op) == 0 ==> Has(Follow(b, a, op), p, Held)
  {
    hide Wf, Next, Legal, LegalBeside, Taken, LostPage, Owned;
    NextFree(a, pages, op);
    LostIsHeld(a, b, pages, op);
    if LostPage(a, op) != 0 {
      GiveFreeWf(b, pages, LostPage(a, op));
      GiveFreeRoles(b, LostPage(a, op));
    } else {
      TakeManyFacts(b, pages, Taken(a, op));
    }
  }

  // Where an operation moves pages of its own table: what it owns afterwards it owned
  // before, took from the allocator, or was handed; what it held it still holds unless it
  // lost it or mapped it.
  lemma NextRoles(a: State, pages: nat, op: Op)
    requires Wf(a, pages) && Legal(a, op)
    ensures Taken(a, op) <= |a.free|
    ensures forall p :: Owned(Next(a, op), p) ==>
      p != LostPage(a, op) &&
      (Owned(a, p) || (LostPage(a, op) == 0 && p in a.free[..Taken(a, op)]) || p == MappedBy(a, op) != 0)
    ensures forall p :: Has(a, p, Held) && p != LostPage(a, op) && p != MappedBy(a, op) ==> Has(Next(a, op), p, Held)
  {
    match op {
      case Take =>
        NullIsNoPage(a, pages);
        if a.free != [] { TakeFreeRoles(a, pages); }
        hide Wf, TakeFree;
      case Add(va, pa, perm) =>
        hide Stored, KeyOf, Wf, AddStep;
        StoredEntry(pa, perm);
        NullIsNoPage(a, pages);
        if KeyOf(va) !in a.dict { AddRoles(a, pages, KeyOf(va), Stored(pa, perm)); }
      case Erase(va) =>
        hide KeyOf, Wf, EraseStep;
        NullIsNoPage(a, pages);
        EraseRoles(a, pages, KeyOf(va));
      case Release(p) =>
        NullIsNoPage(a, pages);
        hide Wf;
        GiveFreeRoles(a, p);
      case _ =>
        NullIsNoPage(a, pages);
    }
  }

  lemma EraseRoles(a: State, pages: nat, k: Key)
    requires Wf(a, pages)
    ensures forall p :: Owned(EraseStep(a, k), p) ==> p != ErasedPage(a, k) && Owned(a, p)
    ensures forall p :: Has(a, p, Held) && p != ErasedPage(a, k) ==> Has(EraseStep(a, k), p, Held)
  {
    NullIsNoPage(a, pages);
    if k in a.dict {
      assert Has(a, a.dict[k].page, Data(k));
      assert EraseStep(a, k).owner == a.owner[ErasedPage(a, k) := Free];
    }
    hide Wf, EraseStep;
  }

  lemma AddRoles(a: State, pages: nat, k: Key, x: Mapping)
    requires Wf(a, pages) && k !in a.dict && (ValidFlags(x.flags) ==> Has(a, x.page, Held))
    requires |a.free| >= Missing(a, BranchOf(k))
    ensures forall p :: Owned(AddStep(a, k, x), p) ==>
      p != 0 &&
      (Owned(a, p) || p in a.free[..Missing(a, BranchOf(k))] || (ValidFlags(x.flags) && p == x.page))
    ensures forall p :: Has(a, p, Held) && !(ValidFlags(x.flags) && p == x.page) ==> Has(AddStep(a, k, x), p, Held)
    ensures ValidFlags(x.flags) ==> x.page != 0
  {
    NullIsNoPage(a, pages);
    hide Wf, EnsureLeaf;
    EnsureLeafBecomes(a, pages, BranchOf(k));
    EnsureLeafKeeps(a, pages, BranchOf(k));
  }

  // --- The theorem: separate tables stay separate and intact ---

  lemma StillSeparate(a: State, b: State, pages: nat, op: Op)
    requires Wf(a, pages) && Wf(b, pages) && Separate(a, b) && Legal(a, op) && LegalBeside(b, a, op)
    ensures Separate(Next(a, op), Follow(b, a, op))
  {
    FollowFacts(a, b, pages, op);
    NextRoles(a, pages, op);
    LostIsHeld(a, b, pages, op);
    assert MappedBy(a, op) != 0 ==> Has(b, MappedBy(a, op), Held);
    hide Wf, Next, Legal, LegalBeside, Taken, LostPage, MappedBy, Follow;
  }

  // Two tables that both stand beside the operation.
  lemma BothFollow(a: State, b: State, c: State, pages: nat, op: Op)
    requires Wf(a, pages) && Wf(b, pages) && Wf(c, pages) && Legal(a, op)
    requires Separate(a, b) && Separate(a, c) && Separate(b, c) && LegalBeside(b, a, op) && LegalBeside(c, a, op)
    ensures Separate(Follow(b, a, op), Follow(c, a, op))
  {
    FollowFacts(a, b, pages, op);
    FollowFacts(a, c, pages, op);
    LostIsHeld(a, b, pages, op);
    LostIsHeld(a, c, pages, op);
    hide Wf, Next, Legal, LegalBeside, Taken, LostPage, MappedBy, Follow;
  }

  // An operation of a that runs from memory m to m' leaves the invariant of b intact: for b
  // it is a sequence of pages taken, or a page given back, and writes to pages b holds or
  // maps. The dictionary of b does not change.
  lemma OtherTableIntact(m: seq<uint64>, m': seq<uint64>, a: State, b: State, pages: nat, op: Op)
    requires Inv(m, a, pages) && Inv(m, b, pages) && Separate(a, b) && Legal(a, op) && LegalBeside(b, a, op)
    requires Inv(m', Next(a, op), pages) && ContentsKept(m, m', a, Changed(a, op))
    ensures Inv(m', Follow(b, a, op), pages)
    ensures Follow(b, a, op).dict == b.dict
    ensures Separate(Next(a, op), Follow(b, a, op))
    ensures forall p: nat, i: Index :: Owned(b, p) && p != Changed(a, op) ==>
      At(m', p, i) == At(m, p, i)
  {
    FollowFacts(a, b, pages, op);
    StillSeparate(a, b, pages, op);
    ChangedIsNoTable(a, b, pages, op);
    forall p: nat, i: Index | Owned(b, p) && p != Changed(a, op) ensures At(m', p, i) == At(m, p, i) {
      assert Has(a, p, Held);
      assert ContentPage(a, p);
    }
    hide Next, Legal, LegalBeside, Taken, LostPage, MappedBy, Follow, Separate, Changed, ContentsKept;
    OtherKeepsInv(m, m', a, Next(a, op), b, Follow(b, a, op), pages, Changed(a, op));
  }

  lemma ChangedIsNoTable(a: State, b: State, pages: nat, op: Op)
    requires Wf(a, pages) && Wf(b, pages) && Separate(a, b) && LegalBeside(b, a, op)
    ensures !(Changed(a, op) in b.owner && IsTable(b.owner[Changed(a, op)]))
  {
    LostIsHeld(a, b, pages, op);
    NullIsNoPage(b, pages);
  }

  // --- The tables of all processes, in memory ---

  // Valid tables over one allocator, pairwise separate.
  ghost predicate Family(alloc: PageAllocator, tables: set<PageTable>)
    reads alloc, alloc.mem.bytes, tables
  {
    && (forall t :: t in tables ==> t.alloc == alloc && t.Valid())
    && (forall t, u :: t in tables && u in tables && t != u ==> Separate(t.s, u.s))
  }

  // One operation on table t among the tables of other processes: every table stays valid,
  // the dictionaries of the others do not change, and neither do the pages they own, unless
  // the operation is a write to one of their mapped pages.
  method StepAmong(t: PageTable, op: Op, ghost tables: set<PageTable>) returns (answer: int)
    requires t in tables && Family(t.alloc, tables) && Legal(t.s, op)
    requires forall u :: u in tables && u != t ==> LegalBeside(u.s, t.s, op)
    modifies tables, t.alloc, t.alloc.mem.bytes
    ensures Family(t.alloc, tables)
    ensures t.s == Next(old(t.s), op)
    ensures !op.Read? ==> answer == Answer(old(t.s), op)
    ensures forall u :: u in tables && u != t ==>
      u.s == Follow(old(u.s), old(t.s), op) && u.s.dict == old(u.s.dict)
    ensures forall u, p: nat, i: Index :: u in tables && u != t && Owned(old(u.s), p) && p != Changed(old(t.s), op) ==>
      At(t.alloc.mem.Words(), p, i) == At(old(t.alloc.mem.Words()), p, i)
    ensures ContentsKept(old(t.alloc.mem.Words()), t.alloc.mem.Words(), old(t.s), Changed(old(t.s), op))
    ensures op.Read? ==> answer == At(old(t.alloc.mem.Words()), op.page, op.i)
    ensures op.Write? ==> |op.contents| == 512 && PageHolds(t.alloc.mem.Words(), op.page, op.contents)
  {
    hide WordsOf, FreeList, Inv, Legal, LegalBeside, Separate, Next, Answer, Follow, Owned, Changed, At, ContentsKept;
    hide PageHolds;
    ghost var a, m := t.s, t.alloc.mem.Words();
    answer := ExecuteStep(t, op);
    ghost var m' := t.alloc.mem.Words();
    forall u | u in tables && u != t
      ensures Inv(m', Follow(u.s, a, op), PAGES) && Separate(t.s, Follow(u.s, a, op))
      ensures Follow(u.s, a, op).dict == u.s.dict && Follow(u.s, a, op).root == u.s.root
      ensures Follow(u.s, a, op).free == t.s.free
      ensures forall p: nat, i: Index :: Owned(u.s, p) && p != Changed(a, op) ==> At(m', p, i) == At(m, p, i)
    {
      SeparateIsSymmetric(u.s, a);
      InvIsWf(m, a, PAGES);
      InvIsWf(m, u.s, PAGES);
      FollowFacts(a, u.s, PAGES, op);
      OtherTableIntact(m, m', a, u.s, PAGES, op);
    }
    forall u, v | u in tables && u != t && v in tables && v != t && u != v
      ensures Separate(Follow(u.s, a, op), Follow(v.s, a, op))
    {
      InvIsWf(m, a, PAGES);
      InvIsWf(m, u.s, PAGES);
      InvIsWf(m, v.s, PAGES);
      BothFollow(a, u.s, v.s, PAGES, op);
    }
    forall u | u in tables && u != t {
      u.s := Follow(u.s, a, op);
    }
    forall u | u in tables && u != t ensures Separate(u.s, t.s) { SeparateIsSymmetric(t.s, u.s); }
  }

  lemma SeparateIsSymmetric(a: State, b: State)
    requires Separate(a, b)
    ensures Separate(b, a)
  {
  }

  lemma InvIsWf(m: seq<uint64>, s: State, pages: nat)
    requires Inv(m, s, pages)
    ensures Wf(s, pages)
  {
  }

  // --- A further table ---

  // A new table over the first free page stands beside every table there is.
  lemma NewBesideOld(m: seq<uint64>, m': seq<uint64>, b: State, pages: nat)
    requires Inv(m, b, pages) && b.free != [] && OnlyPage(m, m', b.free[0])
    ensures Inv(m', TakeFree(b), pages)
    ensures Separate(TakeFree(b), InitState(b.free[0], b.free[1..], pages))
    ensures forall p: nat, i: Index :: Owned(b, p) ==> At(m', p, i) == At(m, p, i)
  {
    var p := b.free[0];
    NewIsSeparate(b, pages);
    TakeFreeRoles(b, pages);
    hide FreeList, Represents;
    TakeFreeInv(m, b, pages);
    ContentWrite(m, m', TakeFree(b), pages, p);
    assert Has(b, p, Free);
  }

  lemma NewIsSeparate(b: State, pages: nat)
    requires Wf(b, pages) && b.free != []
    ensures Separate(TakeFree(b), InitState(b.free[0], b.free[1..], pages))
  {
    TakeFreeRoles(b, pages);
    var p, n := b.free[0], InitState(b.free[0], b.free[1..], pages);
    assert Has(b, p, Free);
    forall q | Owned(TakeFree(b), q) ensures Has(n, q, Held) {
      assert Owned(b, q);
      assert q in b.free <==> Has(b, q, Free);
    }
  }

  lemma BothTake(b: State, c: State, pages: nat)
    requires Wf(b, pages) && Wf(c, pages) && b.free != [] && Separate(b, c)
    ensures Separate(TakeFree(b), TakeFree(c))
  {
    TakeFreeRoles(b, pages);
    TakeFreeRoles(c, pages);
    hide Wf, TakeFree, Owned;
  }

  // The constructor, called while other processes have tables: the new table is empty, it
  // is separate from all of them, and for them one page was taken.
  method NewTable(alloc: PageAllocator, ghost tables: set<PageTable>) returns (t: PageTable)
    requires alloc.Valid() && alloc.free != [] && Family(alloc, tables)
    modifies tables, alloc, alloc.mem.bytes
    ensures fresh(t) && Family(alloc, tables + {t})
    ensures t.s == InitState(old(alloc.free[0]), old(alloc.free)[1..], PAGES)
    ensures forall u :: u in tables ==> u.s == TakeFree(old(u.s))
    ensures forall u, p: nat, i: Index :: u in tables && Owned(old(u.s), p) ==>
      At(alloc.mem.Words(), p, i) == At(old(alloc.mem.Words()), p, i)
  {
    hide WordsOf, FreeList, Inv, Separate, TakeFree, InitState, Owned, At, OnlyPage;
    ghost var m, p, free := alloc.mem.Words(), alloc.free[0], alloc.free[1..];
    t := new PageTable(alloc);
    ghost var m' := alloc.mem.Words();
    forall u | u in tables
      ensures Inv(m', TakeFree(u.s), PAGES) && Separate(TakeFree(u.s), t.s)
      ensures TakeFree(u.s).root == u.s.root && TakeFree(u.s).free == t.s.free
      ensures forall q: nat, i: Index :: Owned(u.s, q) ==> At(m', q, i) == At(m, q, i)
    {
      NewBesideOld(m, m', u.s, PAGES);
      TakeFreeFields(u.s, p);
    }
    forall u, v | u in tables && v in tables && u != v ensures Separate(TakeFree(u.s), TakeFree(v.s)) {
      InvIsWf(m, u.s, PAGES);
      InvIsWf(m, v.s, PAGES);
      BothTake(u.s, v.s, PAGES);
    }
    forall u | u in tables {
      u.s := TakeFree(u.s);
    }
    forall u | u in tables ensures Separate(t.s, u.s) { SeparateIsSymmetric(u.s, t.s); }
  }

  lemma TakeFreeFields(s: State, root: nat)
    requires s.free != []
    ensures TakeFree(s).free == s.free[1..] == InitState(root, s.free[1..], PAGES).free
    ensures TakeFree(s).root == s.root
  {
  }
}
