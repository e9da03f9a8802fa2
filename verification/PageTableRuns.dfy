// Whole runs of the page table: refinement of a plain dictionary, conservation of pages,
// the exact number of table pages, and distinct entries for distinct page numbers.
module PageTableRuns {
  import opened Bits
  import opened PhysicalMemory
  import opened PageAllocation
  import opened Sequences
  import opened PageTableState
  import opened PageTableEntry
  import opened VirtualMemory

  datatype Op =
    | Take                                       // the kernel calls alloc_page for itself
    | Release(page: nat)                         // ... and free_page
    | Add(va: uint64, pa: uint64, perm: uint64)
    | Erase(va: uint64)
    | Lookup(va: uint64)
    | Write(page: nat, contents: seq<uint64>)    // a held or mapped page is filled
    | Read(page: nat, i: Index)                  // a word of a held or mapped page is read

  // What the caller must guarantee.
  ghost predicate Legal(s: State, op: Op) {
    match op
    case Take => true
    case Release(p) => Has(s, p, Held)
    case Add(va, pa, perm) =>
      KeyOf(va) !in s.dict ==>
        && |s.free| >= Missing(s, BranchOf(KeyOf(va)))
        && (perm % 2 == 1 ==> Has(s, Stored(pa, perm).page, Held))
    case Erase(va) => true
    case Lookup(va) => true
    case Write(p, contents) => ContentPage(s, p) && |contents| == 512
    case Read(p, i) => ContentPage(s, p)
  }

  // The state after the operation; an add that is not legal for want of free pages is given
  // no effect here.
  function Next(s: State, op: Op): State {
    match op
    case Take => if s.free == [] then s else TakeFree(s)
    case Release(p) => GiveFree(s, p)
    case Add(va, pa, perm) =>
      if KeyOf(va) !in s.dict && |s.free| < Missing(s, BranchOf(KeyOf(va))) then s
      else AddStep(s, KeyOf(va), Stored(pa, perm))
    case Erase(va) => EraseStep(s, KeyOf(va))
    case _ => s
  }

  // The value the operation returns; reads are answered by the contents below.
  function Answer(s: State, op: Op): int
    requires !op.Read?
  {
    match op
    case Take => if s.free == [] then 0 else s.free[0] * 4096
    case Release(p) => 0
    case Add(va, pa, perm) => if KeyOf(va) in s.dict then -1 else 0
    case Erase(va) => if KeyOf(va) in s.dict then 0 else -1
    case Lookup(va) => if KeyOf(va) in s.dict then s.dict[KeyOf(va)].page * 4096 else 0
    case Write(p, contents) => 0
  }

  function Run(s: State, ops: seq<Op>): State {
    if ops == [] then s else Next(Run(s, ops[..|ops| - 1]), ops[|ops| - 1])
  }

  ghost predicate LegalRun(s: State, ops: seq<Op>) {
    forall i :: 0 <= i < |ops| ==> Legal(Run(s, ops[..i]), ops[i])
  }

  lemma RunStep(s: State, ops: seq<Op>, i: nat)
    requires i < |ops|
    ensures Run(s, ops[..i + 1]) == Next(Run(s, ops[..i]), ops[i])
  {
    assert ops[..i + 1][..i] == ops[..i];
  }

  // --- Every legal operation keeps the state well formed ---

  lemma EnsureLeafWf(s: State, pages: nat, b: Branch)
    requires Wf(s, pages) && |s.free| >= Missing(s, b)
    ensures Wf(EnsureLeaf(s, b), pages) && b in EnsureLeaf(s, b).leaves
  {
    MappedHasTables(s, pages, Key(b.v2, b.v1, 0));
    if b.v2 !in s.mids {
      TakeFreeWf(s, pages);
      LinkMidWf(TakeFree(s), pages, b.v2, s.free[0]);
      var s1 := LinkMid(TakeFree(s), b.v2, s.free[0]);
      TakeFreeWf(s1, pages);
      assert b !in s1.leaves;
      LinkLeafWf(TakeFree(s1), pages, b, s1.free[0]);
    } else if b !in s.leaves {
      TakeFreeWf(s, pages);
      LinkLeafWf(TakeFree(s), pages, b, s.free[0]);
    }
  }

  lemma AddStepWf(s: State, pages: nat, k: Key, x: Mapping)
    requires Wf(s, pages)
    requires k !in s.dict ==> |s.free| >= Missing(s, BranchOf(k)) && (ValidFlags(x.flags) ==> Has(s, x.page, Held))
    ensures Wf(AddStep(s, k, x), pages)
  {
    hide Wf, EnsureLeaf;
    if k !in s.dict {
      EnsureLeafWf(s, pages, BranchOf(k));
      EnsureLeafKeeps(s, pages, BranchOf(k));
      if ValidFlags(x.flags) { MapPageWf(EnsureLeaf(s, BranchOf(k)), pages, k, x.page, x.flags); }
    }
  }

  lemma NextWf(s: State, pages: nat, op: Op)
    requires Wf(s, pages) && Legal(s, op)
    ensures Wf(Next(s, op), pages)
  {
    match op {
      case Take => if s.free != [] { TakeFreeWf(s, pages); }
      case Release(p) => GiveFreeWf(s, pages, p);
      case Add(va, pa, perm) =>
        hide Wf, KeyOf, AddStep, Stored;
        StoredEntry(pa, perm);
        AddStepWf(s, pages, KeyOf(va), Stored(pa, perm));
      case Erase(va) =>
        if KeyOf(va) in s.dict {
          UnmapPageWf(s, pages, KeyOf(va));
          GiveFreeWf(UnmapPage(s, KeyOf(va)), pages, s.dict[KeyOf(va)].page);
        }
      case _ =>
    }
  }

  lemma {:induction false} RunWf(s: State, pages: nat, ops: seq<Op>, i: nat)
    requires Wf(s, pages) && LegalRun(s, ops) && i <= |ops|
    ensures Wf(Run(s, ops[..i]), pages)
  {
    if i > 0 {
      RunWf(s, pages, ops, i - 1);
      RunStep(s, ops, i - 1);
      NextWf(Run(s, ops[..i - 1]), pages, ops[i - 1]);
    }
  }

  // --- The table is a plain dictionary on 27-bit page numbers ---

  type Dictionary = map<nat, Mapping>

  function View(s: State): Dictionary {
    map n: nat | n < 0x800_0000 && Split(n) in s.dict :: s.dict[Split(n)]
  }

  // The dictionary knows nothing of tables, free lists or owners. An entry without V in its
  // flags is not entered; flags in the ten bits are entered with the page of pa.
  function PlainNext(d: Dictionary, op: Op): Dictionary {
    match op
    case Add(va, pa, perm) =>
      if PageNumber(va) in d || perm % 2 == 0 then d else d[PageNumber(va) := Stored(pa, perm)]
    case Erase(va) => d - {PageNumber(va)}
    case _ => d
  }

  predicate OnDictionary(op: Op) {
    op.Add? || op.Erase? || op.Lookup?
  }

  function PlainAnswer(d: Dictionary, op: Op): int
    requires OnDictionary(op)
  {
    match op
    case Add(va, pa, perm) => if PageNumber(va) in d then -1 else 0
    case Erase(va) => if PageNumber(va) in d then 0 else -1
    case Lookup(va) => if PageNumber(va) in d then d[PageNumber(va)].page * 4096 else 0
  }

  function PlainRun(d: Dictionary, ops: seq<Op>): Dictionary {
    if ops == [] then d else PlainNext(PlainRun(d, ops[..|ops| - 1]), ops[|ops| - 1])
  }

  lemma ViewHas(s: State, va: uint64)
    ensures PageNumber(va) in View(s) <==> KeyOf(va) in s.dict
    ensures KeyOf(va) in s.dict ==> View(s)[PageNumber(va)] == s.dict[KeyOf(va)]
  {
    hide KeyOf, Split;
    KeyIsPageNumber(va);
  }

  // A key other than that of va belongs to another page number.
  lemma OtherNumber(va: uint64, n: nat)
    requires n < 0x800_0000
    ensures n == PageNumber(va) <==> Split(n) == KeyOf(va)
  {
    hide KeyOf, Split, Join;
    KeyIsPageNumber(va);
    SplitJoin(n, KeyOf(va));
    SplitJoin(PageNumber(va), KeyOf(va));
  }

  // Changing the entry of one key changes the view at one page number.
  lemma ViewUpdate(s: State, t: State, va: uint64, x: Mapping)
    requires t.dict == s.dict[KeyOf(va) := x]
    ensures View(t) == View(s)[PageNumber(va) := x]
  {
    hide KeyOf, Split, PageNumber;
    var d, d' := View(s)[PageNumber(va) := x], View(t);
    PageNumberBound(va);
    forall n: nat | n < 0x800_0000 ensures n in d' <==> n in d { OtherNumber(va, n); }
    forall n | n in d' ensures d'[n] == d[n] { OtherNumber(va, n); }
  }

  lemma ViewRemove(s: State, t: State, va: uint64)
    requires t.dict == s.dict - {KeyOf(va)}
    ensures View(t) == View(s) - {PageNumber(va)}
  {
    hide KeyOf, Split, PageNumber;
    var d, d' := View(s) - {PageNumber(va)}, View(t);
    forall n: nat | n < 0x800_0000 ensures n in d' <==> n in d { OtherNumber(va, n); }
    forall n | n in d' ensures d'[n] == d[n] { OtherNumber(va, n); }
  }

  lemma PageNumberBound(va: uint64)
    ensures PageNumber(va) < 0x800_0000
  {
  }

  // What the operations do to the dictionary component.
  lemma AddDict(s: State, pages: nat, k: Key, x: Mapping)
    requires Wf(s, pages) && (k !in s.dict ==> |s.free| >= Missing(s, BranchOf(k)))
    ensures AddStep(s, k, x).dict == if k in s.dict || !ValidFlags(x.flags) then s.dict else s.dict[k := x]
  {
    hide Wf, EnsureLeaf;
    if k !in s.dict { EnsureLeafKeeps(s, pages, BranchOf(k)); }
  }

  lemma EraseDict(s: State, k: Key)
    ensures EraseStep(s, k).dict == s.dict - {k}
  {
    if k !in s.dict { assert s.dict == s.dict - {k}; }
  }

  lemma ViewNext(s: State, pages: nat, op: Op)
    requires Wf(s, pages) && Legal(s, op)
    ensures View(Next(s, op)) == PlainNext(View(s), op)
  {
    hide KeyOf, PageNumber, EnsureLeaf, Missing, AddStep, EraseStep, Wf, Split, Stored;
    match op {
      case Add(va, pa, perm) =>
        ViewHas(s, va);
        StoredEntry(pa, perm);
        AddDict(s, pages, KeyOf(va), Stored(pa, perm));
        if KeyOf(va) !in s.dict && perm % 2 == 1 {
          hide View;
          ViewUpdate(s, Next(s, op), va, Stored(pa, perm));
        }
      case Erase(va) =>
        hide View;
        EraseDict(s, KeyOf(va));
        ViewRemove(s, Next(s, op), va);
      case _ =>
    }
  }

  // Refinement over every run: the table always represents the dictionary, and answers
  // every add, erase and lookup as the dictionary does.
  lemma {:induction false} RunRefinesDictionary(s: State, pages: nat, ops: seq<Op>, i: nat)
    requires Wf(s, pages) && LegalRun(s, ops) && i <= |ops|
    ensures View(Run(s, ops[..i])) == PlainRun(View(s), ops[..i])
    ensures i < |ops| && OnDictionary(ops[i]) ==>
      Answer(Run(s, ops[..i]), ops[i]) == PlainAnswer(PlainRun(View(s), ops[..i]), ops[i])
  {
    hide Wf, View, Legal, Next, PlainNext, Run, PlainRun, Answer, PlainAnswer;
    PlainRunStep(View(s), ops, i);
    if i > 0 {
      RunRefinesDictionary(s, pages, ops, i - 1);
      RunWf(s, pages, ops, i - 1);
      RunStep(s, ops, i - 1);
      ViewNext(Run(s, ops[..i - 1]), pages, ops[i - 1]);
    } else {
      EmptyRun(s, ops[..0]);
    }
    if i < |ops| && OnDictionary(ops[i]) { AnswersAgree(Run(s, ops[..i]), ops[i]); }
  }

  lemma EmptyRun(s: State, ops: seq<Op>)
    requires ops == []
    ensures Run(s, ops) == s && PlainRun(View(s), ops) == View(s)
  {
  }

  lemma PlainRunStep(d: Dictionary, ops: seq<Op>, i: nat)
    requires i <= |ops|
    ensures i > 0 ==> PlainRun(d, ops[..i]) == PlainNext(PlainRun(d, ops[..i - 1]), ops[i - 1])
  {
    if i > 0 { assert ops[..i][..i - 1] == ops[..i - 1]; }
  }

  lemma AnswersAgree(s: State, op: Op)
    requires OnDictionary(op)
    ensures Answer(s, op) == PlainAnswer(View(s), op)
  {
    hide View, KeyOf, PageNumber;
    ViewHas(s, op.va);
  }

  // --- Distinct page numbers have distinct entries ---

  lemma DistinctSlots(s: State, pages: nat, va: uint64, vb: uint64)
    requires Wf(s, pages) && BranchOf(KeyOf(va)) in s.leaves && BranchOf(KeyOf(vb)) in s.leaves
    ensures SlotAddress(s, KeyOf(va)) == SlotAddress(s, KeyOf(vb)) <==> PageNumber(va) == PageNumber(vb)
  {
    hide KeyOf, PageNumber;
    SameKey(va, vb);
    var k, l := KeyOf(va), KeyOf(vb);
    assert Has(s, s.leaves[BranchOf(k)], Leaf(BranchOf(k))) && Has(s, s.leaves[BranchOf(l)], Leaf(BranchOf(l)));
  }

  // Adding one page number, even when it builds tables, leaves every other lookup as it was.
  lemma AddFrame(s: State, pages: nat, va: uint64, vb: uint64, pa: uint64, perm: uint64)
    requires Wf(s, pages) && Legal(s, Add(va, pa, perm)) && PageNumber(va) != PageNumber(vb)
    ensures Answer(Next(s, Add(va, pa, perm)), Lookup(vb)) == Answer(s, Lookup(vb))
  {
    hide Wf, KeyOf, PageNumber, AddStep, Stored;
    SameKey(va, vb);
    AddDict(s, pages, KeyOf(va), Stored(pa, perm));
  }

  // After an add that returned 0, for every address and flag word: the key is present if and
  // only if perm has V, lookup then returns the page of pa with the bits of perm above the
  // ten flag bits or-ed in, and so it returns pa itself if and only if perm has V, pa is
  // aligned, and those bits are already in its page number.
  lemma AddedIsPresent(s: State, pages: nat, va: uint64, pa: uint64, perm: uint64)
    requires Wf(s, pages) && Legal(s, Add(va, pa, perm)) && Answer(s, Add(va, pa, perm)) == 0
    ensures KeyOf(va) in Next(s, Add(va, pa, perm)).dict <==> perm % 2 == 1
    ensures Answer(Next(s, Add(va, pa, perm)), Lookup(va)) ==
            if perm % 2 == 1 then Or(pa / 4096, perm / 1024) * 4096 else 0
    ensures pa != 0 ==>
      (Answer(Next(s, Add(va, pa, perm)), Lookup(va)) == pa
       <==> perm % 2 == 1 && pa % 4096 == 0 && Or(pa / 4096, perm / 1024) == pa / 4096)
  {
    hide Wf, KeyOf, AddStep, Stored, Or;
    StoredEntry(pa, perm);
    StoredParts(pa, perm);
    AddDict(s, pages, KeyOf(va), Stored(pa, perm));
  }

  // The first add is legal when two pages are free and the page of the entry is held.
  lemma FirstAdd(s: State, va: uint64, pa: uint64, perm: uint64)
    requires s.dict == map[] && |s.free| >= 2
    requires perm % 2 == 1 ==> Has(s, Or(pa / 4096, perm / 1024), Held)
    ensures Legal(s, Add(va, pa, perm)) && Answer(s, Add(va, pa, perm)) == 0
  {
    hide KeyOf, Stored, Or;
    StoredParts(pa, perm);
  }

  // Failing inputs of the three kinds, each a legal add that returns 0. Without V the key
  // stays absent.
  lemma AddWithoutV(s: State, pages: nat)
    requires Wf(s, pages) && s.dict == map[] && |s.free| >= 2
    ensures Legal(s, Add(0, 0x1000, 2)) && Answer(s, Add(0, 0x1000, 2)) == 0
    ensures Answer(Next(s, Add(0, 0x1000, 2)), Lookup(0)) == 0
  {
    hide Wf, Legal, Answer, Next, Or;
    FirstAdd(s, 0, 0x1000, 2);
    AddedIsPresent(s, pages, 0, 0x1000, 2);
  }

  // A flag above the ten bits maps another page.
  lemma AddWideFlag(s: State, pages: nat)
    requires Wf(s, pages) && s.dict == map[] && |s.free| >= 2 && Has(s, 3, Held)
    ensures Legal(s, Add(0, 0x1000, 0x801)) && Answer(s, Add(0, 0x1000, 0x801)) == 0
    ensures Answer(Next(s, Add(0, 0x1000, 0x801)), Lookup(0)) == 0x3000
  {
    OrSmall();
    hide Wf, Legal, Answer, Next, Or;
    FirstAdd(s, 0, 0x1000, 0x801);
    AddedIsPresent(s, pages, 0, 0x1000, 0x801);
  }

  // An unaligned address loses its offset.
  lemma AddUnaligned(s: State, pages: nat)
    requires Wf(s, pages) && s.dict == map[] && |s.free| >= 2 && Has(s, 1, Held)
    ensures Legal(s, Add(0, 0x1008, 1)) && Answer(s, Add(0, 0x1008, 1)) == 0
    ensures Answer(Next(s, Add(0, 0x1008, 1)), Lookup(0)) == 0x1000
  {
    OrSmall();
    hide Wf, Legal, Answer, Next, Or;
    FirstAdd(s, 0, 0x1008, 1);
    AddedIsPresent(s, pages, 0, 0x1008, 1);
  }

  lemma OrSmall()
    ensures Or(1, 2) == 3 && Or(1, 0) == 1
  {
  }

  // The two walks agree: building tables for k never moves an existing entry, takes no page
  // when page_walk would have found one, and maps nothing.
  lemma WalksAgree(s: State, pages: nat, k: Key)
    requires Wf(s, pages) && |s.free| >= Missing(s, BranchOf(k))
    ensures var t := EnsureLeaf(s, BranchOf(k));
      && BranchOf(k) in t.leaves
      && (forall l: Key :: l in t.dict <==> l in s.dict)
      && (k in s.dict ==> t == s)
      && (forall l: Key :: BranchOf(l) in s.leaves ==>
            BranchOf(l) in t.leaves && SlotAddress(t, l) == SlotAddress(s, l))
  {
    MappedHasTables(s, pages, k);
    hide EnsureLeaf, Wf;
    EnsureLeafWf(s, pages, BranchOf(k));
    EnsureLeafKeeps(s, pages, BranchOf(k));
    EnsureLeafExtends(s, BranchOf(k));
    if k in s.dict { NothingMissing(s, BranchOf(k)); }
  }

  lemma NothingMissing(s: State, b: Branch)
    requires Missing(s, b) == 0
    ensures EnsureLeaf(s, b) == s
  {
  }

  lemma EnsureLeafExtends(s: State, b: Branch)
    requires |s.free| >= Missing(s, b) && (b in s.leaves ==> b.v2 in s.mids)
    ensures forall c :: c in s.leaves ==> c in EnsureLeaf(s, b).leaves && EnsureLeaf(s, b).leaves[c] == s.leaves[c]
  {
  }

  // --- Conservation of pages ---

  ghost function FreePages(s: State): set<nat> { set p | p in s.owner && s.owner[p].Free? }
  ghost function HeldPages(s: State): set<nat> { set p | p in s.owner && s.owner[p].Held? }
  ghost function TablePages(s: State): set<nat> { set p | p in s.owner && IsTable(s.owner[p]) }
  ghost function MappedPages(s: State): set<nat> { set p | p in s.owner && s.owner[p].Data? }

  lemma FreeAreListed(s: State)
    requires FreeOwned(s)
    ensures forall p: nat :: p in FreePages(s) <==> p in s.free
  {
    forall p: nat ensures p in FreePages(s) <==> p in s.free {
      assert Has(s, p, Free) <==> p in FreePages(s);
    }
  }

  lemma MappedAreListed(s: State)
    requires DictOwned(s)
    ensures forall p: nat :: p in MappedPages(s) <==> exists k :: k in s.dict && s.dict[k].page == p
  {
    forall p: nat ensures p in MappedPages(s) <==> exists k :: k in s.dict && s.dict[k].page == p {
      if p in MappedPages(s) { assert Has(s, p, Data(s.owner[p].key)); }
      if k :| k in s.dict && s.dict[k].page == p { assert Has(s, p, Data(k)); }
    }
  }

  // Every page is exactly one of free, table, mapped and caller-held; the free pages are
  // those of the list, the mapped pages those of the dictionary.
  lemma Partition(s: State, pages: nat)
    requires Wf(s, pages)
    ensures forall p: nat :: p in FreePages(s) + TablePages(s) + MappedPages(s) + HeldPages(s) <==> 0 < p < pages
    ensures FreePages(s) !! TablePages(s) !! MappedPages(s) !! HeldPages(s)
    ensures forall p: nat :: p in FreePages(s) <==> p in s.free
    ensures forall p: nat :: p in MappedPages(s) <==> exists k :: k in s.dict && s.dict[k].page == p
  {
    FreeAreListed(s);
    MappedAreListed(s);
    assert forall p: nat :: p in s.owner <==> 0 < p < pages by { hide FreeOwned, DictOwned; }
    hide Wf;
    KindsCover(s);
    hide FreePages, TablePages, MappedPages, HeldPages;
  }

  lemma KindsCover(s: State)
    ensures forall p: nat :: p in FreePages(s) + TablePages(s) + MappedPages(s) + HeldPages(s) <==> p in s.owner
    ensures FreePages(s) !! TablePages(s) !! MappedPages(s) !! HeldPages(s)
  {
  }

  // Counting the four kinds: nothing is lost and nothing appears, at any point of any run.
  lemma RunConservesPages(s: State, pages: nat, ops: seq<Op>, i: nat)
    requires Wf(s, pages) && LegalRun(s, ops) && i <= |ops| && pages > 0
    ensures var t := Run(s, ops[..i]);
      |t.free| + |TablePages(t)| + |MappedPages(t)| + |HeldPages(t)| == pages - 1
  {
    hide Wf;
    RunWf(s, pages, ops, i);
    CountPages(Run(s, ops[..i]), pages);
  }

  lemma CountPages(s: State, pages: nat)
    requires Wf(s, pages) && pages > 0
    ensures |s.free| + |TablePages(s)| + |MappedPages(s)| + |HeldPages(s)| == pages - 1
  {
    Partition(s, pages);
    FreeDistinct(s);
    hide Wf;
    var all := FreePages(s) + TablePages(s) + MappedPages(s) + HeldPages(s);
    RangeCount(all, pages);
    ElementCount(s.free, FreePages(s));
  }

  lemma FreeDistinct(s: State)
    requires FreeOwned(s)
    ensures Distinct(s.free)
  {
  }

  lemma {:induction false} RangeCount(t: set<nat>, n: nat)
    requires n > 0 && forall p: nat :: p in t <==> 0 < p < n
    ensures |t| == n - 1
  {
    if n == 1 {
      assert t == {};
    } else {
      RangeCount(t - {n - 1}, n - 1);
    }
  }

  lemma {:induction false} ElementCount(q: seq<nat>, t: set<nat>)
    requires Distinct(q) && forall p: nat :: p in t <==> p in q
    ensures |t| == |q|
  {
    if q == [] {
      assert t == {};
    } else {
      assert q[0] !in q[1..];
      assert forall p :: p in q <==> p == q[0] || p in q[1..];
      ElementCount(q[1..], t - {q[0]});
    }
  }

  // What moves where.
  lemma AddMoves(s: State, pages: nat, k: Key, x: Mapping)
    requires Wf(s, pages) && k !in s.dict && (ValidFlags(x.flags) ==> Has(s, x.page, Held))
    requires |s.free| >= Missing(s, BranchOf(k))
    ensures var t := AddStep(s, k, x);
      && var n := Missing(s, BranchOf(k));
      && var mapped := if ValidFlags(x.flags) then {x.page} else {};
      && t.free == s.free[n..]
      && TablePages(t) == TablePages(s) + (set q | q in s.free[..n])
      && MappedPages(t) == MappedPages(s) + mapped
      && HeldPages(t) == HeldPages(s) - mapped
  {
    var b := BranchOf(k);
    var u := EnsureLeaf(s, b);
    EnsureLeafMoves(s, pages, b);
    EnsureLeafKeeps(s, pages, b);
    hide EnsureLeaf, Missing, Wf;
    if ValidFlags(x.flags) { assert Has(u, x.page, Held); }
  }

  lemma BecomeTablesMoves(s: State, t: State, ps: seq<nat>)
    requires BecomeTables(s, t, ps)
    ensures TablePages(t) == TablePages(s) + (set q | q in ps)
    ensures MappedPages(t) == MappedPages(s) && HeldPages(t) == HeldPages(s)
  {
    assert forall p :: p in ps ==> Has(s, p, Free);
  }

  lemma EnsureLeafMoves(s: State, pages: nat, b: Branch)
    requires Wf(s, pages) && |s.free| >= Missing(s, b)
    ensures var t := EnsureLeaf(s, b);
      && var n := Missing(s, b);
      && t.free == s.free[n..]
      && TablePages(t) == TablePages(s) + (set q | q in s.free[..n])
      && MappedPages(t) == MappedPages(s)
      && HeldPages(t) == HeldPages(s)
  {
    hide EnsureLeaf, BecomeTables, TablePages, MappedPages, HeldPages, Wf;
    EnsureLeafBecomes(s, pages, b);
    BecomeTablesMoves(s, EnsureLeaf(s, b), s.free[..Missing(s, b)]);
  }

  lemma EraseMoves(s: State, pages: nat, k: Key)
    requires Wf(s, pages) && k in s.dict
    ensures var t := EraseStep(s, k);
      && t.free == [s.dict[k].page] + s.free
      && TablePages(t) == TablePages(s)
      && MappedPages(t) == MappedPages(s) - {s.dict[k].page}
      && HeldPages(t) == HeldPages(s)
  {
    assert Has(s, s.dict[k].page, Data(k));
  }

  // Over every run a page that became a table page stays one.
  lemma {:induction false} TablesNeverLeave(s: State, pages: nat, ops: seq<Op>, i: nat, j: nat)
    requires Wf(s, pages) && LegalRun(s, ops) && i <= j <= |ops|
    ensures TablePages(Run(s, ops[..i])) <= TablePages(Run(s, ops[..j]))
  {
    hide Wf, TablePages, Next, Legal, Run;
    if i < j {
      TablesNeverLeave(s, pages, ops, i, j - 1);
      RunWf(s, pages, ops, j - 1);
      RunStep(s, ops, j - 1);
      NextKeepsTables(Run(s, ops[..j - 1]), pages, ops[j - 1]);
    }
  }

  lemma NextKeepsTables(s: State, pages: nat, op: Op)
    requires Wf(s, pages) && Legal(s, op)
    ensures TablePages(s) <= TablePages(Next(s, op))
  {
    match op {
      case Take => if s.free != [] { assert Has(s, s.free[0], Free); }
      case Release(p) =>
      case Add(va, pa, perm) =>
        hide Stored, KeyOf;
        StoredEntry(pa, perm);
        if KeyOf(va) !in s.dict { AddMoves(s, pages, KeyOf(va), Stored(pa, perm)); }
      case Erase(va) =>
        if KeyOf(va) in s.dict { EraseMoves(s, pages, KeyOf(va)); }
      case _ =>
    }
  }

  // --- The exact number of table pages ---

  // An injective map has as many values as keys.
  lemma {:induction false} InjectiveValues<K>(m: map<K, nat>)
    requires forall x, y :: x in m && y in m && m[x] == m[y] ==> x == y
    ensures |m.Values| == |m.Keys|
    decreases |m|
  {
    if m == map[] {
      assert m.Values == {};
    } else {
      var x :| x in m;
      var r := m - {x};
      assert m.Keys == r.Keys + {x};
      assert forall y :: y in r ==> r[y] == m[y];
      assert m[x] !in r.Values;
      assert m.Values == r.Values + {m[x]};
      InjectiveValues(r);
    }
  }

  lemma TableCount(s: State, pages: nat)
    requires Wf(s, pages)
    ensures |TablePages(s)| == 1 + |s.mids| + |s.leaves|
  {
    MidsInjective(s);
    LeavesInjective(s);
    TablesAreValues(s);
    TableKindsDisjoint(s);
    InjectiveValues(s.mids);
    InjectiveValues(s.leaves);
  }

  lemma MidsInjective(s: State)
    requires MidsOwned(s)
    ensures forall x, y :: x in s.mids && y in s.mids && s.mids[x] == s.mids[y] ==> x == y
  {
    forall x, y | x in s.mids && y in s.mids && s.mids[x] == s.mids[y] ensures x == y {
      assert Has(s, s.mids[x], Mid(x)) && Has(s, s.mids[y], Mid(y));
    }
  }

  lemma LeavesInjective(s: State)
    requires LeavesOwned(s)
    ensures forall x, y :: x in s.leaves && y in s.leaves && s.leaves[x] == s.leaves[y] ==> x == y
  {
    forall x, y | x in s.leaves && y in s.leaves && s.leaves[x] == s.leaves[y] ensures x == y {
      assert Has(s, s.leaves[x], Leaf(x)) && Has(s, s.leaves[y], Leaf(y));
    }
  }

  lemma TablesAreValues(s: State)
    requires RootOwned(s) && MidsOwned(s) && LeavesOwned(s)
    ensures TablePages(s) == {s.root} + s.mids.Values + s.leaves.Values
  {
    forall p ensures p in TablePages(s) <==> p in {s.root} + s.mids.Values + s.leaves.Values {
      if p in TablePages(s) {
        match s.owner[p] {
          case Root => assert Has(s, p, Root);
          case Mid(i) => assert Has(s, p, Mid(i)); assert s.mids[i] == p;
          case Leaf(b) => assert Has(s, p, Leaf(b)); assert s.leaves[b] == p;
          case _ =>
        }
      }
      if p in s.mids.Values { var i :| i in s.mids && s.mids[i] == p; assert Has(s, p, Mid(i)); }
      if p in s.leaves.Values { var b :| b in s.leaves && s.leaves[b] == p; assert Has(s, p, Leaf(b)); }
    }
  }

  lemma TableKindsDisjoint(s: State)
    requires RootOwned(s) && MidsOwned(s) && LeavesOwned(s)
    ensures {s.root} !! s.mids.Values !! s.leaves.Values
  {
    forall p | p in s.mids.Values ensures p != s.root && p !in s.leaves.Values {
      var i :| i in s.mids && s.mids[i] == p;
      assert Has(s, p, Mid(i));
    }
    forall p | p in s.leaves.Values ensures p != s.root {
      var b :| b in s.leaves && s.leaves[b] == p;
      assert Has(s, p, Leaf(b));
    }
  }

  // The branches, and the top-level indices, of the keys that add has entered so far.
  function AddedBranches(s: State, ops: seq<Op>): set<Branch> {
    if ops == [] then {} else
      var n := |ops| - 1;
      AddedBranches(s, ops[..n]) + NewBranches(Run(s, ops[..n]), ops[n])
  }

  function NewBranches(s: State, op: Op): set<Branch> {
    if op.Add? && KeyOf(op.va) !in s.dict then {BranchOf(KeyOf(op.va))} else {}
  }

  function Tops(branches: set<Branch>): set<Index> {
    set b | b in branches :: b.v2
  }

  lemma NextKeys(s: State, pages: nat, op: Op)
    requires Wf(s, pages) && Legal(s, op)
    ensures Next(s, op).leaves.Keys == s.leaves.Keys + NewBranches(s, op)
    ensures Next(s, op).mids.Keys == s.mids.Keys + Tops(NewBranches(s, op))
  {
    hide KeyOf, Wf;
    if op.Add? && KeyOf(op.va) !in s.dict {
      var b := BranchOf(KeyOf(op.va));
      assert Tops({b}) == {b.v2};
      EnsureLeafKeys(s, pages, b);
    } else {
      assert Tops({}) == {};
    }
  }

  lemma EnsureLeafKeys(s: State, pages: nat, b: Branch)
    requires Wf(s, pages) && |s.free| >= Missing(s, b)
    ensures EnsureLeaf(s, b).leaves.Keys == s.leaves.Keys + {b}
    ensures EnsureLeaf(s, b).mids.Keys == s.mids.Keys + {b.v2}
  {
    assert b in s.leaves ==> b.v2 in s.mids by { hide MidsOwned, DictOwned, FreeOwned, RootOwned, OwnsAll; }
    hide Wf, Has;
  }

  lemma TopsUnion(b: set<Branch>, c: set<Branch>)
    ensures Tops(b + c) == Tops(b) + Tops(c) && Tops({}) == {}
  {
  }

  lemma {:induction false} RunKeys(s: State, pages: nat, ops: seq<Op>, i: nat)
    requires Wf(s, pages) && LegalRun(s, ops) && i <= |ops|
    ensures Run(s, ops[..i]).leaves.Keys == s.leaves.Keys + AddedBranches(s, ops[..i])
    ensures Run(s, ops[..i]).mids.Keys == s.mids.Keys + Tops(AddedBranches(s, ops[..i]))
  {
    hide Wf, Next, Legal, NewBranches, Tops, Run;
    if i == 0 {
      EmptyRun(s, ops[..0]);
      TopsUnion({}, {});
      assert AddedBranches(s, ops[..0]) == {};
    } else {
      var prev := ops[..i - 1];
      RunKeys(s, pages, ops, i - 1);
      RunWf(s, pages, ops, i - 1);
      RunStep(s, ops, i - 1);
      NextKeys(Run(s, prev), pages, ops[i - 1]);
      assert ops[..i][..i - 1] == prev;
      var old', new' := AddedBranches(s, prev), NewBranches(Run(s, prev), ops[i - 1]);
      TopsUnion(old', new');
    }
  }

  // From a new table, at every point of every run: one root, one level-1 table for each
  // top-level index added so far, one level-0 table for each pair of upper indices added
  // so far; erasing makes no difference.
  lemma SpaceBound(s: State, pages: nat, ops: seq<Op>, i: nat)
    requires Wf(s, pages) && LegalRun(s, ops) && i <= |ops|
    requires s.mids == map[] && s.leaves == map[]
    ensures |TablePages(Run(s, ops[..i]))| ==
            1 + |Tops(AddedBranches(s, ops[..i]))| + |AddedBranches(s, ops[..i])|
  {
    hide Wf;
    RunWf(s, pages, ops, i);
    RunKeys(s, pages, ops, i);
    var t := Run(s, ops[..i]);
    TableCount(t, pages);
    assert |t.mids| == |t.mids.Keys| && |t.leaves| == |t.leaves.Keys|;
    assert t.mids.Keys == Tops(AddedBranches(s, ops[..i]));
    assert t.leaves.Keys == AddedBranches(s, ops[..i]);
  }

  // From boot: memory, allocator and page table are set up as pmm_init and the constructor
  // do; the dictionary is empty and the kernel image and devices are the caller's pages.
  method Boot(kernelEnd: uint64, ghost first: nat) returns (t: PageTable)
    requires kernelEnd == first * 4096 && 0 < first < PAGES
    ensures t.Valid() && fresh(t) && fresh(t.alloc) && fresh(t.alloc.mem.bytes)
    ensures t.s == InitState(PAGES - 1, Descending(first, PAGES)[1..], PAGES)
    ensures View(t.s) == map[]
  {
    hide Inv, FreeList, Represents, Wf, WordsOf;
    var mem := new Memory(RAM_END);
    var alloc := new PageAllocator(mem);
    var n := alloc.PmmInit(kernelEnd, first);
    assert alloc.free != [] && alloc.free[0] == PAGES - 1;
    t := new PageTable(alloc);
    NothingMapped(t.s);
  }

  lemma NothingMapped(s: State)
    requires s.dict == map[]
    ensures View(s) == map[]
  {
  }
}
