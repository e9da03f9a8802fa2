// Running the page table in memory: every legal sequence of calls computes the abstract
// run, answers as the plain dictionary does, and keeps what was written to pages that are
// held by the caller or mapped.
module PageTableExecution {
  import opened Bits
  import opened PhysicalMemory
  import opened PageAllocation
  import opened Sequences
  import opened PageTableState
  import opened PageTableEntry
  import opened VirtualMemory
  import opened PageTableRuns
  import opened PageTableHistory

  // The page that an operation takes away from its user, or 0.
  function LostPage(s: State, op: Op): nat {
    match op
    case Release(p) => p
    case Erase(va) => ErasedPage(s, KeyOf(va))
    case _ => 0
  }

  // The page whose contents the operation may change.
  function Changed(a: State, op: Op): nat {
    if op.Write? then op.page else LostPage(a, op)
  }

  // A page that is held or mapped stays so, unless the operation takes it away.
  lemma ContentPagesStay(s: State, pages: nat, op: Op)
    requires Wf(s, pages) && Legal(s, op)
    ensures forall p :: ContentPage(s, p) && p != LostPage(s, op) ==> ContentPage(Next(s, op), p)
  {
    if op.Add? {
      AddedContentPages(s, pages, op);
    } else if op.Erase? {
      ErasedContentPages(s, pages, KeyOf(op.va));
      hide Wf, KeyOf, EraseStep;
    } else if op.Take? {
      if s.free != [] { FreePrefix(s, 1); }
      hide Wf;
    } else {
      hide Wf, KeyOf;
    }
  }

  lemma ErasedContentPages(s: State, pages: nat, k: Key)
    requires Wf(s, pages)
    ensures forall p :: ContentPage(s, p) && p != ErasedPage(s, k) ==> ContentPage(EraseStep(s, k), p)
  {
    if k in s.dict { assert Has(s, s.dict[k].page, Data(k)); }
    hide Wf;
  }

  lemma AddedContentPages(s: State, pages: nat, op: Op)
    requires Wf(s, pages) && Legal(s, op) && op.Add?
    ensures forall p :: ContentPage(s, p) ==> ContentPage(Next(s, op), p)
  {
    hide KeyOf, Stored, ContentPage, Wf;
    if KeyOf(op.va) in s.dict {
      assert Next(s, op) == s;
    } else {
      AddKeepsContentPages(s, pages, KeyOf(op.va), Stored(op.pa, op.perm));
    }
  }

  lemma AddKeepsContentPages(s: State, pages: nat, k: Key, x: Mapping)
    requires Wf(s, pages) && k !in s.dict && |s.free| >= Missing(s, BranchOf(k))
    ensures forall p :: ContentPage(s, p) ==> ContentPage(AddStep(s, k, x), p)
  {
    hide Wf, EnsureLeaf;
    EnsureLeafKeeps(s, pages, BranchOf(k));
  }

  // A held or mapped page is filled word by word.
  method FillPage(t: PageTable, p: nat, contents: seq<uint64>)
    requires t.Valid() && ContentPage(t.s, p) && |contents| == 512
    modifies t.alloc.mem.bytes
    ensures t.Valid() && ContentsKept(old(t.alloc.mem.Words()), t.alloc.mem.Words(), t.s, p)
    ensures PageHolds(t.alloc.mem.Words(), p, contents)
  {
    hide WordsOf, FreeList, Inv, At, ContentPage;
    var i := 0;
    while i < 512
      invariant 0 <= i <= 512
      invariant t.Valid() && ContentsKept(old(t.alloc.mem.Words()), t.alloc.mem.Words(), t.s, p)
      invariant forall j: Index :: j < i ==> At(t.alloc.mem.Words(), p, j) == contents[j]
    {
      t.StoreWord(p, i, p * 4096 + 8 * i, contents[i]);
      i := i + 1;
    }
  }

  method ExecuteStep(t: PageTable, op: Op) returns (answer: int)
    requires t.Valid() && Legal(t.s, op)
    modifies t, t.alloc, t.alloc.mem.bytes
    ensures t.Valid() && t.s == Next(old(t.s), op)
    ensures ContentsKept(old(t.alloc.mem.Words()), t.alloc.mem.Words(), old(t.s), Changed(old(t.s), op))
    ensures !op.Read? ==> answer == Answer(old(t.s), op)
    ensures op.Read? ==> answer == At(old(t.alloc.mem.Words()), op.page, op.i)
    ensures op.Write? ==> |op.contents| == 512 && PageHolds(t.alloc.mem.Words(), op.page, op.contents)
  {
    hide *;
    ghost var s := t.s;
    if op.Write? || op.Read? {
      answer := ExecuteContents(t, op);
      ContentsStep(s, op);
    } else if op.Take? || op.Release? {
      answer := ExecutePages(t, op);
    } else {
      answer := ExecuteDictionary(t, op);
    }
  }

  lemma ContentsStep(s: State, op: Op)
    requires op.Write? || op.Read?
    ensures Next(s, op) == s && (op.Write? ==> Answer(s, op) == 0)
  {
  }

  // alloc_page and free_page for the rest of the kernel.
  method ExecutePages(t: PageTable, op: Op) returns (answer: int)
    requires t.Valid() && Legal(t.s, op) && (op.Take? || op.Release?)
    modifies t, t.alloc, t.alloc.mem.bytes
    ensures t.Valid() && t.s == Next(old(t.s), op) && answer == Answer(old(t.s), op)
    ensures ContentsKept(old(t.alloc.mem.Words()), t.alloc.mem.Words(), old(t.s), Changed(old(t.s), op))
  {
    PageInMemory(t.alloc.mem.Words(), t.s, PAGES, op);
    hide FreeList, Inv, TakeFree, GiveFree, WordsOf, At;
    match op {
      case Take => answer := t.TakePage();
      case Release(p) =>
        t.ReleasePage(p * 4096, p);
        answer := 0;
    }
  }

  // add, erase and lookup.
  method ExecuteDictionary(t: PageTable, op: Op) returns (answer: int)
    requires t.Valid() && Legal(t.s, op) && (op.Add? || op.Erase? || op.Lookup?)
    modifies t, t.alloc, t.alloc.mem.bytes
    ensures t.Valid() && t.s == Next(old(t.s), op) && answer == Answer(old(t.s), op)
    ensures ContentsKept(old(t.alloc.mem.Words()), t.alloc.mem.Words(), old(t.s), Changed(old(t.s), op))
  {
    hide FreeList, Inv, KeyOf, EnsureLeaf, Missing, AddStep, EraseStep, Stored, WordsOf, At, ContentPage;
    match op {
      case Add(va, pa, perm) => answer := t.Add(va, pa, perm);
      case Erase(va) => answer := t.Erase(va);
      case Lookup(va) => answer := t.Lookup(va);
    }
  }

  // Filling a page, or reading a word of it.
  method ExecuteContents(t: PageTable, op: Op) returns (answer: int)
    requires t.Valid() && Legal(t.s, op) && (op.Write? || op.Read?)
    modifies t.alloc.mem.bytes
    ensures t.Valid()
    ensures ContentsKept(old(t.alloc.mem.Words()), t.alloc.mem.Words(), t.s, Changed(t.s, op))
    ensures op.Read? ==> answer == At(old(t.alloc.mem.Words()), op.page, op.i)
    ensures op.Write? ==> answer == 0 && |op.contents| == 512 && PageHolds(t.alloc.mem.Words(), op.page, op.contents)
  {
    PageInMemory(t.alloc.mem.Words(), t.s, PAGES, op);
    hide FreeList, Inv, WordsOf, At, PageHolds, ContentPage;
    match op {
      case Write(p, contents) =>
        FillPage(t, p, contents);
        answer := 0;
      case Read(p, i) => answer := t.ReadEntry(p * 4096 + 8 * i, p, i);
    }
  }

  lemma PageInMemory(m: seq<uint64>, s: State, pages: nat, op: Op)
    requires Inv(m, s, pages) && Legal(s, op)
    ensures op.Read? ==> op.page < pages
    ensures op.Release? ==> op.page < pages
  {
  }

  // --- One table: a history with a family of one ---

  function OnOne(ops: seq<Op>): (r: seq<Call>)
    ensures |r| == |ops| && forall k :: 0 <= k < |ops| ==> r[k] == Call(0, ops[k])
  {
    seq(|ops|, k requires 0 <= k < |ops| => Call(0, ops[k]))
  }

  lemma UndisturbedIsUnchanged(s: State, pages: nat, op: Op, p: nat)
    requires Wf(s, pages) && ContentPage(s, p) && !Disturbs(s, op, p)
    ensures p != Changed(s, op)
  {
  }

  lemma PageKept(m: seq<uint64>, m': seq<uint64>, s: State, pages: nat, op: Op, p: nat)
    requires Wf(s, pages) && Legal(s, op) && ContentsKept(m, m', s, Changed(s, op))
    requires ContentPage(s, p) && !Disturbs(s, op, p)
    ensures ContentPage(Next(s, op), p) && forall i: Index :: At(m', p, i) == At(m, p, i)
  {
    ContentPagesStay(s, pages, op);
    UndisturbedIsUnchanged(s, pages, op, p);
    NullHasNoContents(s, pages, p);
    assert op.Write? || Changed(s, op) == LostPage(s, op);
    assert op.Write? ==> LostPage(s, op) == 0;
    hide Legal, Next, ContentPage, Disturbs, Wf, At, Changed, LostPage;
  }

  lemma StepKeepsContents(m: seq<uint64>, m': seq<uint64>, s: State, pages: nat, op: Op)
    requires Wf(s, pages) && Legal(s, op) && ContentsKept(m, m', s, Changed(s, op))
    ensures KeepsContents(Moment(m, [s]), Call(0, op), Moment(m', [Next(s, op)]))
  {
    hide Legal, Next, ContentPage, Disturbs, Wf, At, Changed, ContentsKept;
    forall p | ContentInAll([s], p) && !Disturbs(s, op, p)
      ensures ContentInAll([Next(s, op)], p) && forall i: Index :: At(m', p, i) == At(m, p, i)
    {
      assert ContentPage([s][0], p);
      PageKept(m, m', s, pages, op, p);
    }
  }

  lemma NullHasNoContents(s: State, pages: nat, p: nat)
    requires Wf(s, pages) && ContentPage(s, p)
    ensures p != 0
  {
  }

  lemma StepHappens(m: seq<uint64>, m': seq<uint64>, s: State, op: Op, answer: int)
    requires Inv(m, s, PAGES) && Legal(s, op) && ContentsKept(m, m', s, Changed(s, op))
    requires !op.Read? ==> answer == Answer(s, op)
    requires op.Read? ==> answer == At(m, op.page, op.i)
    requires op.Write? ==> |op.contents| == 512 && PageHolds(m', op.page, op.contents)
    ensures Happens(Moment(m, [s]), Call(0, op), answer, Moment(m', [Next(s, op)]))
  {
    StepKeepsContents(m, m', s, PAGES, op);
    StepView(m, m', s, op);
    if OnDictionary(op) { AnswersAgree(s, op); }
    if op.Write? { WriteKeepsState(s, op); }
    hide *;
    HappensFrom(Moment(m, [s]), Call(0, op), answer, Moment(m', [Next(s, op)]));
  }

  lemma StepView(m: seq<uint64>, m': seq<uint64>, s: State, op: Op)
    requires Wf(s, PAGES) && Legal(s, op)
    ensures PlainStep(Moment(m, [s]), Call(0, op), Moment(m', [Next(s, op)]))
  {
    ViewNext(s, PAGES, op);
    hide View, PlainNext, Next, Legal, Wf;
  }

  lemma WriteKeepsState(s: State, op: Op)
    requires Legal(s, op) && op.Write?
    ensures ContentInAll([Next(s, op)], op.page)
  {
    hide ContentPage;
  }

  // What is known of a run: the trace, and the state at each of its moments.
  ghost predicate RunTrace(moments: seq<Moment>, s: State, ops: seq<Op>, answers: seq<int>) {
    && Trace(moments, OnOne(ops), answers)
    && forall k :: 0 <= k <= |ops| ==> moments[k].family == [Run(s, ops[..k])]
  }

  lemma RunTraceStep(moments: seq<Moment>, s: State, ops: seq<Op>, n: nat, answers: seq<int>, answer: int, b: Moment)
    requires n < |ops| && RunTrace(moments, s, ops[..n], answers)
    requires Happens(moments[n], Call(0, ops[n]), answer, b) && b.family == [Run(s, ops[..n + 1])]
    ensures RunTrace(moments + [b], s, ops[..n + 1], answers + [answer])
  {
    assert OnOne(ops[..n + 1]) == OnOne(ops[..n]) + [Call(0, ops[n])] && |moments| == n + 1;
    hide Run, Happens;
    LongerTrace(moments, OnOne(ops[..n]), answers, Call(0, ops[n]), answer, b);
    hide Trace, OnOne;
    forall k | 0 <= k <= n + 1 ensures (moments + [b])[k].family == [Run(s, ops[..n + 1][..k])] {
      PrefixOfPrefix(ops, k, n + 1);
      if k <= n { PrefixOfPrefix(ops, k, n); }
    }
  }

  // Operation k of the run does not write page p, release it, or erase a key that maps it.
  ghost predicate Spares(s: State, ops: seq<Op>, k: nat, p: nat)
    requires k < |ops|
  {
    && !(ops[k].Write? && ops[k].page == p)
    && !(ops[k].Release? && ops[k].page == p)
    && !(ops[k].Erase? && KeyOf(ops[k].va) in Run(s, ops[..k]).dict
         && Run(s, ops[..k]).dict[KeyOf(ops[k].va)].page == p)
  }

  // Operation i reads the page that operation j wrote, and none in between disturbs it.
  ghost predicate LastWrite(s: State, ops: seq<Op>, j: nat, i: nat) {
    && j < i < |ops| && ops[i].Read? && ops[j].Write? && ops[j].page == ops[i].page
    && forall k :: j < k < i ==> Spares(s, ops, k, ops[i].page)
  }

  // Operation i reads a page that was held or mapped at the start and never disturbed.
  ghost predicate NoWrite(s: State, ops: seq<Op>, i: nat) {
    && i < |ops| && ops[i].Read? && ContentPage(s, ops[i].page)
    && forall k :: 0 <= k < i ==> Spares(s, ops, k, ops[i].page)
  }

  // Operation i is about page number n, operation j entered it, and none in between erases it.
  predicate LastEntered(ops: seq<Op>, answers: seq<int>, j: nat, i: nat, n: nat) {
    && j < i < |ops| == |answers| && Concerns(ops[i], n) && Enters(ops[j], answers[j], n)
    && forall k :: j < k < i ==> !Erases(ops[k], n)
  }

  // ... operation j erased it, or tried to, and none in between enters it.
  predicate LastErased(ops: seq<Op>, answers: seq<int>, j: nat, i: nat, n: nat) {
    && j < i < |ops| == |answers| && Concerns(ops[i], n) && Erases(ops[j], n)
    && forall k :: j < k < i ==> !Enters(ops[k], answers[k], n)
  }

  predicate NeverErased(ops: seq<Op>, i: nat, n: nat) {
    && i < |ops| && Concerns(ops[i], n) && forall k :: 0 <= k < i ==> !Erases(ops[k], n)
  }

  predicate NeverEntered(ops: seq<Op>, answers: seq<int>, i: nat, n: nat) {
    && i < |ops| == |answers| && Concerns(ops[i], n) && forall k :: 0 <= k < i ==> !Enters(ops[k], answers[k], n)
  }

  // Reads: the word of the last write to the page, if since then the page was not written,
  // released, or erased; or the word at the start, if none of this ever happened.
  ghost predicate ReadLaw(m: seq<uint64>, s: State, ops: seq<Op>, answers: seq<int>) {
    && |answers| == |ops|
    && (forall i: nat, j: nat :: LastWrite(s, ops, j, i) ==>
          |ops[j].contents| == 512 && answers[i] == ops[j].contents[ops[i].i])
    && (forall i: nat :: NoWrite(s, ops, i) ==> answers[i] == At(m, ops[i].page, ops[i].i))
  }

  // Add, erase and lookup: after an add that entered the page number, since when it was not
  // erased; after an erase, since when it was not entered; and from the start.
  predicate EnteredAnswer(ops: seq<Op>, answers: seq<int>, j: nat, i: nat)
    requires j < i < |ops| == |answers|
  {
    ops[j].Add? && answers[i] == IfPresent(ops[i], Or(ops[j].pa / 4096, ops[j].perm / 1024) * 4096)
  }

  ghost predicate DictionaryLaw(d: Dictionary, ops: seq<Op>, answers: seq<int>) {
    && |answers| == |ops|
    && (forall i: nat, j: nat, n :: LastEntered(ops, answers, j, i, n) ==> EnteredAnswer(ops, answers, j, i))
    && (forall i: nat, j: nat, n :: LastErased(ops, answers, j, i, n) ==> answers[i] == IfAbsent(ops[i]))
    && (forall i: nat, n :: NeverErased(ops, i, n) && n in d ==> answers[i] == IfPresent(ops[i], d[n].page * 4096))
    && (forall i: nat, n :: NeverEntered(ops, answers, i, n) && n !in d ==> answers[i] == IfAbsent(ops[i]))
  }

  // The read law written out: j wrote the page that i reads, and nothing in between wrote it,
  // released it, or erased a key that mapped it.
  lemma ReadsSay(m: seq<uint64>, s: State, ops: seq<Op>, answers: seq<int>, j: nat, i: nat)
    requires ReadLaw(m, s, ops, answers) && j < i < |ops|
    requires ops[j].Write? && ops[i].Read? && ops[i].page == ops[j].page
    requires forall k :: j < k < i ==>
      match ops[k]
      case Write(q, _) => q != ops[j].page
      case Release(q) => q != ops[j].page
      case Erase(va) => KeyOf(va) in Run(s, ops[..k]).dict ==> Run(s, ops[..k]).dict[KeyOf(va)].page != ops[j].page
      case _ => true
    ensures |answers| == |ops| && |ops[j].contents| == 512 && answers[i] == ops[j].contents[ops[i].i]
  {
    hide Run, KeyOf;
    assert LastWrite(s, ops, j, i);
  }

  // ... and of a page that was held or mapped at the start and to which none of this happened.
  lemma FirstReadsSay(m: seq<uint64>, s: State, ops: seq<Op>, answers: seq<int>, i: nat)
    requires ReadLaw(m, s, ops, answers) && i < |ops| && ops[i].Read? && ContentPage(s, ops[i].page)
    requires forall k :: 0 <= k < i ==>
      match ops[k]
      case Write(q, _) => q != ops[i].page
      case Release(q) => q != ops[i].page
      case Erase(va) => KeyOf(va) in Run(s, ops[..k]).dict ==> Run(s, ops[..k]).dict[KeyOf(va)].page != ops[i].page
      case _ => true
    ensures |answers| == |ops| && answers[i] == At(m, ops[i].page, ops[i].i)
  {
    hide Run, KeyOf;
    assert NoWrite(s, ops, i);
  }

  // The dictionary law written out for lookup, add and erase of one address after an add of
  // an address with the same page number.
  lemma AnswersAfterAdd(d: Dictionary, ops: seq<Op>, answers: seq<int>, j: nat, i: nat)
    requires DictionaryLaw(d, ops, answers) && j < i < |ops| && ops[j].Add?
    requires answers[j] == 0 && ops[j].perm % 2 == 1 && (ops[i].Lookup? || ops[i].Add? || ops[i].Erase?)
    requires ops[j].va / 4096 % 0x800_0000 == ops[i].va / 4096 % 0x800_0000
    requires forall k :: j < k < i && ops[k].Erase? ==>
      ops[k].va / 4096 % 0x800_0000 != ops[i].va / 4096 % 0x800_0000
    ensures ops[i].Lookup? ==> answers[i] == Or(ops[j].pa / 4096, ops[j].perm / 1024) * 4096
    ensures ops[i].Lookup? && ops[j].perm < 1024 ==> answers[i] == ops[j].pa / 4096 * 4096
    ensures ops[i].Add? ==> answers[i] == -1
    ensures ops[i].Erase? ==> answers[i] == 0
  {
    hide Or;
    OrZero(ops[j].pa / 4096);
    assert LastEntered(ops, answers, j, i, ops[i].va / 4096 % 0x800_0000);
    assert EnteredAnswer(ops, answers, j, i);
  }

  // ... after an erase of that page number, or from the start when it was absent.
  lemma AnswersWhileAbsent(d: Dictionary, ops: seq<Op>, answers: seq<int>, j: int, i: nat)
    requires DictionaryLaw(d, ops, answers) && -1 <= j < i < |ops|
    requires ops[i].Lookup? || ops[i].Add? || ops[i].Erase?
    requires if j == -1 then ops[i].va / 4096 % 0x800_0000 !in d
             else ops[j].Erase? && ops[j].va / 4096 % 0x800_0000 == ops[i].va / 4096 % 0x800_0000
    requires forall k :: j < k < i && ops[k].Add? && answers[k] == 0 && ops[k].perm % 2 == 1 ==>
      ops[k].va / 4096 % 0x800_0000 != ops[i].va / 4096 % 0x800_0000
    ensures ops[i].Lookup? ==> answers[i] == 0
    ensures ops[i].Add? ==> answers[i] == 0
    ensures ops[i].Erase? ==> answers[i] == -1
  {
    var n := ops[i].va / 4096 % 0x800_0000;
    if j == -1 {
      assert NeverEntered(ops, answers, i, n);
    } else {
      assert LastErased(ops, answers, j, i, n);
    }
  }

  // ... and from the start when it was present.
  lemma AnswersWhilePresent(d: Dictionary, ops: seq<Op>, answers: seq<int>, i: nat)
    requires DictionaryLaw(d, ops, answers) && i < |ops| && (ops[i].Lookup? || ops[i].Add? || ops[i].Erase?)
    requires ops[i].va / 4096 % 0x800_0000 in d
    requires forall k :: 0 <= k < i && ops[k].Erase? ==>
      ops[k].va / 4096 % 0x800_0000 != ops[i].va / 4096 % 0x800_0000
    ensures ops[i].Lookup? ==> answers[i] == d[ops[i].va / 4096 % 0x800_0000].page * 4096
    ensures ops[i].Add? ==> answers[i] == -1
    ensures ops[i].Erase? ==> answers[i] == 0
  {
    assert NeverErased(ops, i, ops[i].va / 4096 % 0x800_0000);
  }

  lemma ReadsOfRun(moments: seq<Moment>, s: State, ops: seq<Op>, answers: seq<int>)
    requires RunTrace(moments, s, ops, answers)
    ensures moments != [] && ReadLaw(moments[0].memory, s, ops, answers)
  {
    var calls := OnOne(ops);
    assert |moments| == |ops| + 1 && |answers| == |ops| && moments[0].family == [Run(s, ops[..0])];
    assert Run(s, ops[..0]) == s;
    hide Run, Disturbs, Spares, Trace, OnOne, ContentPage, At;
    forall i: nat, j: nat | LastWrite(s, ops, j, i)
      ensures |ops[j].contents| == 512 && answers[i] == ops[j].contents[ops[i].i]
    {
      forall k | j < k < i
        ensures calls[k].table < |moments[k].family|
        ensures !Disturbs(moments[k].family[calls[k].table], calls[k].op, calls[j].op.page)
      {
        SparesDisturbs(s, ops, k, ops[i].page);
      }
      ReadsLastWrite(moments, calls, answers, j, i);
    }
    forall i: nat | NoWrite(s, ops, i) ensures answers[i] == At(moments[0].memory, ops[i].page, ops[i].i) {
      forall k | 0 <= k < i
        ensures calls[k].table < |moments[k].family|
        ensures !Disturbs(moments[k].family[calls[k].table], calls[k].op, calls[i].op.page)
      {
        SparesDisturbs(s, ops, k, ops[i].page);
      }
      ReadsStart(moments, calls, answers, i);
    }
  }

  lemma SparesDisturbs(s: State, ops: seq<Op>, k: nat, p: nat)
    requires k < |ops| && Spares(s, ops, k, p)
    ensures !Disturbs(Run(s, ops[..k]), ops[k], p)
  {
  }

  lemma DictionaryOfRun(moments: seq<Moment>, s: State, ops: seq<Op>, answers: seq<int>)
    requires RunTrace(moments, s, ops, answers)
    ensures DictionaryLaw(View(s), ops, answers)
  {
    var calls := OnOne(ops);
    assert |answers| == |ops| && moments[0].family == [Run(s, ops[..0])];
    assert Run(s, ops[..0]) == s;
    hide Run, View, Trace, Or, Concerns, Enters, Erases, OnOne, IfPresent, IfAbsent;
    forall i: nat, j: nat, n | LastEntered(ops, answers, j, i, n)
      ensures EnteredAnswer(ops, answers, j, i)
    {
      KindsMean(ops[j], answers[j], n);
      AfterAdd(moments, calls, answers, j, i, 0, n);
    }
    forall i: nat, j: nat, n | LastErased(ops, answers, j, i, n) ensures answers[i] == IfAbsent(ops[i]) {
      AfterErase(moments, calls, answers, j, i, 0, n);
    }
    forall i: nat, n | NeverErased(ops, i, n) && n in View(s)
      ensures answers[i] == IfPresent(ops[i], View(s)[n].page * 4096)
    {
      PresentFromStart(moments, calls, answers, i, 0, n);
    }
    forall i: nat, n | NeverEntered(ops, answers, i, n) && n !in View(s) ensures answers[i] == IfAbsent(ops[i]) {
      AbsentFromStart(moments, calls, answers, i, 0, n);
    }
  }

  // The calls one after the other, with the moments between them.
  method Perform(t: PageTable, ops: seq<Op>) returns (answers: seq<int>, ghost moments: seq<Moment>)
    requires t.Valid() && LegalRun(t.s, ops)
    modifies t, t.alloc, t.alloc.mem.bytes
    ensures t.Valid() && t.s == Run(old(t.s), ops) && |answers| == |ops|
    ensures RunTrace(moments, old(t.s), ops, answers)
    ensures moments[0] == Moment(old(t.alloc.mem.Words()), [old(t.s)])
    ensures forall i :: 0 <= i < |ops| && !ops[i].Read? ==> answers[i] == Answer(Run(old(t.s), ops[..i]), ops[i])
  {
    hide FreeList, Inv, Next, Legal, Answer, Run, RunTrace, Happens, WordsOf, At, PageHolds, ContentsKept, Changed;
    ghost var s := t.s;
    answers, moments := [], [Moment(t.alloc.mem.Words(), [s])];
    var n := 0;
    EmptyTrace(t.alloc.mem.Words(), s, ops[..0]);
    while n < |ops|
      invariant 0 <= n <= |ops| && |answers| == n && |moments| == n + 1
      invariant t.Valid() && t.s == Run(s, ops[..n])
      invariant RunTrace(moments, s, ops[..n], answers)
      invariant moments[n] == Moment(t.alloc.mem.Words(), [t.s])
      invariant moments[0] == Moment(old(t.alloc.mem.Words()), [s])
      invariant forall i :: 0 <= i < n && !ops[i].Read? ==> answers[i] == Answer(Run(s, ops[..i]), ops[i])
    {
      RunStep(s, ops, n);
      ghost var m, now := t.alloc.mem.Words(), t.s;
      var answer := ExecuteStep(t, ops[n]);
      StepHappens(m, t.alloc.mem.Words(), now, ops[n], answer);
      ghost var b := Moment(t.alloc.mem.Words(), [t.s]);
      RunTraceStep(moments, s, ops, n, answers, answer, b);
      answers, moments := answers + [answer], moments + [b];
      n := n + 1;
    }
    assert ops[..n] == ops;
  }

  lemma EmptyTrace(m: seq<uint64>, s: State, ops: seq<Op>)
    requires ops == []
    ensures Run(s, ops) == s && RunTrace([Moment(m, [s])], s, ops, [])
  {
  }

  lemma ValidWf(t: PageTable)
    requires t.Valid()
    ensures Wf(t.s, PAGES)
  {
  }

  // The answers along the run are those of the plain dictionary and of the free list.
  lemma RunRefines(s: State, ops: seq<Op>, answers: seq<int>)
    requires Wf(s, PAGES) && LegalRun(s, ops) && |answers| == |ops|
    requires forall i :: 0 <= i < |ops| && !ops[i].Read? ==> answers[i] == Answer(Run(s, ops[..i]), ops[i])
    ensures View(Run(s, ops)) == PlainRun(View(s), ops)
    ensures forall i :: 0 <= i < |ops| && OnDictionary(ops[i]) ==>
      answers[i] == PlainAnswer(PlainRun(View(s), ops[..i]), ops[i])
    ensures forall i :: 0 <= i < |ops| && ops[i].Take? ==>
      answers[i] == if Run(s, ops[..i]).free == [] then 0 else Run(s, ops[..i]).free[0] * 4096
  {
    hide Wf, View, Run, PlainRun, PlainAnswer, LegalRun;
    forall i | 0 <= i < |ops| && OnDictionary(ops[i])
      ensures answers[i] == PlainAnswer(PlainRun(View(s), ops[..i]), ops[i])
    {
      RunRefinesDictionary(s, PAGES, ops, i);
    }
    RunRefinesDictionary(s, PAGES, ops, |ops|);
    assert ops[..|ops|] == ops;
  }

  // Every legal sequence of calls on the table in memory computes the run of the abstract
  // state. Its answers to add, erase and lookup are those of the plain dictionary: what the
  // last add entered until it is erased. A read of a held or mapped page returns what the
  // last write stored there.
  method Execute(t: PageTable, ops: seq<Op>) returns (answers: seq<int>)
    requires t.Valid() && LegalRun(t.s, ops)
    modifies t, t.alloc, t.alloc.mem.bytes
    ensures t.Valid() && t.s == Run(old(t.s), ops) && |answers| == |ops|
    ensures View(t.s) == PlainRun(View(old(t.s)), ops)
    ensures forall i :: 0 <= i < |ops| && OnDictionary(ops[i]) ==>
      answers[i] == PlainAnswer(PlainRun(View(old(t.s)), ops[..i]), ops[i])
    ensures DictionaryLaw(View(old(t.s)), ops, answers)
    ensures ReadLaw(old(t.alloc.mem.Words()), old(t.s), ops, answers)
    ensures forall i :: 0 <= i < |ops| && ops[i].Take? ==>
      answers[i] == if Run(old(t.s), ops[..i]).free == [] then 0 else Run(old(t.s), ops[..i]).free[0] * 4096
  {
    ghost var s := t.s;
    ValidWf(t);
    hide *;
    ghost var moments;
    answers, moments := Perform(t, ops);
    RunRefines(s, ops, answers);
    ReadsOfRun(moments, s, ops, answers);
    DictionaryOfRun(moments, s, ops, answers);
  }
}
