// The page tables of all processes, driven through any sequence of calls: each behaves as a
// plain dictionary on which only its own calls were made.
module PageTableFamily {
  import opened Bits
  import opened Sequences
  import opened PhysicalMemory
  import opened PageAllocation
  import opened PageTableState
  import opened PageTableEntry
  import opened VirtualMemory
  import opened PageTableRuns
  import opened PageTableHistory
  import opened PageTableExecution
  import opened PageTableSharing

  ghost predicate LegalCall(family: seq<State>, c: Call) {
    && c.table < |family| && Legal(family[c.table], c.op)
    && forall j :: 0 <= j < |family| && j != c.table ==> LegalBeside(family[j], family[c.table], c.op)
  }

  function After(family: seq<State>, c: Call): (r: seq<State>)
    ensures |r| == |family|
  {
    seq(|family|, j requires 0 <= j < |family| =>
      if j == c.table then Next(family[j], c.op)
      else if c.table < |family| then Follow(family[j], family[c.table], c.op)
      else family[j])
  }

  function FamilyRun(family: seq<State>, calls: seq<Call>): (r: seq<State>)
    ensures |r| == |family|
  {
    if calls == [] then family
    else After(FamilyRun(family, calls[..|calls| - 1]), calls[|calls| - 1])
  }

  ghost predicate LegalCalls(family: seq<State>, calls: seq<Call>)
    decreases calls
  {
    calls == [] || (LegalCall(family, calls[0]) && LegalCalls(After(family, calls[0]), calls[1..]))
  }

  // The operations on table j, in order.
  function Own(calls: seq<Call>, j: nat): seq<Op> {
    if calls == [] then []
    else
      var n := |calls| - 1;
      Own(calls[..n], j) + if calls[n].table == j then [calls[n].op] else []
  }

  lemma OwnStep(calls: seq<Call>, n: nat, j: nat)
    requires n < |calls|
    ensures calls[n].table == j ==> Own(calls[..n + 1], j) == Own(calls[..n], j) + [calls[n].op]
    ensures calls[n].table != j ==> Own(calls[..n + 1], j) == Own(calls[..n], j)
  {
    assert calls[..n + 1][..n] == calls[..n];
  }

  lemma PlainRunOneMore(d: Dictionary, ops: seq<Op>, op: Op)
    ensures PlainRun(d, ops + [op]) == PlainNext(PlainRun(d, ops), op)
  {
    assert (ops + [op])[..|ops|] == ops;
  }

  // The tables of the sequence are those of a family, in the given states.
  ghost predicate InStates(alloc: PageAllocator, tables: seq<PageTable>, family: seq<State>)
    reads alloc, alloc.mem.bytes, tables
  {
    && Distinct(tables) && |family| == |tables|
    && (forall j :: 0 <= j < |tables| ==> tables[j].s == family[j])
    && Family(alloc, set t | t in tables)
  }

  ghost predicate Views(family: seq<State>, before: seq<State>, calls: seq<Call>) {
    && |before| == |family|
    && forall j :: 0 <= j < |family| ==> View(family[j]) == PlainRun(View(before[j]), Own(calls, j))
  }

  lemma NoCallsYet(family: seq<State>)
    ensures Views(family, family, [])
  {
  }

  lemma SameView(s: State, t: State)
    requires s.dict == t.dict
    ensures View(s) == View(t)
  {
  }

  // One more call: table c.table takes the plain step, every other view stays.
  lemma ViewsStep(family: seq<State>, before: seq<State>, calls: seq<Call>, n: nat)
    requires n < |calls| && Views(family, before, calls[..n]) && LegalCall(family, calls[n])
    requires Wf(family[calls[n].table], PAGES)
    requires forall j :: 0 <= j < |family| && j != calls[n].table ==>
      After(family, calls[n])[j].dict == family[j].dict
    ensures Views(After(family, calls[n]), before, calls[..n + 1])
  {
    var c, next := calls[n], After(family, calls[n]);
    hide Own, PlainRun, PlainNext, View, Wf, Legal, LegalBeside, Next, Follow;
    forall j | 0 <= j < |family| ensures View(next[j]) == PlainRun(View(before[j]), Own(calls[..n + 1], j)) {
      OwnStep(calls, n, j);
      if j == c.table {
        ViewNext(family[j], PAGES, c.op);
        PlainRunOneMore(View(before[j]), Own(calls[..n], j), c.op);
      } else {
        SameView(family[j], next[j]);
      }
    }
  }

  lemma FamilyRunStep(family: seq<State>, calls: seq<Call>, n: nat)
    requires n < |calls|
    ensures FamilyRun(family, calls[..n + 1]) == After(FamilyRun(family, calls[..n]), calls[n])
    ensures FamilyRun(family, calls[..0]) == family
  {
    assert calls[..n + 1][..n] == calls[..n];
  }

  // One call on the tables in memory.
  method StepCall(alloc: PageAllocator, tables: seq<PageTable>, c: Call, ghost family: seq<State>)
    returns (answer: int)
    requires InStates(alloc, tables, family) && LegalCall(family, c)
    modifies tables, alloc, alloc.mem.bytes
    ensures InStates(alloc, tables, After(family, c))
    ensures forall j :: 0 <= j < |tables| && j != c.table ==> After(family, c)[j].dict == family[j].dict
    ensures ContentsKept(old(alloc.mem.Words()), alloc.mem.Words(), family[c.table], Changed(family[c.table], c.op))
    ensures !c.op.Read? ==> answer == Answer(family[c.table], c.op)
    ensures c.op.Read? ==> answer == At(old(alloc.mem.Words()), c.op.page, c.op.i)
    ensures c.op.Write? ==> |c.op.contents| == 512 && PageHolds(alloc.mem.Words(), c.op.page, c.op.contents)
  {
    hide Inv, Legal, LegalBeside, Separate, Next, Answer, Follow, Owned, ContentsKept, Changed, PageHolds, At;
    var t := tables[c.table];
    ghost var all := set t | t in tables;
    assert t.alloc == alloc;
    forall u | u in all && u != t ensures LegalBeside(u.s, t.s, c.op) {
      var j :| 0 <= j < |tables| && tables[j] == u;
      assert LegalBeside(family[j], family[c.table], c.op);
    }
    answer := StepAmong(t, c.op, all);
    forall j | 0 <= j < |tables|
      ensures tables[j].s == After(family, c)[j] && (j != c.table ==> tables[j].s.dict == family[j].dict)
    {
      assert tables[j] in all && (j != c.table ==> tables[j] != t);
    }
  }

  // --- The call as a step of a history ---

  ghost predicate FamilyWf(family: seq<State>) {
    forall j :: 0 <= j < |family| ==> Wf(family[j], PAGES)
  }

  lemma CallKeepsContents(m: seq<uint64>, m': seq<uint64>, family: seq<State>, c: Call)
    requires FamilyWf(family) && LegalCall(family, c)
    requires ContentsKept(m, m', family[c.table], Changed(family[c.table], c.op))
    ensures KeepsContents(Moment(m, family), c, Moment(m', After(family, c)))
  {
    var s := family[c.table];
    ContentPagesStay(s, PAGES, c.op);
    hide Wf, Legal, LegalBeside, Next, Follow, ContentPage, Disturbs, Changed, LostPage;
    forall p | ContentInAll(family, p) && !Disturbs(s, c.op, p)
      ensures ContentInAll(After(family, c), p) && forall i: Index :: At(m', p, i) == At(m, p, i)
    {
      UndisturbedIsUnchanged(s, PAGES, c.op, p);
      ChangedOrLost(s, PAGES, c.op, p);
      forall j | 0 <= j < |family| ensures ContentPage(After(family, c)[j], p) {
        if j != c.table { FollowKeepsContents(family[j], s, PAGES, c.op, p); }
      }
    }
  }

  lemma ChangedOrLost(s: State, pages: nat, op: Op, p: nat)
    requires Wf(s, pages) && ContentPage(s, p) && p != Changed(s, op)
    ensures p != LostPage(s, op)
  {
  }

  lemma CallHappens(m: seq<uint64>, m': seq<uint64>, family: seq<State>, c: Call, answer: int)
    requires FamilyWf(family) && LegalCall(family, c)
    requires forall j :: 0 <= j < |family| && j != c.table ==> After(family, c)[j].dict == family[j].dict
    requires ContentsKept(m, m', family[c.table], Changed(family[c.table], c.op))
    requires !c.op.Read? ==> answer == Answer(family[c.table], c.op)
    requires c.op.Read? ==> answer == At(m, c.op.page, c.op.i)
    requires c.op.Write? ==> |c.op.contents| == 512 && PageHolds(m', c.op.page, c.op.contents)
    ensures Happens(Moment(m, family), c, answer, Moment(m', After(family, c)))
  {
    CallKeepsContents(m, m', family, c);
    CallViews(family, c);
    var s := family[c.table];
    if OnDictionary(c.op) { AnswersAgree(s, c.op); }
    if c.op.Write? { WrittenStays(family, c); }
    hide *;
    HappensFrom(Moment(m, family), c, answer, Moment(m', After(family, c)));
  }

  // Every view takes the plain step of its own call, or none.
  lemma CallViews(family: seq<State>, c: Call)
    requires FamilyWf(family) && LegalCall(family, c)
    requires forall j :: 0 <= j < |family| && j != c.table ==> After(family, c)[j].dict == family[j].dict
    ensures forall m: seq<uint64>, m': seq<uint64> :: PlainStep(Moment(m, family), c, Moment(m', After(family, c)))
  {
    hide PlainNext, View, Wf, Legal, LegalBeside, Next, Follow;
    forall j | 0 <= j < |family|
      ensures View(After(family, c)[j]) == if j == c.table then PlainNext(View(family[j]), c.op) else View(family[j])
    {
      if j == c.table { ViewNext(family[j], PAGES, c.op); } else { SameView(family[j], After(family, c)[j]); }
    }
  }

  lemma WrittenStays(family: seq<State>, c: Call)
    requires LegalCall(family, c) && c.op.Write?
    ensures ContentInAll(After(family, c), c.op.page)
  {
    forall j | 0 <= j < |family| ensures ContentPage(After(family, c)[j], c.op.page) {
      assert j != c.table ==> LegalBeside(family[j], family[c.table], c.op);
      assert After(family, c)[j] == family[j];
    }
  }

  // --- Runs of the family ---

  ghost predicate FamilyTrace(moments: seq<Moment>, family: seq<State>, calls: seq<Call>, answers: seq<int>) {
    && Trace(moments, calls, answers)
    && forall k :: 0 <= k <= |calls| ==> moments[k].family == FamilyRun(family, calls[..k])
  }

  lemma FamilyTraceStep(moments: seq<Moment>, family: seq<State>, calls: seq<Call>, n: nat, answers: seq<int>,
                        answer: int, b: Moment)
    requires n < |calls| && FamilyTrace(moments, family, calls[..n], answers)
    requires Happens(moments[n], calls[n], answer, b) && b.family == FamilyRun(family, calls[..n + 1])
    ensures FamilyTrace(moments + [b], family, calls[..n + 1], answers + [answer])
  {
    assert calls[..n + 1] == calls[..n] + [calls[n]] && |moments| == n + 1;
    hide FamilyRun, Happens;
    LongerTrace(moments, calls[..n], answers, calls[n], answer, b);
    hide Trace;
    forall k | 0 <= k <= n + 1 ensures (moments + [b])[k].family == FamilyRun(family, calls[..n + 1][..k]) {
      PrefixOfPrefix(calls, k, n + 1);
      if k <= n { PrefixOfPrefix(calls, k, n); }
    }
  }

  lemma EmptyFamilyTrace(m: seq<uint64>, family: seq<State>, calls: seq<Call>)
    requires calls == []
    ensures FamilyRun(family, calls) == family && FamilyTrace([Moment(m, family)], family, calls, [])
  {
  }

  // Call i on the dictionary gives the answer of the plain dictionary after the earlier
  // calls on the same table.
  ghost predicate Answered(family: seq<State>, calls: seq<Call>, i: nat, answer: int)
    requires i < |calls|
  {
    var c := calls[i];
    OnDictionary(c.op) && c.table < |family| ==>
      answer == PlainAnswer(PlainRun(View(family[c.table]), Own(calls[..i], c.table)), c.op)
  }

  lemma CallAnswered(now: seq<State>, family: seq<State>, calls: seq<Call>, n: nat, answer: int)
    requires n < |calls| && Views(now, family, calls[..n]) && calls[n].table < |now|
    requires !calls[n].op.Read? ==> answer == Answer(now[calls[n].table], calls[n].op)
    ensures Answered(family, calls, n, answer)
  {
    var c := calls[n];
    if OnDictionary(c.op) { AnswersAgree(now[c.table], c.op); }
  }

  // A page that is taken is the head of the free list as the table sees it, or NULL.
  ghost predicate TakeAnswered(family: seq<State>, calls: seq<Call>, i: nat, answer: int)
    requires i < |calls|
  {
    calls[i].op.Take? && calls[i].table < |family| ==>
      var free := FamilyRun(family, calls[..i])[calls[i].table].free;
      answer == if free == [] then 0 else free[0] * 4096
  }

  lemma AllocationAnswered(now: seq<State>, family: seq<State>, calls: seq<Call>, n: nat, answer: int)
    requires n < |calls| && now == FamilyRun(family, calls[..n]) && calls[n].table < |now|
    requires !calls[n].op.Read? ==> answer == Answer(now[calls[n].table], calls[n].op)
    ensures TakeAnswered(family, calls, n, answer)
  {
    hide FamilyRun;
  }

  lemma LegalCallFacts(family: seq<State>, c: Call)
    requires LegalCall(family, c)
    ensures c.table < |family|
  {
  }

  lemma AllWf(alloc: PageAllocator, tables: seq<PageTable>, family: seq<State>)
    requires InStates(alloc, tables, family)
    ensures FamilyWf(family)
  {
    hide Inv, Separate, FreeList;
    forall j | 0 <= j < |family| ensures Wf(family[j], PAGES) {
      assert tables[j] in set t | t in tables;
      ValidWf(tables[j]);
    }
  }

  lemma OneIsWf(family: seq<State>, j: nat)
    requires FamilyWf(family) && j < |family|
    ensures Wf(family[j], PAGES)
  {
  }

  // The calls one after the other, with the moments between them.
  method Perform(alloc: PageAllocator, tables: seq<PageTable>, calls: seq<Call>, ghost family: seq<State>)
    returns (answers: seq<int>, ghost moments: seq<Moment>)
    requires InStates(alloc, tables, family) && LegalCalls(family, calls)
    modifies tables, alloc, alloc.mem.bytes
    ensures InStates(alloc, tables, FamilyRun(family, calls)) && Views(FamilyRun(family, calls), family, calls)
    ensures |answers| == |calls| && FamilyTrace(moments, family, calls, answers)
    ensures moments[0].memory == old(alloc.mem.Words())
    ensures forall i :: 0 <= i < |calls| ==> Answered(family, calls, i, answers[i])
    ensures forall i :: 0 <= i < |calls| ==> TakeAnswered(family, calls, i, answers[i])
  {
    hide Inv, LegalCall, After, Own, View, Family, Answered, TakeAnswered, FamilyWf, FamilyTrace;
    hide FamilyRun, Views, WordsOf;
    hide InStates, Answer, Changed, ContentsKept, PageHolds, At;
    ghost var now := family;
    answers, moments := [], [Moment(alloc.mem.Words(), family)];
    var n := 0;
    NoCallsYet(family);
    EmptyFamilyTrace(alloc.mem.Words(), family, calls[..0]);
    assert calls[..0] == [] && calls[0..] == calls;
    while n < |calls|
      invariant 0 <= n <= |calls| && |answers| == n && |moments| == n + 1
      invariant now == FamilyRun(family, calls[..n])
      invariant InStates(alloc, tables, now) && LegalCalls(now, calls[n..])
      invariant Views(now, family, calls[..n]) && FamilyTrace(moments, family, calls[..n], answers)
      invariant moments[n] == Moment(alloc.mem.Words(), now) && moments[0].memory == old(alloc.mem.Words())
      invariant forall i :: 0 <= i < n ==> Answered(family, calls, i, answers[i])
      invariant forall i :: 0 <= i < n ==> TakeAnswered(family, calls, i, answers[i])
    {
      assert calls[n..][1..] == calls[n + 1..];
      LegalCallFacts(now, calls[n]);
      AllWf(alloc, tables, now);
      InStatesFacts(alloc, tables, now);
      OneIsWf(now, calls[n].table);
      FamilyRunStep(family, calls, n);
      ghost var m := alloc.mem.Words();
      var answer := StepCall(alloc, tables, calls[n], now);
      CallHappens(m, alloc.mem.Words(), now, calls[n], answer);
      ViewsStep(now, family, calls, n);
      CallAnswered(now, family, calls, n, answer);
      AllocationAnswered(now, family, calls, n, answer);
      now := After(now, calls[n]);
      ghost var b := Moment(alloc.mem.Words(), now);
      FamilyTraceStep(moments, family, calls, n, answers, answer, b);
      answers, moments := answers + [answer], moments + [b];
      n := n + 1;
    }
    assert calls[..n] == calls;
  }

  // Call k does not write page p, release it, or erase a key that maps it.
  ghost predicate SparesPage(family: seq<State>, calls: seq<Call>, k: nat, p: nat)
    requires k < |calls|
  {
    && !(calls[k].op.Write? && calls[k].op.page == p)
    && !(calls[k].op.Release? && calls[k].op.page == p)
    && !(calls[k].op.Erase? && calls[k].table < |family|
         && var s := FamilyRun(family, calls[..k])[calls[k].table];
            KeyOf(calls[k].op.va) in s.dict && s.dict[KeyOf(calls[k].op.va)].page == p)
  }

  lemma SparesPageMeans(family: seq<State>, calls: seq<Call>, k: nat, p: nat)
    requires k < |calls| && calls[k].table < |family|
    ensures SparesPage(family, calls, k, p) <==>
      var s := FamilyRun(family, calls[..k])[calls[k].table];
      match calls[k].op
      case Write(q, _) => q != p
      case Release(q) => q != p
      case Erase(va) => KeyOf(va) in s.dict ==> s.dict[KeyOf(va)].page != p
      case _ => true
  {
  }

  lemma SparesPageDisturbs(family: seq<State>, calls: seq<Call>, k: nat, p: nat)
    requires k < |calls| && calls[k].table < |family| && SparesPage(family, calls, k, p)
    ensures !Disturbs(FamilyRun(family, calls[..k])[calls[k].table], calls[k].op, p)
  {
  }

  // Reads, whichever tables the calls are made on.
  lemma ReadsOfFamily(moments: seq<Moment>, family: seq<State>, calls: seq<Call>, answers: seq<int>)
    requires FamilyTrace(moments, family, calls, answers)
    ensures forall i, j ::
      (0 <= j < i < |calls| && calls[i].op.Read? && calls[j].op.Write? && calls[j].op.page == calls[i].op.page
       && forall k :: j < k < i ==> SparesPage(family, calls, k, calls[i].op.page)) ==>
        |calls[j].op.contents| == 512 && answers[i] == calls[j].op.contents[calls[i].op.i]
  {
    assert |moments| == |calls| + 1 && |answers| == |calls|;
    hide FamilyRun, Disturbs, SparesPage, Trace;
    forall i, j | 0 <= j < i < |calls| && calls[i].op.Read? && calls[j].op.Write?
      && calls[j].op.page == calls[i].op.page
      && (forall k :: j < k < i ==> SparesPage(family, calls, k, calls[i].op.page))
      ensures |calls[j].op.contents| == 512 && answers[i] == calls[j].op.contents[calls[i].op.i]
    {
      forall k | j < k < i
        ensures calls[k].table < |moments[k].family|
        ensures !Disturbs(moments[k].family[calls[k].table], calls[k].op, calls[j].op.page)
      {
        TableExists(moments, calls, answers, k);
        assert moments[k].family == FamilyRun(family, calls[..k]);
        SparesPageDisturbs(family, calls, k, calls[i].op.page);
      }
      ReadsLastWrite(moments, calls, answers, j, i);
    }
  }

  // Add, erase and lookup on one table, whatever is called on the others.
  lemma DictionaryOfFamily(moments: seq<Moment>, family: seq<State>, calls: seq<Call>, answers: seq<int>)
    requires FamilyTrace(moments, family, calls, answers)
    ensures forall i, j, u, n ::
      (0 <= j < i < |calls| && ConcernsOn(calls[i], u, n) && EntersOn(calls[j], answers[j], u, n)
       && forall k :: j < k < i ==> !ErasesOn(calls[k], u, n)) ==>
        answers[i] == IfPresent(calls[i].op, Or(calls[j].op.pa / 4096, calls[j].op.perm / 1024) * 4096)
    ensures forall i, j, u, n ::
      (0 <= j < i < |calls| && ConcernsOn(calls[i], u, n) && ErasesOn(calls[j], u, n)
       && forall k :: j < k < i ==> !EntersOn(calls[k], answers[k], u, n)) ==> answers[i] == IfAbsent(calls[i].op)
  {
    assert |answers| == |calls|;
    hide FamilyRun, Trace, Or, ConcernsOn, EntersOn, ErasesOn, IfPresent, IfAbsent;
    forall i, j, u, n | 0 <= j < i < |calls| && ConcernsOn(calls[i], u, n) && EntersOn(calls[j], answers[j], u, n)
      && (forall k :: j < k < i ==> !ErasesOn(calls[k], u, n))
      ensures calls[j].op.Add?
      ensures answers[i] == IfPresent(calls[i].op, Or(calls[j].op.pa / 4096, calls[j].op.perm / 1024) * 4096)
    {
      OnTableMeans(calls[j], answers[j], u, n);
      AfterAdd(moments, calls, answers, j, i, u, n);
    }
    forall i, j, u, n | 0 <= j < i < |calls| && ConcernsOn(calls[i], u, n) && ErasesOn(calls[j], u, n)
      && (forall k :: j < k < i ==> !EntersOn(calls[k], answers[k], u, n))
      ensures answers[i] == IfAbsent(calls[i].op)
    {
      AfterErase(moments, calls, answers, j, i, u, n);
    }
  }

  // Any sequence of calls on any tables of the family: every table has the contents and gives
  // the answers of the plain dictionary after its own calls alone, and a read returns what
  // the last write stored, whichever table either was made through.
  method Execute(alloc: PageAllocator, tables: seq<PageTable>, calls: seq<Call>, ghost family: seq<State>)
    returns (answers: seq<int>)
    requires InStates(alloc, tables, family) && LegalCalls(family, calls)
    modifies tables, alloc, alloc.mem.bytes
    ensures Family(alloc, set t | t in tables)
    ensures forall j :: 0 <= j < |tables| ==> tables[j].s == FamilyRun(family, calls)[j]
    ensures forall j :: 0 <= j < |tables| ==> View(tables[j].s) == PlainRun(View(family[j]), Own(calls, j))
    ensures |answers| == |calls|
    ensures forall i :: 0 <= i < |calls| ==> Answered(family, calls, i, answers[i])
    ensures forall i :: 0 <= i < |calls| ==> TakeAnswered(family, calls, i, answers[i])
    ensures forall i, j, u, n ::
      (0 <= j < i < |calls| && ConcernsOn(calls[i], u, n) && EntersOn(calls[j], answers[j], u, n)
       && forall k :: j < k < i ==> !ErasesOn(calls[k], u, n)) ==>
        answers[i] == IfPresent(calls[i].op, Or(calls[j].op.pa / 4096, calls[j].op.perm / 1024) * 4096)
    ensures forall i, j, u, n ::
      (0 <= j < i < |calls| && ConcernsOn(calls[i], u, n) && ErasesOn(calls[j], u, n)
       && forall k :: j < k < i ==> !EntersOn(calls[k], answers[k], u, n)) ==> answers[i] == IfAbsent(calls[i].op)
    ensures forall i, j ::
      (0 <= j < i < |calls| && calls[i].op.Read? && calls[j].op.Write? && calls[j].op.page == calls[i].op.page
       && forall k :: j < k < i ==> SparesPage(family, calls, k, calls[i].op.page)) ==>
        |calls[j].op.contents| == 512 && answers[i] == calls[j].op.contents[calls[i].op.i]
  {
    hide *;
    ghost var moments;
    answers, moments := Perform(alloc, tables, calls, family);
    InStatesFacts(alloc, tables, FamilyRun(family, calls));
    ViewsFacts(FamilyRun(family, calls), family, calls);
    ReadsOfFamily(moments, family, calls, answers);
    DictionaryOfFamily(moments, family, calls, answers);
  }

  lemma InStatesFacts(alloc: PageAllocator, tables: seq<PageTable>, family: seq<State>)
    requires InStates(alloc, tables, family)
    ensures |family| == |tables| && Family(alloc, set t | t in tables)
    ensures forall j :: 0 <= j < |tables| ==> tables[j].s == family[j]
  {
  }

  lemma ViewsFacts(family: seq<State>, before: seq<State>, calls: seq<Call>)
    requires Views(family, before, calls)
    ensures |before| == |family|
    ensures forall j :: 0 <= j < |family| ==> View(family[j]) == PlainRun(View(before[j]), Own(calls, j))
  {
  }
}
