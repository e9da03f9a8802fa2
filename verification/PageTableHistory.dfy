// What the answers of a whole sequence of calls on one or several page tables say about each
// other, in terms of the calls and answers alone: a lookup returns what the last add entered,
// a read returns what the last write stored.
module PageTableHistory {
  import opened Bits
  import opened PageTableState
  import opened PageTableEntry
  import opened PageTableRuns

  // An operation on one of the tables.
  datatype Call = Call(table: nat, op: Op)

  // The memory and the state of every table between two calls.
  datatype Moment = Moment(memory: seq<uint64>, family: seq<State>)

  // The page is held or mapped in the eyes of every table.
  ghost predicate ContentInAll(family: seq<State>, p: nat) {
    forall j :: 0 <= j < |family| ==> ContentPage(family[j], p)
  }

  ghost predicate PageHolds(m: seq<uint64>, p: nat, words: seq<uint64>)
    requires |words| == 512
  {
    forall i: Index :: At(m, p, i) == words[i]
  }

  // The call writes the page or takes it away from its user.
  ghost predicate Disturbs(s: State, op: Op, p: nat) {
    || (op.Write? && op.page == p)
    || (op.Release? && op.page == p)
    || (op.Erase? && KeyOf(op.va) in s.dict && s.dict[KeyOf(op.va)].page == p)
  }

  ghost predicate KeepsContents(a: Moment, c: Call, b: Moment)
    requires c.table < |a.family|
  {
    forall p :: ContentInAll(a.family, p) && !Disturbs(a.family[c.table], c.op, p) ==>
      ContentInAll(b.family, p) && forall i: Index :: At(b.memory, p, i) == At(a.memory, p, i)
  }

  ghost predicate Answers(a: Moment, c: Call, answer: int, b: Moment)
    requires c.table < |a.family|
  {
    && (c.op.Write? ==>
          |c.op.contents| == 512 && ContentInAll(b.family, c.op.page) && PageHolds(b.memory, c.op.page, c.op.contents))
    && (c.op.Read? ==> answer == At(a.memory, c.op.page, c.op.i))
    && (OnDictionary(c.op) ==> answer == PlainAnswer(View(a.family[c.table]), c.op))
  }

  ghost predicate PlainStep(a: Moment, c: Call, b: Moment)
    requires c.table < |a.family|
  {
    && |b.family| == |a.family|
    && forall t :: 0 <= t < |a.family| ==>
         View(b.family[t]) == if t == c.table then PlainNext(View(a.family[t]), c.op) else View(a.family[t])
  }

  ghost predicate Happens(a: Moment, c: Call, answer: int, b: Moment) {
    c.table < |a.family| && KeepsContents(a, c, b) && Answers(a, c, answer, b) && PlainStep(a, c, b)
  }

  lemma HappensFrom(a: Moment, c: Call, answer: int, b: Moment)
    requires c.table < |a.family| && KeepsContents(a, c, b) && PlainStep(a, c, b)
    requires c.op.Write? ==>
      |c.op.contents| == 512 && ContentInAll(b.family, c.op.page) && PageHolds(b.memory, c.op.page, c.op.contents)
    requires c.op.Read? ==> answer == At(a.memory, c.op.page, c.op.i)
    requires OnDictionary(c.op) ==> answer == PlainAnswer(View(a.family[c.table]), c.op)
    ensures Happens(a, c, answer, b)
  {
  }

  // A history: the moments before and after each call.
  ghost predicate Trace(moments: seq<Moment>, calls: seq<Call>, answers: seq<int>) {
    && |moments| == |calls| + 1 && |answers| == |calls|
    && forall k :: 0 <= k < |calls| ==> Happens(moments[k], calls[k], answers[k], moments[k + 1])
  }

  lemma LongerTrace(moments: seq<Moment>, calls: seq<Call>, answers: seq<int>, c: Call, answer: int, b: Moment)
    requires Trace(moments, calls, answers) && Happens(moments[|calls|], c, answer, b)
    ensures Trace(moments + [b], calls + [c], answers + [answer])
  {
    hide Happens;
    var ms, cs, xs := moments + [b], calls + [c], answers + [answer];
    forall k | 0 <= k < |cs| ensures Happens(ms[k], cs[k], xs[k], ms[k + 1]) {
      if k < |calls| { assert Happens(moments[k], calls[k], answers[k], moments[k + 1]); }
    }
  }

  // --- Contents of pages ---

  lemma {:induction false} Undisturbed(moments: seq<Moment>, calls: seq<Call>, answers: seq<int>,
                                       j: nat, i: nat, p: nat)
    requires Trace(moments, calls, answers) && j <= i <= |calls| && ContentInAll(moments[j].family, p)
    requires forall k :: j <= k < i ==> calls[k].table < |moments[k].family|
    requires forall k :: j <= k < i ==> !Disturbs(moments[k].family[calls[k].table], calls[k].op, p)
    ensures ContentInAll(moments[i].family, p)
    ensures forall x: Index :: At(moments[i].memory, p, x) == At(moments[j].memory, p, x)
  {
    hide Disturbs, At, ContentInAll;
    if i == j {
      assert moments[i] == moments[j];
    } else {
      Undisturbed(moments, calls, answers, j, i - 1, p);
      assert Happens(moments[i - 1], calls[i - 1], answers[i - 1], moments[i]);
    }
  }

  // A page that is not disturbed after it was written reads as it was written.
  lemma ReadsLastWrite(moments: seq<Moment>, calls: seq<Call>, answers: seq<int>, j: nat, i: nat)
    requires Trace(moments, calls, answers) && j < i < |calls|
    requires calls[j].op.Write? && calls[i].op.Read? && calls[i].op.page == calls[j].op.page
    requires forall k :: j < k < i ==> calls[k].table < |moments[k].family|
    requires forall k :: j < k < i ==> !Disturbs(moments[k].family[calls[k].table], calls[k].op, calls[j].op.page)
    ensures |calls[j].op.contents| == 512 && answers[i] == calls[j].op.contents[calls[i].op.i]
  {
    hide Disturbs, At, ContentInAll, KeepsContents, PlainStep;
    assert Happens(moments[j], calls[j], answers[j], moments[j + 1]);
    assert Happens(moments[i], calls[i], answers[i], moments[i + 1]);
    Undisturbed(moments, calls, answers, j + 1, i, calls[j].op.page);
  }

  // A page that was never disturbed reads as at the start.
  lemma ReadsStart(moments: seq<Moment>, calls: seq<Call>, answers: seq<int>, i: nat)
    requires Trace(moments, calls, answers) && i < |calls| && calls[i].op.Read?
    requires ContentInAll(moments[0].family, calls[i].op.page)
    requires forall k :: 0 <= k < i ==> calls[k].table < |moments[k].family|
    requires forall k :: 0 <= k < i ==> !Disturbs(moments[k].family[calls[k].table], calls[k].op, calls[i].op.page)
    ensures answers[i] == At(moments[0].memory, calls[i].op.page, calls[i].op.i)
  {
    hide Disturbs, At, ContentInAll, KeepsContents, PlainStep;
    assert Happens(moments[i], calls[i], answers[i], moments[i + 1]);
    Undisturbed(moments, calls, answers, 0, i, calls[i].op.page);
  }

  // --- The dictionary ---

  // The operation is about page number n.
  predicate Concerns(op: Op, n: nat) {
    OnDictionary(op) && op.va / 4096 % 0x800_0000 == n
  }

  // It enters page number n: an add that finds it absent, with V in its flags.
  predicate Enters(op: Op, answer: int, n: nat) {
    op.Add? && Concerns(op, n) && answer == 0 && op.perm % 2 == 1
  }

  predicate Erases(op: Op, n: nat) {
    op.Erase? && Concerns(op, n)
  }

  lemma KindsMean(op: Op, answer: int, n: nat)
    ensures Concerns(op, n) <==> (op.Add? || op.Erase? || op.Lookup?) && op.va / 4096 % 0x800_0000 == n
    ensures Enters(op, answer, n) <==>
      op.Add? && op.va / 4096 % 0x800_0000 == n && answer == 0 && op.perm % 2 == 1
    ensures Erases(op, n) <==> op.Erase? && op.va / 4096 % 0x800_0000 == n
  {
  }

  // The same on table u.
  predicate EntersOn(c: Call, answer: int, u: nat, n: nat) {
    c.table == u && Enters(c.op, answer, n)
  }

  predicate ErasesOn(c: Call, u: nat, n: nat) {
    c.table == u && Erases(c.op, n)
  }

  predicate ConcernsOn(c: Call, u: nat, n: nat) {
    c.table == u && Concerns(c.op, n)
  }

  lemma OnTableMeans(c: Call, answer: int, u: nat, n: nat)
    ensures EntersOn(c, answer, u, n) <==>
      c.table == u && c.op.Add? && c.op.va / 4096 % 0x800_0000 == n && answer == 0 && c.op.perm % 2 == 1
    ensures ErasesOn(c, u, n) <==> c.table == u && c.op.Erase? && c.op.va / 4096 % 0x800_0000 == n
    ensures ConcernsOn(c, u, n) <==>
      c.table == u && (c.op.Add? || c.op.Erase? || c.op.Lookup?) && c.op.va / 4096 % 0x800_0000 == n
  {
  }

  lemma PlainStepAt(a: Moment, c: Call, answer: int, b: Moment, u: nat, n: nat)
    requires Happens(a, c, answer, b) && u < |a.family|
    ensures u < |b.family|
    ensures EntersOn(c, answer, u, n) ==>
      n !in View(a.family[u]) && n in View(b.family[u]) && View(b.family[u])[n] == Stored(c.op.pa, c.op.perm)
    ensures ErasesOn(c, u, n) ==> n !in View(b.family[u])
    ensures !EntersOn(c, answer, u, n) && !ErasesOn(c, u, n) ==>
      && (n in View(b.family[u]) <==> n in View(a.family[u]))
      && (n in View(b.family[u]) ==> View(b.family[u])[n] == View(a.family[u])[n])
    ensures n in View(a.family[u]) && !ErasesOn(c, u, n) ==>
      n in View(b.family[u]) && View(b.family[u])[n] == View(a.family[u])[n]
  {
    hide View, Stored, KeepsContents;
  }

  // Once present, present with the same mapping until erased.
  lemma {:induction false} StaysPresent(moments: seq<Moment>, calls: seq<Call>, answers: seq<int>,
                                        j: nat, i: nat, u: nat, n: nat)
    requires Trace(moments, calls, answers) && j <= i <= |calls|
    requires u < |moments[j].family| && n in View(moments[j].family[u])
    requires forall k :: j <= k < i ==> !ErasesOn(calls[k], u, n)
    ensures u < |moments[i].family| && n in View(moments[i].family[u])
    ensures View(moments[i].family[u])[n] == View(moments[j].family[u])[n]
  {
    hide View, ErasesOn, EntersOn, Happens;
    if i == j {
      assert moments[i] == moments[j];
    } else {
      StaysPresent(moments, calls, answers, j, i - 1, u, n);
      assert Happens(moments[i - 1], calls[i - 1], answers[i - 1], moments[i]);
      PlainStepAt(moments[i - 1], calls[i - 1], answers[i - 1], moments[i], u, n);
    }
  }

  // Once absent, absent until entered.
  lemma {:induction false} StaysAbsent(moments: seq<Moment>, calls: seq<Call>, answers: seq<int>,
                                       j: nat, i: nat, u: nat, n: nat)
    requires Trace(moments, calls, answers) && j <= i <= |calls|
    requires u < |moments[j].family| && n !in View(moments[j].family[u])
    requires forall k :: j <= k < i ==> !EntersOn(calls[k], answers[k], u, n)
    ensures u < |moments[i].family| && n !in View(moments[i].family[u])
  {
    hide View, ErasesOn, EntersOn, Happens;
    if i == j {
      assert moments[i] == moments[j];
    } else {
      StaysAbsent(moments, calls, answers, j, i - 1, u, n);
      assert Happens(moments[i - 1], calls[i - 1], answers[i - 1], moments[i]);
      PlainStepAt(moments[i - 1], calls[i - 1], answers[i - 1], moments[i], u, n);
    }
  }

  // The answers to calls on a present and on an absent page number.
  lemma AnswersAt(a: Moment, c: Call, answer: int, b: Moment, u: nat, n: nat)
    requires Happens(a, c, answer, b) && ConcernsOn(c, u, n)
    ensures u < |a.family|
    ensures n in View(a.family[u]) ==> answer == IfPresent(c.op, View(a.family[u])[n].page * 4096)
    ensures n !in View(a.family[u]) ==> answer == IfAbsent(c.op)
  {
    hide View, KeepsContents, PlainStep;
  }

  // What add, erase and lookup answer for a page number mapped to an address, and for one
  // that is absent.
  function IfPresent(op: Op, address: int): int {
    match op case Add(_, _, _) => -1 case Erase(_) => 0 case _ => address
  }

  function IfAbsent(op: Op): int {
    match op case Add(_, _, _) => 0 case Erase(_) => -1 case _ => 0
  }

  lemma AnswersMean(va: uint64, pa: uint64, perm: uint64, address: int)
    ensures IfPresent(Add(va, pa, perm), address) == -1 && IfAbsent(Add(va, pa, perm)) == 0
    ensures IfPresent(Erase(va), address) == 0 && IfAbsent(Erase(va)) == -1
    ensures IfPresent(Lookup(va), address) == address && IfAbsent(Lookup(va)) == 0
  {
  }

  // --- Laws of a history, in calls and answers ---

  // After an add that entered a page number, until it is erased.
  lemma AfterAdd(moments: seq<Moment>, calls: seq<Call>, answers: seq<int>, j: nat, i: nat, u: nat, n: nat)
    requires Trace(moments, calls, answers) && j < i < |calls|
    requires EntersOn(calls[j], answers[j], u, n) && ConcernsOn(calls[i], u, n)
    requires forall k :: j < k < i ==> !ErasesOn(calls[k], u, n)
    ensures answers[i] == IfPresent(calls[i].op, Or(calls[j].op.pa / 4096, calls[j].op.perm / 1024) * 4096)
  {
    TableExists(moments, calls, answers, j);
    hide View, Or, Stored, Happens, ErasesOn, ConcernsOn, IfPresent, IfAbsent;
    assert Happens(moments[j], calls[j], answers[j], moments[j + 1]);
    assert Happens(moments[i], calls[i], answers[i], moments[i + 1]);
    PlainStepAt(moments[j], calls[j], answers[j], moments[j + 1], u, n);
    StaysPresent(moments, calls, answers, j + 1, i, u, n);
    AnswersAt(moments[i], calls[i], answers[i], moments[i + 1], u, n);
    StoredParts(calls[j].op.pa, calls[j].op.perm);
  }

  lemma TableExists(moments: seq<Moment>, calls: seq<Call>, answers: seq<int>, j: nat)
    requires Trace(moments, calls, answers) && j < |calls|
    ensures calls[j].table < |moments[j].family| == |moments[j + 1].family|
  {
    assert Happens(moments[j], calls[j], answers[j], moments[j + 1]);
  }

  // After an erase, until the page number is entered again.
  lemma AfterErase(moments: seq<Moment>, calls: seq<Call>, answers: seq<int>, j: nat, i: nat, u: nat, n: nat)
    requires Trace(moments, calls, answers) && j < i < |calls|
    requires ErasesOn(calls[j], u, n) && ConcernsOn(calls[i], u, n)
    requires forall k :: j < k < i ==> !EntersOn(calls[k], answers[k], u, n)
    ensures answers[i] == IfAbsent(calls[i].op)
  {
    TableExists(moments, calls, answers, j);
    hide View, Happens, EntersOn, ConcernsOn, IfPresent, IfAbsent;
    assert Happens(moments[j], calls[j], answers[j], moments[j + 1]);
    assert Happens(moments[i], calls[i], answers[i], moments[i + 1]);
    PlainStepAt(moments[j], calls[j], answers[j], moments[j + 1], u, n);
    StaysAbsent(moments, calls, answers, j + 1, i, u, n);
    AnswersAt(moments[i], calls[i], answers[i], moments[i + 1], u, n);
  }

  // Present from the start, until erased.
  lemma PresentFromStart(moments: seq<Moment>, calls: seq<Call>, answers: seq<int>, i: nat, u: nat, n: nat)
    requires Trace(moments, calls, answers) && i < |calls| && ConcernsOn(calls[i], u, n)
    requires u < |moments[0].family| && n in View(moments[0].family[u])
    requires forall k :: 0 <= k < i ==> !ErasesOn(calls[k], u, n)
    ensures answers[i] == IfPresent(calls[i].op, View(moments[0].family[u])[n].page * 4096)
  {
    hide View, Happens, ErasesOn, ConcernsOn, IfPresent, IfAbsent;
    assert Happens(moments[i], calls[i], answers[i], moments[i + 1]);
    StaysPresent(moments, calls, answers, 0, i, u, n);
    AnswersAt(moments[i], calls[i], answers[i], moments[i + 1], u, n);
  }

  // Absent from the start, until entered.
  lemma AbsentFromStart(moments: seq<Moment>, calls: seq<Call>, answers: seq<int>, i: nat, u: nat, n: nat)
    requires Trace(moments, calls, answers) && i < |calls| && ConcernsOn(calls[i], u, n)
    requires u < |moments[0].family| && n !in View(moments[0].family[u])
    requires forall k :: 0 <= k < i ==> !EntersOn(calls[k], answers[k], u, n)
    ensures answers[i] == IfAbsent(calls[i].op)
  {
    hide View, Happens, EntersOn, ConcernsOn, IfPresent, IfAbsent;
    assert Happens(moments[i], calls[i], answers[i], moments[i + 1]);
    StaysAbsent(moments, calls, answers, 0, i, u, n);
    AnswersAt(moments[i], calls[i], answers[i], moments[i + 1], u, n);
  }
}
