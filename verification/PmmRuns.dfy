// Whole runs of the page allocator: the free list behaves as a stack and no page is handed
// out twice without being freed in between.
module PageAllocationRuns {
  import opened PhysicalMemory
  import opened PageAllocation
  import opened Sequences

  datatype Op = AllocPage | FreePage(page: nat)

  // The effect of the two methods of PageAllocator on the list, and what alloc_page returns.
  function Step(free: seq<nat>, op: Op): seq<nat> {
    match op
    case AllocPage => if free == [] then [] else free[1..]
    case FreePage(p) => [p] + free
  }

  function Result(free: seq<nat>): nat {
    if free == [] then 0 else free[0]
  }

  // A free is legal when the page is not already in the list.
  predicate Legal(free: seq<nat>, op: Op) {
    op.FreePage? ==> op.page > 0 && op.page !in free
  }

  function Run(free: seq<nat>, ops: seq<Op>): seq<nat> {
    if ops == [] then free else Step(Run(free, ops[..|ops| - 1]), ops[|ops| - 1])
  }

  ghost predicate LegalRun(free: seq<nat>, ops: seq<Op>) {
    forall i :: 0 <= i < |ops| ==> Legal(Run(free, ops[..i]), ops[i])
  }

  ghost predicate NonNull(free: seq<nat>) {
    forall p :: p in free ==> p > 0
  }

  lemma RunStep(free: seq<nat>, ops: seq<Op>, i: nat)
    requires i < |ops|
    ensures Run(free, ops[..i + 1]) == Step(Run(free, ops[..i]), ops[i])
  {
    assert ops[..i + 1][..i] == ops[..i];
  }

  // The list along a run: alloc_page drops its head, free_page puts a page in front.
  lemma RunMeans(free: seq<nat>, ops: seq<Op>, i: nat)
    requires i < |ops|
    ensures Run(free, ops[..0]) == free
    ensures ops[i].AllocPage? && Run(free, ops[..i]) == [] ==> Run(free, ops[..i + 1]) == []
    ensures ops[i].AllocPage? && Run(free, ops[..i]) != [] ==> Run(free, ops[..i + 1]) == Run(free, ops[..i])[1..]
    ensures ops[i].FreePage? ==> Run(free, ops[..i + 1]) == [ops[i].page] + Run(free, ops[..i])
  {
    RunStep(free, ops, i);
  }

  // Every legal run keeps the list free of duplicates and of NULL.
  lemma {:induction false} RunDistinct(free: seq<nat>, ops: seq<Op>, i: nat)
    requires Distinct(free) && NonNull(free) && LegalRun(free, ops) && i <= |ops|
    ensures Distinct(Run(free, ops[..i])) && NonNull(Run(free, ops[..i]))
  {
    if i == 0 {
      assert ops[..0] == [];
    } else {
      RunDistinct(free, ops, i - 1);
      RunStep(free, ops, i - 1);
      var f := Run(free, ops[..i - 1]);
      assert Legal(f, ops[i - 1]);
      StepDistinct(f, ops[i - 1]);
    }
  }

  lemma StepDistinct(free: seq<nat>, op: Op)
    requires Distinct(free) && NonNull(free) && Legal(free, op)
    ensures Distinct(Step(free, op)) && NonNull(Step(free, op))
  {
    var t := Step(free, op);
    if op.FreePage? { PushDistinct(free, op.page); }
    forall p | p in t ensures p > 0 {
      assert p in free || (op.FreePage? && p == op.page);
    }
  }

  // A page that is not in the list after i steps is not in it after j steps either, unless
  // it was freed in between.
  lemma {:induction false} StaysOut(free: seq<nat>, ops: seq<Op>, i: nat, j: nat, p: nat)
    requires i <= j <= |ops|
    requires p !in Run(free, ops[..i])
    requires forall k :: i <= k < j ==> ops[k] != FreePage(p)
    ensures p !in Run(free, ops[..j])
  {
    if i < j {
      StaysOut(free, ops, i, j - 1, p);
      RunStep(free, ops, j - 1);
    }
  }

  // Two alloc_page calls return the same page only if it was freed between them.
  lemma NoDoubleHandOut(free: seq<nat>, ops: seq<Op>, i: nat, j: nat)
    requires Distinct(free) && NonNull(free) && LegalRun(free, ops)
    requires i < j < |ops| && ops[i].AllocPage? && ops[j].AllocPage?
    requires Result(Run(free, ops[..i])) == Result(Run(free, ops[..j])) != 0
    ensures exists k :: i < k < j && ops[k] == FreePage(Result(Run(free, ops[..i])))
  {
    var p := Result(Run(free, ops[..i]));
    RunDistinct(free, ops, i);
    RunStep(free, ops, i);
    assert p !in Run(free, ops[..i + 1]);
    assert p in Run(free, ops[..j]);
    if forall k :: i + 1 <= k < j ==> ops[k] != FreePage(p) {
      StaysOut(free, ops, i + 1, j, p);
      assert false;
    }
  }

  // Stack discipline: as long as the list never gets shorter than it was, its old contents
  // stay at the bottom in their old order.
  lemma {:induction false} StackDiscipline(free: seq<nat>, ops: seq<Op>)
    requires forall i :: 0 <= i <= |ops| ==> |Run(free, ops[..i])| >= |free|
    ensures |Run(free, ops)| >= |free|
    ensures Run(free, ops)[|Run(free, ops)| - |free|..] == free
  {
    assert ops[..|ops|] == ops;
    if ops == [] {
      assert Run(free, ops) == free;
    } else {
      var n := |ops| - 1;
      var shorter := ops[..n];
      forall i | 0 <= i <= n ensures |Run(free, shorter[..i])| >= |free| {
        assert shorter[..i] == ops[..i];
      }
      StackDiscipline(free, shorter);
      var f, g := Run(free, shorter), Run(free, ops);
      if ops[n].AllocPage? && f != [] { assert g[|g| - |free|..] == f[|f| - |free|..]; }
      if ops[n].FreePage? { assert g[|g| - |free|..] == f[|f| - |free|..]; }
    }
  }

  lemma {:induction false} RunJoin(free: seq<nat>, a: seq<Op>, b: seq<Op>)
    ensures Run(free, a + b) == Run(Run(free, a), b)
  {
    if b == [] {
      assert a + b == a;
    } else {
      var n := |b| - 1;
      RunJoin(free, a, b[..n]);
      assert (a + b)[..|a + b| - 1] == a + b[..n];
    }
  }

  // Last in, first out: when since a free_page the list was never shorter than right after
  // it, and is as long now, then alloc_page returns the page that was freed.
  lemma LastFreedFirstOut(free: seq<nat>, ops: seq<Op>, j: nat, i: nat)
    requires j < i <= |ops| && ops[j].FreePage?
    requires forall k :: j < k <= i ==> |Run(free, ops[..k])| >= |Run(free, ops[..j + 1])|
    requires |Run(free, ops[..i])| == |Run(free, ops[..j + 1])|
    ensures Run(free, ops[..i]) == Run(free, ops[..j + 1]) && Result(Run(free, ops[..i])) == ops[j].page
  {
    var f, between := Run(free, ops[..j + 1]), ops[j + 1..i];
    forall k | 0 <= k <= |between| ensures |Run(f, between[..k])| >= |f| {
      RunJoin(free, ops[..j + 1], between[..k]);
      assert ops[..j + 1] + between[..k] == ops[..j + 1 + k];
    }
    RunJoin(free, ops[..j + 1], between);
    assert ops[..j + 1] + between == ops[..i];
    StackDiscipline(f, between);
    RunMeans(free, ops, j);
  }

  method ExecuteStep(a: PageAllocator, op: Op) returns (result: nat)
    requires a.Valid() && Legal(a.free, op) && (op.FreePage? ==> op.page < PAGES)
    modifies a, a.mem.bytes
    ensures a.Valid() && a.free == Step(old(a.free), op)
    ensures op.AllocPage? ==> result == Result(old(a.free)) * 4096
  {
    hide FreeList;
    match op {
      case AllocPage => result := a.AllocPage();
      case FreePage(p) =>
        a.FreePage(p * 4096, p);
        result := 0;
    }
  }

  // What the first calls of alloc_page returned.
  ghost predicate Answers(free: seq<nat>, ops: seq<Op>, results: seq<nat>) {
    && |results| <= |ops|
    && forall i :: 0 <= i < |results| && ops[i].AllocPage? ==> results[i] == Result(Run(free, ops[..i])) * 4096
  }

  lemma OneMoreAnswer(free: seq<nat>, ops: seq<Op>, results: seq<nat>, r: nat)
    requires Answers(free, ops, results) && |results| < |ops|
    requires ops[|results|].AllocPage? ==> r == Result(Run(free, ops[..|results|])) * 4096
    ensures Answers(free, ops, results + [r])
  {
  }

  // alloc_page and free_page on the real list follow these steps for every legal sequence.
  method Execute(a: PageAllocator, ops: seq<Op>) returns (results: seq<nat>)
    requires a.Valid() && LegalRun(a.free, ops)
    requires forall i :: 0 <= i < |ops| && ops[i].FreePage? ==> ops[i].page < PAGES
    modifies a, a.mem.bytes
    ensures a.Valid() && a.free == Run(old(a.free), ops)
    ensures |results| == |ops| && Answers(old(a.free), ops, results)
    ensures forall i :: 0 <= i < |ops| && ops[i].AllocPage? ==>
      results[i] == if Run(old(a.free), ops[..i]) == [] then 0 else Run(old(a.free), ops[..i])[0] * 4096
  {
    results := [];
    ghost var free := a.free;
    var n := 0;
    assert Run(free, ops[..0]) == free;
    hide FreeList, Step, Result, Run, Legal, WordsOf, Link;
    while n < |ops|
      invariant 0 <= n <= |ops| && |results| == n
      invariant a.Valid() && a.free == Run(free, ops[..n])
      invariant Answers(free, ops, results)
    {
      RunStep(free, ops, n);
      assert Legal(Run(free, ops[..n]), ops[n]);
      var result := ExecuteStep(a, ops[n]);
      OneMoreAnswer(free, ops, results, result);
      results := results + [result];
      n := n + 1;
    }
    assert ops[..n] == ops;
    AnswersMean(free, ops, results);
  }

  lemma AnswersMean(free: seq<nat>, ops: seq<Op>, results: seq<nat>)
    requires Answers(free, ops, results)
    ensures forall i :: 0 <= i < |results| && ops[i].AllocPage? ==>
      results[i] == if Run(free, ops[..i]) == [] then 0 else Run(free, ops[..i])[0] * 4096
  {
  }
}
