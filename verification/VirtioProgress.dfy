// Progress of the block driver: as long as a request is under way some step other than a
// new submission is enabled, each such step does a bounded amount of the remaining work,
// and when none is left every descriptor is free.
module VirtioProgress {
  import opened Sequences
  import opened VirtioProtocol
  import opened VirtioSteps
  import opened VirtioRuns

  // The stores that the latest submission still has to make.
  function StoresLeft(p: Phase): nat {
    match p
    case Idle => 0
    case Allocated => 3
    case Filled => 2
    case Placed => 1
  }

  // For each request: to be read, to be completed, to be handled, to be freed.
  function Work(h: History): int {
    StoresLeft(h.phase) + (|h.reqs| - h.taken) + (|h.reqs| - |h.done|) + (|h.reqs| - h.handled) + |h.live|
  }

  // Steps that neither submit a request nor try to.
  predicate Serves(step: Step) {
    !step.BeginStep? && !step.RetryStep?
  }

  // --- Some step is enabled ---

  // The step that serves a live request n next.
  function Serving(s: State, n: nat): Step {
    match s.h.phase
    case Allocated => FillStep
    case Filled => PlaceStep
    case Placed => PublishStep
    case Idle =>
      if s.h.taken < |s.h.reqs| then TakeStep
      else if n !in s.h.done then CompleteStep(n)
      else if s.h.handled < |s.h.done| then HandleStep
      else FinishStep(n)
  }

  lemma StoreEnabled(s: State, n: nat)
    requires Inv(s) && s.h.phase != Idle
    ensures Enabled(s, Serving(s, n))
  {
    LatestIsLive(s.h);
  }

  lemma DoneIsHandled(s: State, n: nat)
    requires Inv(s) && n in s.h.live && n in s.h.done && s.h.handled >= |s.h.done| && s.h.phase == Idle
    ensures CanFinish(s, n)
  {
    assert s.h.done[..s.h.handled] == s.h.done;
    assert Formed(s.h, n);
  }

  lemma ServingEnabled(s: State, n: nat)
    requires Inv(s) && n in s.h.live
    ensures Enabled(s, Serving(s, n)) && Serves(Serving(s, n))
  {
    if s.h.phase != Idle {
      StoreEnabled(s, n);
    } else {
      LiveFacts(s, n);
      TakeExact(s);
      HandleExact(s);
      if n in s.h.done && s.h.handled >= |s.h.done| { DoneIsHandled(s, n); }
      hide Inv;
    }
  }

  lemma LiveFacts(s: State, n: nat)
    requires Inv(s) && n in s.h.live
    ensures Shaped(s.disk) && |s.h.slot| == 8 && n < |s.h.reqs|
    ensures s.h.phase == Idle ==> Published(s.h) == |s.h.reqs|
    ensures Pending(s.disk) ==> s.disk.usedRing[s.disk.usedIdx] < 8
  {
    HandleExact(s);
  }

  // --- Each step does one unit of work ---

  lemma StepWorks(s: State, step: Step, t: State)
    requires Next(s, step, t) && !step.BeginStep?
    ensures Work(t.h) == if step.RetryStep? then Work(s.h) else Work(s.h) - 1
  {
    match step {
      case FillStep | PlaceStep | PublishStep => StoreWorks(s, step, t);
      case TakeStep => assert t.h.taken == s.h.taken + 1;
      case CompleteStep(n) => CompleteWorks(s, n);
      case HandleStep => assert t.h.handled == s.h.handled + 1;
      case FinishStep(n) => assert |s.h.live - {n}| == |s.h.live| - 1;
      case RetryStep => assert t.h == s.h;
    }
  }

  lemma StoreWorks(s: State, step: Step, t: State)
    requires Next(s, step, t) && (step.FillStep? || step.PlaceStep? || step.PublishStep?)
    ensures Work(t.h) == Work(s.h) - 1
  {
  }

  lemma CompleteWorks(s: State, n: nat)
    requires Shaped(s.disk) && n < |s.h.reqs|
    ensures Work(Complete(s, n).h) == Work(s.h) - 1
  {
  }

  // --- The work that is left tells when all is done ---

  lemma WorkBounds(s: State)
    requires Inv(s)
    ensures Work(s.h) >= |s.h.live| >= 0
    ensures s.h.live == {} ==> Work(s.h) == 0
  {
    OrderFacts(s);
    if s.h.live == {} { NoneLive(s.h); }
  }

  lemma OrderFacts(s: State)
    requires Inv(s)
    ensures OrderInv(s.h) && s.h.handled <= |s.h.done| <= |s.h.reqs| && s.h.taken <= |s.h.reqs|
  {
    DistinctInSet(s.h.done, Elements(s.h.done));
    BoundedSet(Elements(s.h.done), |s.h.reqs|);
  }

  lemma NoneLive(h: History)
    requires OrderInv(h) && h.live == {} && |h.done| <= |h.reqs|
    ensures h.phase == Idle && h.taken == |h.done| == h.handled == |h.reqs|
  {
    assert h.handled <= |h.done| && h.taken <= |h.reqs|;
    forall n: nat | n < |h.reqs| ensures n in h.done[..h.handled] { assert n !in h.live; }
    CoveringIsLong(h.done[..h.handled], |h.reqs|);
    if h.phase != Idle { LatestIsLive(h); }
    UnreadAreLive(h);
    assert h.taken < |h.reqs| ==> h.taken in h.live;
  }

  lemma NothingInUse(s: State)
    requires Inv(s) && s.h.live == {}
    ensures Shaped(s.disk) && forall d: Idx :: s.disk.free[d]
  {
  }

  // --- Over runs ---

  // At every point of every run, some step other than a new submission is enabled exactly
  // when some request is under way.
  lemma Progress(states: seq<State>, steps: seq<Step>, i: nat)
    requires IsRun(states, steps) && i < |states|
    ensures (exists step :: Serves(step) && Enabled(states[i], step)) <==> states[i].h.live != {}
  {
    var s := states[i];
    hide Enabled, Inv;
    RunInv(states, steps, i);
    if s.h.live != {} {
      var n :| n in s.h.live;
      ServingEnabled(s, n);
    }
    forall step | Serves(step) && Enabled(s, step) ensures s.h.live != {} { ServesSomeone(s, step); }
  }

  // A step that serves would leave less than no work if no request were under way.
  lemma ServesSomeone(s: State, step: Step)
    requires Inv(s) && Serves(step) && Enabled(s, step)
    ensures s.h.live != {}
  {
    hide Inv, Enabled, Apply, Work;
    var t := Apply(s, step);
    NextInv(s, step, t);
    StepWorks(s, step, t);
    WorkBounds(s);
    WorkBounds(t);
  }

  // How many steps of a sequence serve.
  function Served(steps: seq<Step>): nat {
    if steps == [] then 0
    else Served(steps[..|steps| - 1]) + if Serves(steps[|steps| - 1]) then 1 else 0
  }

  predicate NoBegin(steps: seq<Step>) {
    forall k :: 0 <= k < |steps| ==> !steps[k].BeginStep?
  }

  lemma {:induction false} WorkDone(states: seq<State>, steps: seq<Step>, i: nat, j: nat)
    requires IsRun(states, steps) && i <= j < |states| && NoBegin(steps[i..j])
    ensures Served(steps[i..j]) + Work(states[j].h) == Work(states[i].h)
  {
    if i == j {
      assert steps[i..j] == [];
    } else {
      var n := j - 1;
      assert steps[i..j][..j - i - 1] == steps[i..n] && steps[i..j][j - i - 1] == steps[n];
      WorkDone(states, steps, i, n);
      hide Work, Next;
      assert Next(states[n], steps[n], states[j]);
      StepWorks(states[n], steps[n], states[j]);
    }
  }

  // Without new submissions, no more than the remaining work is ever done, and when it has
  // been done, and only then, all eight descriptors are free and no request is under way.
  lemma Drains(states: seq<State>, steps: seq<Step>, i: nat, j: nat)
    requires IsRun(states, steps) && i <= j < |states| && NoBegin(steps[i..j])
    ensures Served(steps[i..j]) <= Work(states[i].h)
    ensures Served(steps[i..j]) == Work(states[i].h) <==> states[j].h.live == {}
    ensures Shaped(states[j].disk)
    ensures states[j].h.live == {} <==> forall d: Idx :: states[j].disk.free[d]
  {
    hide Inv, Work, Served;
    WorkDone(states, steps, i, j);
    RunInv(states, steps, j);
    WorkBounds(states[j]);
    AllFree(states[j]);
    assert states[j].h.live != {} ==> |states[j].h.live| > 0;
  }

  lemma AllFree(s: State)
    requires Inv(s)
    ensures Shaped(s.disk) && (s.h.live == {} <==> forall d: Idx :: s.disk.free[d])
  {
    if s.h.live == {} {
      NothingInUse(s);
    } else {
      var n :| n in s.h.live;
      LiveNotFree(s, n);
    }
  }

  lemma ServeOne(s: State) returns (step: Step, t: State)
    requires Inv(s) && s.h.live != {}
    ensures Serves(step) && Next(s, step, t) && 0 <= Work(t.h) == Work(s.h) - 1
  {
    hide Inv, Work, Enabled, Apply;
    var n :| n in s.h.live;
    step := Serving(s, n);
    ServingEnabled(s, n);
    t := Apply(s, step);
    StepWorks(s, step, t);
    NextInv(s, step, t);
    WorkBounds(t);
  }

  // A longer run in which only serving steps were added.
  ghost predicate Continues(states: seq<State>, steps: seq<Step>, states': seq<State>, steps': seq<Step>) {
    && IsRun(states', steps') && states <= states' && steps <= steps'
    && forall k :: |steps| <= k < |steps'| ==> Serves(steps'[k])
  }

  lemma OneStepEarlier(states: seq<State>, steps: seq<Step>, t: State, step: Step,
                       states': seq<State>, steps': seq<Step>)
    requires Continues(states + [t], steps + [step], states', steps') && Serves(step)
    ensures Continues(states, steps, states', steps')
  {
    hide IsRun;
    assert steps'[|steps|] == (steps + [step])[|steps|] == step;
    assert states <= states + [t] && steps <= steps + [step];
  }

  // Every run can be continued, without new submissions, until all descriptors are free; that
  // takes as many steps as there is work left.
  lemma {:induction false} CanDrain(states: seq<State>, steps: seq<Step>)
    returns (states': seq<State>, steps': seq<Step>)
    requires IsRun(states, steps)
    ensures Continues(states, steps, states', steps')
    ensures |steps'| - |steps| == Work(states[|steps|].h)
    ensures Shaped(states'[|steps'|].disk) && forall d: Idx :: states'[|steps'|].disk.free[d]
    decreases Work(states[|steps|].h)
  {
    var s := states[|steps|];
    hide Inv, Work, Next;
    RunInv(states, steps, |steps|);
    if s.h.live == {} {
      WorkBounds(s);
      AllFree(s);
      states', steps' := states, steps;
    } else {
      var step, t := ServeOne(s);
      LongerRun(states, steps, step, t);
      hide IsRun, Continues;
      states', steps' := CanDrain(states + [t], steps + [step]);
      OneStepEarlier(states, steps, t, step, states', steps');
    }
  }
}
