// Every legal sequence of driver and device steps, performed on the arrays of the driver.
module VirtioExecution {
  import opened VirtioProtocol
  import opened VirtioSteps
  import opened VirtioRuns
  import opened VirtioDriver

  // What a thread of the kernel, the interrupt handler or the device does next. Which
  // descriptors a request gets is for the driver to decide.
  datatype Command =
    | BeginCommand(buf: nat, header: nat, data: nat, write: bool)
    | FillCommand
    | PlaceCommand
    | PublishCommand
    | TakeCommand
    | CompleteCommand(n: nat)
    | HandleCommand
    | FinishCommand(n: nat)

  // The step the command is in state s: alloc3_desc takes the first three free descriptors,
  // and fails when there are fewer.
  ghost function StepOf(s: State, c: Command): Step {
    match c
    case BeginCommand(buf, header, data, write) =>
      var f := s.disk.free;
      if |InUse(f)| <= 5 && Pick(f, 0) < 8 && Pick(f, 1) < 8 && Pick(f, 2) < 8
      then BeginStep(Request(buf, header, data, write, Pick(f, 0), Pick(f, 1), Pick(f, 2)))
      else RetryStep
    case FillCommand => FillStep
    case PlaceCommand => PlaceStep
    case PublishCommand => PublishStep
    case TakeCommand => TakeStep
    case CompleteCommand(n) => CompleteStep(n)
    case HandleCommand => HandleStep
    case FinishCommand(n) => FinishStep(n)
  }

  // A request has the addresses and the direction of its command; the other commands are the
  // steps of the same name.
  lemma StepMeans(s: State, c: Command)
    ensures match c
      case BeginCommand(buf, header, data, write) =>
        var step := StepOf(s, c);
        step.RetryStep? ||
        (step.BeginStep? && step.r.buf == buf && step.r.header == header && step.r.data == data
         && step.r.write == write)
      case FillCommand => StepOf(s, c) == FillStep
      case PlaceCommand => StepOf(s, c) == PlaceStep
      case PublishCommand => StepOf(s, c) == PublishStep
      case TakeCommand => StepOf(s, c) == TakeStep
      case CompleteCommand(n) => StepOf(s, c) == CompleteStep(n)
      case HandleCommand => StepOf(s, c) == HandleStep
      case FinishCommand(n) => StepOf(s, c) == FinishStep(n)
  {
  }

  // What is asked of whoever gives the command.
  ghost predicate Legal(s: State, c: Command) {
    match c
    case BeginCommand(buf, _, _, _) => s.h.phase == Idle && FreshBuffer(s.h, buf)
    case FillCommand => CanFill(s)
    case PlaceCommand => CanPlace(s)
    case PublishCommand => CanPublish(s)
    case TakeCommand => CanTake(s)
    case CompleteCommand(n) => CanComplete(s, n)
    case HandleCommand => Pending(s.disk)
    case FinishCommand(n) => CanFinish(s, n)
  }

  ghost function After(s: State, c: Command): State {
    var step := StepOf(s, c);
    if Enabled(s, step) then Apply(s, step) else s
  }

  ghost predicate LegalRun(s: State, commands: seq<Command>)
    decreases commands
  {
    commands == [] || (Legal(s, commands[0]) && LegalRun(After(s, commands[0]), commands[1..]))
  }

  // t is the state after command c in state s, with the same requests up to `more`.
  ghost predicate Performed(s: State, c: Command, t: State, more: seq<Request>) {
    && Next(s, StepOf(s, c), t) && t == After(s, c)
    && t.h.reqs == s.h.reqs + more && t.bsize == s.bsize && t.info == s.info
  }

  lemma BeginPerformed(s: State, c: Command, r: Request)
    requires Shaped(s.disk) && |s.h.slot| == 8 && c.BeginCommand?
    requires |InUse(s.disk.free)| <= 5 && CanBegin(s, r)
    requires r == Request(c.buf, c.header, c.data, c.write, r.d0, r.d1, r.d2)
    requires r.d0 == Pick(s.disk.free, 0) && r.d1 == Pick(s.disk.free, 1) && r.d2 == Pick(s.disk.free, 2)
    ensures Performed(s, c, Begin(s, r), [r])
  {
    hide InUse, Pick, CanBegin;
  }

  lemma RetryPerformed(s: State, c: Command)
    requires Shaped(s.disk) && |s.h.slot| == 8 && c.BeginCommand?
    requires |InUse(s.disk.free)| > 5 && s.h.phase == Idle
    ensures Performed(s, c, Retry(s), [])
  {
    hide InUse, Pick;
  }

  lemma FillPerformed(s: State, c: Command)
    requires Shaped(s.disk) && |s.h.slot| == 8 && s.h.reqs != [] && c.FillCommand? && CanFill(s)
    ensures Performed(s, c, Fill(s), [])
  {
  }

  lemma PlacePerformed(s: State, c: Command)
    requires Shaped(s.disk) && |s.h.slot| == 8 && s.h.reqs != [] && c.PlaceCommand? && CanPlace(s)
    ensures Performed(s, c, Place(s), [])
  {
  }

  lemma PublishPerformed(s: State, c: Command)
    requires Shaped(s.disk) && |s.h.slot| == 8 && c.PublishCommand? && CanPublish(s)
    ensures Performed(s, c, Publish(s), [])
  {
  }

  lemma TakePerformed(s: State, c: Command)
    requires Shaped(s.disk) && |s.h.slot| == 8 && c.TakeCommand? && CanTake(s)
    ensures Performed(s, c, Take(s), [])
  {
  }

  lemma CompletePerformed(s: State, c: Command)
    requires Shaped(s.disk) && |s.h.slot| == 8 && c.CompleteCommand? && CanComplete(s, c.n) && c.n < |s.h.reqs|
    ensures Performed(s, c, Complete(s, c.n), [])
  {
  }

  lemma HandlePerformed(s: State, c: Command)
    requires Shaped(s.disk) && |s.h.slot| == 8 && c.HandleCommand? && Pending(s.disk)
    requires s.disk.usedRing[s.disk.usedIdx] < 8
    ensures Performed(s, c, Handle(s), [])
  {
  }

  lemma FinishPerformed(s: State, c: Command)
    requires Shaped(s.disk) && |s.h.slot| == 8 && c.FinishCommand? && CanFinish(s, c.n)
    ensures Performed(s, c, Finish(s, c.n), [])
  {
  }

  // One command. requests are the requests of the calls of virtio_disk_rw so far.
  method Perform(d: Driver, c: Command, bsize: nat, info: nat, requests: seq<Request>)
    returns (submitted: seq<Request>)
    requires d.Valid() && Legal(d.s, c) && requests == d.s.h.reqs && bsize == d.s.bsize && info == d.s.info
    modifies d, d.table.desc, d.table.free, d.avail, d.usedElems, d.infoB, d.infoStatus
    ensures d.Valid() && Next(old(d.s), StepOf(old(d.s), c), d.s) && d.s == After(old(d.s), c)
    ensures submitted == d.s.h.reqs && d.s.bsize == bsize && d.s.info == info
  {
    ghost var s := d.s;
    hide *;
    var more: seq<Request> := [];
    if c.BeginCommand? {
      more := PerformBegin(d, c);
    } else if c.FillCommand? || c.PlaceCommand? || c.PublishCommand? {
      PerformStore(d, c, bsize, info, requests);
    } else {
      PerformOther(d, c, requests);
    }
    submitted := requests + more;
    PerformedFacts(s, c, d.s, more);
  }

  // The next store of virtio_disk_rw, for the latest request.
  method PerformStore(d: Driver, c: Command, bsize: nat, info: nat, requests: seq<Request>)
    requires d.Valid() && Legal(d.s, c) && requests == d.s.h.reqs && bsize == d.s.bsize && info == d.s.info
    requires c.FillCommand? || c.PlaceCommand? || c.PublishCommand?
    modifies d, d.table.desc, d.avail, d.infoB, d.infoStatus
    ensures d.Valid() && Performed(old(d.s), c, d.s, [])
  {
    ghost var s := d.s;
    LegalFacts(s, c);
    hide Inv, Performed, Fill, Place, Publish;
    match c {
      case FillCommand =>
        FillPerformed(s, c);
        d.FillRequest(requests[|requests| - 1], bsize, info);
      case PlaceCommand =>
        PlacePerformed(s, c);
        d.PlaceHead(requests[|requests| - 1].d0);
      case PublishCommand =>
        PublishPerformed(s, c);
        d.AdvanceIndex();
    }
  }

  // A step of the device, of the interrupt loop, or of a waiter.
  method PerformOther(d: Driver, c: Command, requests: seq<Request>)
    requires d.Valid() && Legal(d.s, c) && requests == d.s.h.reqs
    requires c.TakeCommand? || c.CompleteCommand? || c.HandleCommand? || c.FinishCommand?
    modifies d, d.table.desc, d.table.free, d.usedElems, d.infoB, d.infoStatus
    ensures d.Valid() && Performed(old(d.s), c, d.s, [])
  {
    ghost var s := d.s;
    LegalFacts(s, c);
    hide Inv, Performed, Take, Complete, Handle, Finish;
    match c {
      case TakeCommand =>
        TakePerformed(s, c);
        var head := d.DeviceTake();
      case CompleteCommand(n) =>
        CompletePerformed(s, c);
        d.DeviceComplete(requests[n].d0, n);
      case HandleCommand =>
        d.HandleOne();
        HandlePerformed(s, c);
      case FinishCommand(n) =>
        FinishPerformed(s, c);
        d.FinishRequest(requests[n].d0, n);
    }
  }

  lemma PerformedFacts(s: State, c: Command, t: State, more: seq<Request>)
    requires Performed(s, c, t, more)
    ensures Next(s, StepOf(s, c), t) && t == After(s, c)
    ensures t.h.reqs == s.h.reqs + more && t.bsize == s.bsize && t.info == s.info
  {
  }

  method PerformBegin(d: Driver, c: Command) returns (more: seq<Request>)
    requires d.Valid() && c.BeginCommand? && Legal(d.s, c)
    modifies d, d.table.desc, d.table.free
    ensures d.Valid() && Performed(old(d.s), c, d.s, more)
  {
    ghost var s := d.s;
    LegalFacts(s, c);
    hide Inv, InUse, Pick, ThreeFree, FreshBuffer, StepOf, Performed, Begin, Retry, CanBegin;
    var started, d0, d1, d2 := d.BeginRequest(c.buf, c.header, c.data, c.write);
    if started {
      var r := Request(c.buf, c.header, c.data, c.write, d0, d1, d2);
      BeginPerformed(s, c, r);
      more := [r];
    } else {
      RetryPerformed(s, c);
      more := [];
    }
  }

  lemma LegalFacts(s: State, c: Command)
    requires Inv(s) && Legal(s, c)
    ensures Shaped(s.disk) && |s.h.slot| == 8
    ensures c.FillCommand? || c.PlaceCommand? ==> s.h.reqs != []
    ensures c.CompleteCommand? ==> c.n < |s.h.reqs|
  {
  }

  // Any legal sequence of commands on the arrays of a newly initialised driver is a run: the
  // theorems about runs hold of the memory the driver and the device share.
  method Execute(commands: seq<Command>, bsize: nat, info: nat)
    returns (d: Driver, ghost states: seq<State>, ghost steps: seq<Step>)
    requires LegalRun(Initial(bsize, info), commands)
    ensures fresh(d) && d.Valid() && d.s.disk == d.Contents()
    ensures IsRun(states, steps) && |steps| == |commands|
    ensures states[0] == Initial(bsize, info) && states[|steps|] == d.s
    ensures forall i :: 0 <= i < |steps| ==> steps[i] == StepOf(states[i], commands[i])
  {
    hide Inv, Next, After, Legal, StepOf;
    d := new Driver(bsize, info);
    states, steps := [d.s], [];
    var requests: seq<Request> := [];
    var n := 0;
    while n < |commands|
      invariant 0 <= n <= |commands| && |steps| == n
      invariant fresh(d) && fresh(d.table.desc) && fresh(d.table.free) && fresh(d.avail)
      invariant fresh(d.usedElems) && fresh(d.infoB) && fresh(d.infoStatus)
      invariant d.Valid() && LegalRun(d.s, commands[n..])
      invariant requests == d.s.h.reqs && d.s.bsize == bsize && d.s.info == info
      invariant IsRun(states, steps) && states[0] == Initial(bsize, info) && states[n] == d.s
      invariant forall i :: 0 <= i < n ==> steps[i] == StepOf(states[i], commands[i])
    {
      assert commands[n..][1..] == commands[n + 1..];
      ghost var step := StepOf(d.s, commands[n]);
      requests := Perform(d, commands[n], bsize, info, requests);
      LongerRun(states, steps, step, d.s);
      states, steps := states + [d.s], steps + [step];
      n := n + 1;
    }
  }
}
