// Properties of every run of the block driver: the steps of the driver and of the device
// interleave in any order, completions come back in any order, and the 16-bit indices wrap.
module VirtioRuns {
  import opened Bits
  import opened DescriptorFlags
  import opened VirtioProtocol
  import opened VirtioSteps

  datatype Step =
    | BeginStep(r: Request)       // alloc3_desc succeeds in virtio_disk_rw
    | RetryStep                   // alloc3_desc fails
    | FillStep                    // the descriptors are written, the buffer is recorded
    | PlaceStep                   // the head is written into the ring slot
    | PublishStep                 // avail[1] is advanced
    | TakeStep                    // the device reads a head from the avail ring
    | CompleteStep(n: nat)        // the device puts request n into the used ring
    | HandleStep                  // one iteration of the loop of virtio_disk_intr
    | FinishStep(n: nat)          // the waiter of request n frees its chain

  ghost predicate Enabled(s: State, step: Step) {
    && Shaped(s.disk) && |s.h.slot| == 8
    && match step
       case BeginStep(r) => CanBegin(s, r)
       case RetryStep => s.h.phase == Idle && |InUse(s.disk.free)| > 5
       case FillStep => CanFill(s) && s.h.reqs != []
       case PlaceStep => CanPlace(s) && s.h.reqs != []
       case PublishStep => CanPublish(s)
       case TakeStep => CanTake(s)
       case CompleteStep(n) => CanComplete(s, n) && n < |s.h.reqs|
       case HandleStep => Pending(s.disk) && s.disk.usedRing[s.disk.usedIdx] < 8
       case FinishStep(n) => CanFinish(s, n)
  }

  function Apply(s: State, step: Step): State
    requires Enabled(s, step)
  {
    match step
    case BeginStep(r) => Begin(s, r)
    case RetryStep => Retry(s)
    case FillStep => Fill(s)
    case PlaceStep => Place(s)
    case PublishStep => Publish(s)
    case TakeStep => Take(s)
    case CompleteStep(n) => Complete(s, n)
    case HandleStep => Handle(s)
    case FinishStep(n) => Finish(s, n)
  }

  ghost predicate Next(s: State, step: Step, t: State) {
    Enabled(s, step) && t == Apply(s, step)
  }

  // A run from the initialised queue.
  ghost predicate IsRun(states: seq<State>, steps: seq<Step>) {
    && |states| == |steps| + 1
    && states[0] == Initial(states[0].bsize, states[0].info)
    && forall i :: 0 <= i < |steps| ==> Next(states[i], steps[i], states[i + 1])
  }

  lemma NextInv(s: State, step: Step, t: State)
    requires Inv(s) && Next(s, step, t)
    ensures Inv(t)
  {
    hide Inv, Begin, Retry, Fill, Place, Publish, Take, Complete, Handle, Finish;
    match step {
      case BeginStep(r) => BeginInv(s, r);
      case RetryStep => RetryInv(s);
      case FillStep => FillInv(s);
      case PlaceStep => PlaceInv(s);
      case PublishStep => PublishInv(s);
      case TakeStep => TakeInv(s);
      case CompleteStep(n) => CompleteInv(s, n);
      case HandleStep => HandleInv(s);
      case FinishStep(n) => FinishInv(s, n);
    }
  }

  lemma LongerRun(states: seq<State>, steps: seq<Step>, step: Step, t: State)
    requires IsRun(states, steps) && Next(states[|steps|], step, t)
    ensures IsRun(states + [t], steps + [step])
  {
    hide Next;
    forall i | 0 <= i < |steps| + 1 ensures Next((states + [t])[i], (steps + [step])[i], (states + [t])[i + 1]) {
      if i < |steps| { assert Next(states[i], steps[i], states[i + 1]); }
    }
  }

  // Every reachable state satisfies the invariant.
  lemma {:induction false} RunInv(states: seq<State>, steps: seq<Step>, i: nat)
    requires IsRun(states, steps) && i < |states|
    ensures Inv(states[i])
  {
    hide Inv, Next;
    if i == 0 {
      InitialInv(states[0].bsize, states[0].info);
    } else {
      RunInv(states, steps, i - 1);
      NextInv(states[i - 1], steps[i - 1], states[i]);
    }
  }

  // What each step records.
  lemma StepRecords(s: State, step: Step, t: State)
    requires Next(s, step, t)
    ensures t.h.reqs == s.h.reqs + if step.BeginStep? then [step.r] else []
    ensures t.h.taken == s.h.taken + if step.TakeStep? then 1 else 0
    ensures t.h.done == s.h.done + if step.CompleteStep? then [step.n] else []
    ensures t.h.handled == s.h.handled + if step.HandleStep? then 1 else 0
    ensures t.h.live ==
            if step.BeginStep? then s.h.live + {|s.h.reqs|} else if step.FinishStep? then s.h.live - {step.n}
            else s.h.live
    ensures t.bsize == s.bsize && t.info == s.info
  {
  }

  // --- Exactly once, in order ---

  ghost predicate Grows(g: History, h: History) {
    g.reqs <= h.reqs && g.seen <= h.seen && g.done <= h.done && g.woken <= h.woken
  }

  lemma NextGrows(s: State, step: Step, t: State)
    requires Next(s, step, t)
    ensures Grows(s.h, t.h)
  {
  }

  // What has happened is never rewritten.
  lemma {:induction false} HistoryGrows(states: seq<State>, steps: seq<Step>, i: nat, j: nat)
    requires IsRun(states, steps) && i <= j < |states|
    ensures Grows(states[i].h, states[j].h)
  {
    if i < j {
      HistoryGrows(states, steps, i, j - 1);
      hide Next;
      NextGrows(states[j - 1], steps[j - 1], states[j]);
    }
  }

  // At every point j of every run the interrupt loop has woken exactly the buffers of the
  // first `handled` completions, in used-ring order; no request is completed, and so none is
  // woken, twice; only requests the device has read complete. Between two points i and j it
  // has woken exactly the buffers of the completions handled in between.
  lemma HandledExactlyOnce(states: seq<State>, steps: seq<Step>, i: nat, j: nat)
    requires IsRun(states, steps) && i <= j < |states|
    ensures var h := states[j].h;
      && |h.woken| == h.handled <= |h.done|
      && (forall k :: 0 <= k < |h.done| ==> h.done[k] < h.taken <= |h.reqs|)
      && (forall k :: 0 <= k < h.handled ==> h.woken[k] == h.reqs[h.done[k]].buf)
      && (forall k, l :: 0 <= k < l < |h.done| ==> h.done[k] != h.done[l])
    ensures var g, h := states[i].h, states[j].h;
      && g.handled <= h.handled <= |h.done| && h.woken[..g.handled] == g.woken
      && (forall k :: 0 <= k < g.handled ==> k < |g.done| && h.done[k] == g.done[k])
  {
    RunInv(states, steps, i);
    RunInv(states, steps, j);
    HistoryGrows(states, steps, i, j);
  }

  // The loop condition, which compares a counter modulo 8 with a wrapping 16-bit index, is
  // exact at every point of every run, and the iteration is safe: the buffer pointer is not
  // null, the status is 0, and it is the buffer of the oldest unhandled completion.
  lemma InterruptLoopExact(states: seq<State>, steps: seq<Step>, i: nat)
    requires IsRun(states, steps) && i < |states|
    ensures var s := states[i];
      && Shaped(s.disk)
      && (Pending(s.disk) <==> s.h.handled < |s.h.done|)
      && s.disk.usedIdx == s.h.handled % 8 && s.disk.deviceUsedIdx == |s.h.done| % 0x1_0000
      && (Pending(s.disk) ==>
            && var id := s.disk.usedRing[s.disk.usedIdx];
            && id < 8
            && s.h.done[s.h.handled] < |s.h.reqs|
            && s.disk.infoStatus[id] == 0
            && s.disk.infoBuf[id] == s.h.reqs[s.h.done[s.h.handled]].buf != 0)
  {
    RunInv(states, steps, i);
    HandleExact(states[i]);
  }

  // The device reads the heads in the order of submission, each once; its own test for a new
  // head is exact although both indices wrap at 2^16.
  lemma DeviceSeesSubmissionOrder(states: seq<State>, steps: seq<Step>, i: nat)
    requires IsRun(states, steps) && i < |states|
    ensures var s := states[i];
      && |s.h.seen| == s.h.taken <= |s.h.reqs|
      && (forall n :: 0 <= n < s.h.taken ==> s.h.seen[n] == s.h.reqs[n].d0)
      && (CanTake(s) <==> s.h.taken < Published(s.h))
      && s.deviceSeen == s.h.taken % 0x1_0000
      && s.disk.availIdx == (if s.h.phase.Idle? then |s.h.reqs| else |s.h.reqs| - 1) % 0x1_0000
  {
    RunInv(states, steps, i);
    TakeExact(states[i]);
  }

  // The ring slot at avail[1] never holds a head the device has yet to read, so writing it
  // before the index is advanced loses nothing; every unread head is in its slot.
  lemma PublishingIsSafe(states: seq<State>, steps: seq<Step>, i: nat, n: nat)
    requires IsRun(states, steps) && i < |states|
    requires states[i].h.taken <= n < Published(states[i].h)
    ensures n % 8 != states[i].disk.availIdx % 8
    ensures Shaped(states[i].disk) && states[i].disk.availRing[n % 8] == states[i].h.reqs[n].d0
  {
    RunInv(states, steps, i);
    SlotIsRead(states[i], n);
  }

  // --- Descriptor ownership ---

  // In every reachable state at most two requests hold descriptors, each descriptor is free
  // or held by exactly one of them, and once written the chain is header, data, status.
  lemma DescriptorOwnership(states: seq<State>, steps: seq<Step>, i: nat, d: Idx)
    requires IsRun(states, steps) && i < |states|
    ensures var s := states[i];
      && Shaped(s.disk) && |s.h.live| <= 2
      && (forall n :: n in s.h.live ==> n < |s.h.reqs| && (Formed(s.h, n) ==> Chain(s, s.h.reqs[n])))
      && (s.disk.free[d] <==> forall n :: n in s.h.live ==> !Uses(s.h.reqs[n], d))
      && (forall n, m :: n in s.h.live && m in s.h.live && Uses(s.h.reqs[n], d) && Uses(s.h.reqs[m], d) ==> n == m)
  {
    RunInv(states, steps, i);
    AtMostTwoLive(states[i].disk, states[i].h);
    OwnersUnique(states[i], d);
  }

  predicate Uses(r: Request, d: Idx) {
    d == r.d0 || d == r.d1 || d == r.d2
  }

  lemma OwnersUnique(s: State, d: Idx)
    requires OwnerInv(s.disk, s.h)
    ensures s.disk.free[d] <==> forall n :: n in s.h.live ==> !Uses(s.h.reqs[n], d)
    ensures forall n, m :: n in s.h.live && m in s.h.live && Uses(s.h.reqs[n], d) && Uses(s.h.reqs[m], d) ==> n == m
  {
    forall n | n in s.h.live && Uses(s.h.reqs[n], d) ensures s.h.slot[d] == n && !s.disk.free[d] {
      assert Holds(s.h, n, s.h.reqs[n].d0) && Holds(s.h, n, s.h.reqs[n].d1) && Holds(s.h, n, s.h.reqs[n].d2);
    }
    if !s.disk.free[d] { assert Uses(s.h.reqs[s.h.slot[d]], d); }
  }

  // Three descriptors are free exactly when at most one request is in flight.
  lemma SubmitPossible(states: seq<State>, steps: seq<Step>, i: nat)
    requires IsRun(states, steps) && i < |states|
    ensures |InUse(states[i].disk.free)| <= 5 <==> |states[i].h.live| <= 1
  {
    RunInv(states, steps, i);
  }

  // A chain is freed only after its completion was handled.
  lemma FreedAfterHandled(states: seq<State>, steps: seq<Step>, i: nat, n: nat)
    requires IsRun(states, steps) && i < |states|
    requires n < |states[i].h.reqs| && (n !in states[i].h.live || CanFinish(states[i], n))
    ensures states[i].h.handled <= |states[i].h.done| && n in states[i].h.done[..states[i].h.handled]
  {
    RunInv(states, steps, i);
  }

  // --- What the device finds ---

  // A buffer as the device sees it: address, length, and whether the device may write it.
  datatype Element = Element(addr: nat, len: nat, writable: bool)

  // The device follows NEXT from the head (VirtIO 1.1, section 2.6.5), at most fuel elements.
  function ReadChain(desc: seq<Desc>, head: nat, fuel: nat): seq<Element>
    decreases fuel
  {
    if fuel == 0 || head >= |desc| then []
    else
      var d := desc[head];
      [Element(d.addr, d.len, IsWritable(d.flags))]
      + if HasNext(d.flags) then ReadChain(desc, d.next, fuel - 1) else []
  }

  lemma ReadThree(s: State, r: Request, fuel: nat)
    requires Shaped(s.disk) && Chain(s, r) && fuel >= 3
    ensures ReadChain(s.disk.desc, r.d0, fuel) == BlockRequest(s, r)
  {
    FlagValues();
    hide HasNext, IsWritable, Or;
    var desc := s.disk.desc;
    assert ReadChain(desc, r.d2, fuel - 2) == [Element(StatusAddress(s, r.d0), 1, true)];
    assert ReadChain(desc, r.d1, fuel - 1) == [Element(r.data, s.bsize, !r.write)] + ReadChain(desc, r.d2, fuel - 2);
    assert ReadChain(desc, r.d0, fuel) == [Element(r.header, 16, false)] + ReadChain(desc, r.d1, fuel - 1);
  }

  // The elements of a block request of section 5.2.6: a 16-byte header the device reads, the
  // data, which it writes exactly when the request reads the disk, one status byte it writes.
  function BlockRequest(s: State, r: Request): seq<Element> {
    [Element(r.header, 16, false), Element(r.data, s.bsize, !r.write), Element(StatusAddress(s, r.d0), 1, true)]
  }

  // At any point of any run, between any two stores of the driver, the device finds the
  // block request behind every published head that is in flight, hence behind every head it
  // has yet to read, and in the ring slot it reads next is the head of such a request.
  lemma DeviceFindsRequest(states: seq<State>, steps: seq<Step>, i: nat, n: nat)
    requires IsRun(states, steps) && i < |states|
    requires n < Published(states[i].h)
    requires n in states[i].h.live || states[i].h.taken <= n
    ensures var s := states[i];
      && n < |s.h.reqs| && Shaped(s.disk)
      && ReadChain(s.disk.desc, s.h.reqs[n].d0, 8) == BlockRequest(s, s.h.reqs[n])
      && (CanTake(s) && n == s.h.taken ==> s.disk.availRing[s.deviceSeen % 8] == s.h.reqs[n].d0)
  {
    RunInv(states, steps, i);
    UnreadAreLive(states[i].h);
    ChainOf(states[i], n);
    TakeExact(states[i]);
    ReadThree(states[i], states[i].h.reqs[n], 8);
  }

  lemma ChainOf(s: State, n: nat)
    requires ChainInv(s) && n in s.h.live && n < Published(s.h)
    ensures n < |s.h.reqs| && Shaped(s.disk) && Chain(s, s.h.reqs[n])
  {
    assert Formed(s.h, n);
  }
}
