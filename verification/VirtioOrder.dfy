// Why virtio_disk_rw advances the index last: in every reachable state with a request whose
// descriptors are taken but not filled in, a device that saw the head would not find it.
module VirtioOrder {
  import opened DescriptorFlags
  import opened VirtioProtocol
  import opened VirtioSteps
  import opened VirtioRuns

  // free_desc clears addresses, so a descriptor that is free, or taken and not yet filled in,
  // has address 0.
  ghost predicate Cleared(s: State) {
    && Shaped(s.disk)
    && (forall d: Idx :: s.disk.free[d] ==> s.disk.desc[d].addr == 0)
    && (s.h.phase == Allocated && s.h.reqs != [] ==> ClearedAt(s.disk, Latest(s.h)))
  }

  ghost predicate ClearedAt(d: Disk, r: Request)
    requires Shaped(d)
  {
    d.desc[r.d0].addr == 0 && d.desc[r.d1].addr == 0 && d.desc[r.d2].addr == 0
  }

  lemma FillKeepsCleared(s: State)
    requires Inv(s) && Cleared(s) && CanFill(s) && s.h.reqs != []
    ensures Cleared(Fill(s))
  {
    LatestIsLive(s.h);
    LiveNotFree(s, |s.h.reqs| - 1);
    hide Inv;
  }

  lemma FinishKeepsCleared(s: State, n: nat)
    requires Cleared(s) && CanFinish(s, n) && |s.h.slot| == 8
    ensures Cleared(Finish(s, n))
  {
    var r, t := s.h.reqs[n], Finish(s, n);
    forall d: Idx ensures t.disk.desc[d].addr in {0, s.disk.desc[d].addr} {}
    forall d: Idx | t.disk.free[d] ensures t.disk.desc[d].addr == 0 {
      if d in {r.d0, r.d1, r.d2} { assert t.disk.desc[d].addr == 0; }
    }
  }

  lemma BeginKeepsCleared(s: State, r: Request)
    requires Cleared(s) && CanBegin(s, r) && |s.h.slot| == 8
    ensures Cleared(Begin(s, r))
  {
  }

  lemma RetryKeepsCleared(s: State)
    requires Cleared(s) && s.h.phase == Idle
    ensures Cleared(Retry(s))
  {
  }

  lemma OthersKeepCleared(s: State, step: Step, t: State)
    requires Cleared(s) && Next(s, step, t)
    requires step.PlaceStep? || step.PublishStep? || step.TakeStep? || step.CompleteStep? || step.HandleStep?
    ensures Cleared(t)
  {
    hide Cleared, CanComplete, CanTake, Pending;
    assert t.disk.desc == s.disk.desc && t.disk.free == s.disk.free && Shaped(t.disk);
    assert t.h.phase == Allocated ==> s.h.phase == Allocated && t.h.reqs == s.h.reqs;
    hide Next;
    SameDescriptors(s, t);
  }

  lemma SameDescriptors(s: State, t: State)
    requires Cleared(s) && Shaped(t.disk) && t.disk.desc == s.disk.desc && t.disk.free == s.disk.free
    requires t.h.phase == Allocated ==> s.h.phase == Allocated && t.h.reqs == s.h.reqs
    ensures Cleared(t)
  {
  }

  lemma NextKeepsCleared(s: State, step: Step, t: State)
    requires Inv(s) && Cleared(s) && Next(s, step, t)
    ensures Cleared(t)
  {
    hide Cleared, Inv;
    match step {
      case FillStep => FillKeepsCleared(s);
      case FinishStep(n) => FinishKeepsCleared(s, n);
      case BeginStep(r) => BeginKeepsCleared(s, r);
      case RetryStep => RetryKeepsCleared(s);
      case _ => OthersKeepCleared(s, step, t);
    }
  }

  lemma {:induction false} RunCleared(states: seq<State>, steps: seq<Step>, i: nat)
    requires IsRun(states, steps) && i < |states|
    ensures Cleared(states[i])
  {
    hide Inv, Next;
    if i == 0 {
      assert Cleared(Initial(states[0].bsize, states[0].info));
    } else {
      RunCleared(states, steps, i - 1);
      RunInv(states, steps, i - 1);
      NextKeepsCleared(states[i - 1], steps[i - 1], states[i]);
    }
  }

  lemma FirstElement(desc: seq<Desc>, head: nat, fuel: nat)
    requires fuel > 0 && head < |desc|
    ensures ReadChain(desc, head, fuel) != []
    ensures ReadChain(desc, head, fuel)[0] ==
            Element(desc[head].addr, desc[head].len, IsWritable(desc[head].flags))
  {
  }

  // After an early index the head is published and unread.
  lemma EarlyHead(s: State)
    requires Inv(s) && s.h.phase == Allocated
    ensures s.h.reqs != [] && Shaped(s.disk) && s.h.taken < |s.h.reqs|
    ensures CanTake(Publish(Place(s)))
    ensures Publish(Place(s)).disk.availRing[(|s.h.reqs| - 1) % 8] == Latest(s.h).d0
  {
    var n := |s.h.reqs| - 1;
    LatestIsLive(s.h);
    WindowsAreShort(s.disk, s.h);
    hide OrderInv, OwnerInv, CountInv, ChainInv, InfoInv, BusyInv, UsedInv;
    IncWraps(n);
    WrapThen8(n);
    CloseMod16(s.h.taken, n + 1);
  }

  // From any reachable state in which the latest request is not filled in: were its head put
  // into the ring and the index advanced now, the device would be told of it, and the chain
  // it reads would start at address 0. It is not the request unless the header is there.
  lemma EarlyIndexIsUnsafe(states: seq<State>, steps: seq<Step>, i: nat)
    requires IsRun(states, steps) && i < |states| && states[i].h.phase == Allocated
    ensures var s := states[i];
      && s.h.reqs != [] && Shaped(s.disk) && s.h.taken < |s.h.reqs|
      && var r, t := Latest(s.h), Publish(Place(s));
      && CanTake(t) && t.disk.availRing[(|s.h.reqs| - 1) % 8] == r.d0
      && ReadChain(t.disk.desc, r.d0, 8) != [] && ReadChain(t.disk.desc, r.d0, 8)[0].addr == 0
      && (r.header != 0 ==> ReadChain(t.disk.desc, r.d0, 8) != BlockRequest(s, r))
  {
    var s := states[i];
    RunInv(states, steps, i);
    RunCleared(states, steps, i);
    EarlyHead(s);
    hide Inv;
    FirstElement(Publish(Place(s)).disk.desc, Latest(s.h).d0, 8);
    hide ReadChain;
  }

  // Such a state is reachable, by taking descriptors in the initial state.
  lemma EarlyStateIsReachable(bsize: nat, info: nat, r: Request)
    requires r.d0 != r.d1 && r.d0 != r.d2 && r.d1 != r.d2 && r.buf != 0
    ensures var s := Initial(bsize, info);
      && CanBegin(s, r) && Begin(s, r).h.phase == Allocated && Latest(Begin(s, r).h) == r
      && IsRun([s, Begin(s, r)], [BeginStep(r)])
  {
  }
}
