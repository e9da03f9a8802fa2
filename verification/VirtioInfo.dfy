// The info array of the block driver: which entries hold a buffer pointer, which buffers are
// marked as waiting, and where in memory the device stores the status byte.
module VirtioInfo {
  import opened Bits
  import opened PhysicalMemory
  import opened Sequences
  import opened VirtioProtocol
  import opened VirtioSteps
  import opened VirtioRuns

  // --- Exactly the entries and flags of requests in flight are set ---

  // Request n is in flight and its chain and bookkeeping are written.
  predicate InFlight(h: History, n: nat) {
    n in h.live && n < |h.reqs| && Formed(h, n)
  }

  ghost predicate HeaderInFlight(h: History, i: Idx) {
    exists n: nat :: InFlight(h, n) && h.reqs[n].d0 == i
  }

  ghost predicate BufferWaits(h: History, b: nat)
    requires h.handled <= |h.done|
  {
    exists n: nat :: InFlight(h, n) && h.reqs[n].buf == b && n !in h.done[..h.handled]
  }

  ghost predicate PointersExact(s: State) {
    Shaped(s.disk) && forall i: Idx :: s.disk.infoBuf[i] != 0 <==> HeaderInFlight(s.h, i)
  }

  ghost predicate FlagsExact(s: State) {
    s.h.handled <= |s.h.done| && forall b: nat :: b in s.disk.busy <==> BufferWaits(s.h, b)
  }

  // A step that changes neither the entries nor which requests are in flight.
  lemma SamePointers(s: State, t: State)
    requires PointersExact(s) && Shaped(t.disk) && t.disk.infoBuf == s.disk.infoBuf
    requires forall n: nat :: InFlight(t.h, n) <==> InFlight(s.h, n)
    requires s.h.reqs <= t.h.reqs
    ensures PointersExact(t)
  {
    forall i: Idx ensures HeaderInFlight(t.h, i) <==> HeaderInFlight(s.h, i) {
      if n: nat :| InFlight(s.h, n) && s.h.reqs[n].d0 == i { assert InFlight(t.h, n); }
      if n: nat :| InFlight(t.h, n) && t.h.reqs[n].d0 == i { assert InFlight(s.h, n); }
    }
  }

  lemma FillPointers(s: State)
    requires PointersExact(s) && CanFill(s) && LatestOwned(s) && Latest(s.h).buf != 0
    ensures PointersExact(Fill(s))
  {
    var t, k := Fill(s), |s.h.reqs| - 1;
    assert forall n: nat :: InFlight(t.h, n) <==> InFlight(s.h, n) || n == k;
    forall i: Idx ensures t.disk.infoBuf[i] != 0 <==> HeaderInFlight(t.h, i) {
      if i == s.h.reqs[k].d0 { assert InFlight(t.h, k); }
      if HeaderInFlight(s.h, i) {
        var n: nat :| InFlight(s.h, n) && s.h.reqs[n].d0 == i;
        assert InFlight(t.h, n);
      }
    }
  }

  lemma FinishPointers(s: State, n: nat)
    requires PointersExact(s) && CanFinish(s, n) && OwnerInv(s.disk, s.h)
    ensures PointersExact(Finish(s, n))
  {
    var t := Finish(s, n);
    forall i: Idx ensures t.disk.infoBuf[i] != 0 <==> HeaderInFlight(t.h, i) {
      if HeaderInFlight(s.h, i) && i != s.h.reqs[n].d0 {
        var m: nat :| InFlight(s.h, m) && s.h.reqs[m].d0 == i;
        assert InFlight(t.h, m);
      }
      if m: nat :| InFlight(t.h, m) && t.h.reqs[m].d0 == i {
        assert InFlight(s.h, m);
        OtherDescriptors(s, n, m);
      }
    }
  }

  lemma SameFlags(s: State, t: State)
    requires FlagsExact(s) && t.disk.busy == s.disk.busy && t.h.handled <= |t.h.done|
    requires t.h.done[..t.h.handled] == s.h.done[..s.h.handled]
    requires forall n: nat :: InFlight(t.h, n) <==> InFlight(s.h, n)
    requires s.h.reqs <= t.h.reqs
    ensures FlagsExact(t)
  {
    forall b: nat ensures BufferWaits(t.h, b) <==> BufferWaits(s.h, b) {
      if n: nat :| InFlight(s.h, n) && s.h.reqs[n].buf == b && n !in s.h.done[..s.h.handled] {
        assert InFlight(t.h, n);
      }
      if n: nat :| InFlight(t.h, n) && t.h.reqs[n].buf == b && n !in t.h.done[..t.h.handled] {
        assert InFlight(s.h, n);
      }
    }
  }

  lemma FillFlags(s: State)
    requires FlagsExact(s) && CanFill(s) && LatestOwned(s)
    ensures FlagsExact(Fill(s))
  {
    var t, k := Fill(s), |s.h.reqs| - 1;
    assert forall n: nat :: InFlight(t.h, n) <==> InFlight(s.h, n) || n == k;
    forall b: nat ensures b in t.disk.busy <==> BufferWaits(t.h, b) {
      if b == s.h.reqs[k].buf { assert InFlight(t.h, k); }
      if BufferWaits(s.h, b) {
        var n: nat :| InFlight(s.h, n) && s.h.reqs[n].buf == b && n !in s.h.done[..s.h.handled];
        assert InFlight(t.h, n);
      }
    }
  }

  lemma HandleFlags(s: State)
    requires FlagsExact(s) && BusyInv(s.disk, s.h) && Distinct(s.h.done)
    requires Shaped(s.disk) && s.disk.usedRing[s.disk.usedIdx] < 8 && s.h.handled < |s.h.done|
    requires InFlight(s.h, s.h.done[s.h.handled])
    requires s.disk.infoBuf[s.disk.usedRing[s.disk.usedIdx]] == s.h.reqs[s.h.done[s.h.handled]].buf
    ensures FlagsExact(Handle(s))
  {
    var t, d := Handle(s), s.h.done[s.h.handled];
    assert t.h.done[..t.h.handled] == s.h.done[..s.h.handled] + [d];
    assert forall n: nat :: InFlight(t.h, n) <==> InFlight(s.h, n);
    hide InFlight;
    forall b: nat ensures b in t.disk.busy <==> BufferWaits(t.h, b) {
      if n: nat :| InFlight(s.h, n) && s.h.reqs[n].buf == b && n !in s.h.done[..s.h.handled] && n != d {
        OtherBuffer(s, n, d);
        assert InFlight(t.h, n);
      }
    }
  }

  lemma OtherBuffer(s: State, n: nat, m: nat)
    requires BusyInv(s.disk, s.h) && InFlight(s.h, n) && InFlight(s.h, m) && n != m
    ensures s.h.reqs[n].buf != s.h.reqs[m].buf
  {
  }

  lemma FinishFlags(s: State, n: nat)
    requires FlagsExact(s) && Shaped(s.disk) && CanFinish(s, n) && |s.h.slot| == 8
    ensures FlagsExact(Finish(s, n))
  {
    var t := Finish(s, n);
    assert forall m: nat :: InFlight(t.h, m) <==> InFlight(s.h, m) && m != n;
    forall b: nat ensures b in t.disk.busy <==> BufferWaits(t.h, b) {
      if m: nat :| InFlight(s.h, m) && s.h.reqs[m].buf == b && m !in s.h.done[..s.h.handled] {
        assert b in s.disk.busy;
        assert InFlight(t.h, m);
      }
    }
  }

  // --- Over every step and every run ---

  ghost predicate Bookkept(s: State) {
    PointersExact(s) && FlagsExact(s)
  }

  // The steps that leave pointers and flags alone: no request starts or stops being in flight.
  predicate Leaves(step: Step) {
    step.BeginStep? || step.RetryStep? || step.PlaceStep? || step.PublishStep? || step.TakeStep? || step.CompleteStep?
  }

  lemma LeavesFacts(s: State, step: Step, t: State)
    requires OrderInv(s.h) && Next(s, step, t) && Leaves(step)
    ensures Shaped(t.disk) && t.disk.infoBuf == s.disk.infoBuf && t.disk.busy == s.disk.busy
    ensures s.h.reqs <= t.h.reqs && t.h.handled == s.h.handled <= |s.h.done| <= |t.h.done|
    ensures t.h.done[..t.h.handled] == s.h.done[..s.h.handled]
  {
    assert s.h.handled <= |s.h.done|;
    hide OrderInv;
  }

  lemma LeavesInFlight(s: State, step: Step, t: State)
    requires OrderInv(s.h) && Next(s, step, t) && Leaves(step)
    ensures forall n: nat :: InFlight(t.h, n) <==> InFlight(s.h, n)
  {
    if step.BeginStep? {
      assert forall n :: n in s.h.live ==> n < |s.h.reqs|;
    } else {
      assert t.h.live == s.h.live && t.h.reqs == s.h.reqs;
      assert forall n: nat :: n < |s.h.reqs| ==> (Formed(t.h, n) <==> Formed(s.h, n));
    }
  }

  lemma NextBookkept(s: State, step: Step, t: State)
    requires Inv(s) && Bookkept(s) && Next(s, step, t)
    ensures Bookkept(t)
  {
    if Leaves(step) {
      LeavesFacts(s, step, t);
      LeavesInFlight(s, step, t);
      hide *;
      LeavesKeeps(s, t);
    } else {
      match step {
        case FillStep => FillKeeps(s);
        case HandleStep => HandleKeeps(s);
        case FinishStep(n) => FinishKeeps(s, n);
      }
    }
  }

  lemma LeavesKeeps(s: State, t: State)
    requires Bookkept(s) && Shaped(t.disk) && t.disk.infoBuf == s.disk.infoBuf && t.disk.busy == s.disk.busy
    requires s.h.reqs <= t.h.reqs && t.h.handled == s.h.handled <= |s.h.done| <= |t.h.done|
    requires t.h.done[..t.h.handled] == s.h.done[..s.h.handled]
    requires forall n: nat :: InFlight(t.h, n) <==> InFlight(s.h, n)
    ensures Bookkept(t)
  {
    hide InFlight, PointersExact, FlagsExact;
    SamePointers(s, t);
    SameFlags(s, t);
  }

  lemma FillKeeps(s: State)
    requires Inv(s) && Bookkept(s) && CanFill(s)
    ensures s.h.reqs != [] && Shaped(s.disk) && Bookkept(Fill(s))
  {
    LatestIsLive(s.h);
    assert Latest(s.h).buf != 0;
    hide Inv, InFlight, PointersExact, FlagsExact;
    FillPointers(s);
    FillFlags(s);
  }

  lemma HandleKeeps(s: State)
    requires Inv(s) && Bookkept(s) && Pending(s.disk)
    ensures Shaped(s.disk) && s.disk.usedRing[s.disk.usedIdx] < 8 && Bookkept(Handle(s))
  {
    HandleExact(s);
    assert InFlight(s.h, s.h.done[s.h.handled]);
    assert forall n: nat :: InFlight(Handle(s).h, n) <==> InFlight(s.h, n);
    hide Inv, InFlight, PointersExact, FlagsExact;
    HandleFlags(s);
    SamePointers(s, Handle(s));
  }

  lemma FinishKeeps(s: State, n: nat)
    requires Inv(s) && Bookkept(s) && CanFinish(s, n)
    ensures Shaped(s.disk) && |s.h.slot| == 8 && Bookkept(Finish(s, n))
  {
    assert |s.h.slot| == 8;
    hide OrderInv, CountInv, ChainInv, InfoInv, BusyInv, AvailInv, UsedInv, InFlight, PointersExact, FlagsExact;
    FinishPointers(s, n);
    FinishFlags(s, n);
  }

  lemma {:induction false} RunBookkept(states: seq<State>, steps: seq<Step>, i: nat)
    requires IsRun(states, steps) && i < |states|
    ensures Bookkept(states[i])
  {
    hide Inv, Next;
    if i == 0 {
      NothingInFlight(states[0]);
    } else {
      RunBookkept(states, steps, i - 1);
      RunInv(states, steps, i - 1);
      NextBookkept(states[i - 1], steps[i - 1], states[i]);
    }
  }

  lemma NothingInFlight(s: State)
    requires s == Initial(s.bsize, s.info)
    ensures Bookkept(s)
  {
  }

  // At every point of every run an entry of info holds a buffer pointer exactly when it is
  // that of the header descriptor of a request in flight whose chain is written, and the disk
  // flag of a buffer is set exactly when such a request for it has not been woken.
  lemma InfoIsExact(states: seq<State>, steps: seq<Step>, i: nat, d: Idx, b: nat)
    requires IsRun(states, steps) && i < |states|
    ensures var s := states[i];
      && Shaped(s.disk) && s.h.handled <= |s.h.done|
      && (s.disk.infoBuf[d] != 0 <==>
            exists n: nat :: n in s.h.live && n < |s.h.reqs| && Formed(s.h, n) && s.h.reqs[n].d0 == d)
      && (b in s.disk.busy <==>
            exists n: nat :: n in s.h.live && n < |s.h.reqs| && Formed(s.h, n) && s.h.reqs[n].buf == b
                             && n !in s.h.done[..s.h.handled])
  {
    RunBookkept(states, steps, i);
    var s := states[i];
    hide IsRun;
    if n: nat :| InFlight(s.h, n) && s.h.reqs[n].d0 == d { assert Formed(s.h, n); }
    if n: nat :| n in s.h.live && n < |s.h.reqs| && Formed(s.h, n) && s.h.reqs[n].d0 == d { assert InFlight(s.h, n); }
    if n: nat :| n in s.h.live && n < |s.h.reqs| && Formed(s.h, n) && s.h.reqs[n].buf == b
                 && n !in s.h.done[..s.h.handled] { assert InFlight(s.h, n); }
  }

  // --- Where the status byte lies ---

  // The info array as bytes: entry j has its pointer in bytes 16 j to 16 j + 7 and its status
  // in byte 16 j + 8.
  ghost predicate LaidOut(bytes: seq<uint8>, d: Disk) {
    && Shaped(d) && |bytes| == 128
    && forall j: Idx :: WordAt(bytes, 16 * j) == d.infoBuf[j] && bytes[16 * j + 8] == d.infoStatus[j]
  }

  // Following NEXT from any published head in flight, at any point of any run, the last
  // element is one writable byte, and a byte stored at its address is the status of that
  // head's entry: it changes no other status and no byte of any pointer.
  lemma StatusByte(states: seq<State>, steps: seq<Step>, i: nat, n: nat, bytes: seq<uint8>, x: uint8)
    requires IsRun(states, steps) && i < |states| && |bytes| == 128
    requires n in states[i].h.live && n < Published(states[i].h)
    ensures n < |states[i].h.reqs| && Shaped(states[i].disk)
    ensures var s := states[i];
      var d, chain := s.h.reqs[n].d0, ReadChain(s.disk.desc, s.h.reqs[n].d0, 8);
      && |chain| == 3 && chain[2].len == 1 && chain[2].writable
      && s.info <= chain[2].addr < s.info + 128
      && var after := bytes[chain[2].addr - s.info := x];
      && after[16 * d + 8] == x
      && (forall a: nat :: a < 128 && a % 16 < 8 ==> after[a] == bytes[a])
      && (forall a: nat :: a < 128 && a % 16 == 8 && a / 16 != d ==> after[a] == bytes[a])
  {
    DeviceFindsRequest(states, steps, i, n);
    hide ReadChain, IsRun;
  }

  // The device's store of status 0 at that address is what the completion step does to the
  // info array.
  lemma StoreIsCompletion(states: seq<State>, steps: seq<Step>, i: nat, n: nat, bytes: seq<uint8>)
    requires IsRun(states, steps) && i < |states| && LaidOut(bytes, states[i].disk)
    requires n in states[i].h.live && n < Published(states[i].h) && n < |states[i].h.reqs|
    ensures var s := states[i];
      var chain := ReadChain(s.disk.desc, s.h.reqs[n].d0, 8);
      && |chain| == 3 && s.info <= chain[2].addr < s.info + 128
      && LaidOut(bytes[chain[2].addr - s.info := 0], Complete(s, n).disk)
  {
    StatusByte(states, steps, i, n, bytes, 0);
    var s := states[i];
    var chain := ReadChain(s.disk.desc, s.h.reqs[n].d0, 8);
    var after := bytes[chain[2].addr - s.info := 0];
    hide ReadChain, IsRun;
    forall j: Idx ensures WordAt(after, 16 * j) == WordAt(bytes, 16 * j) { SamePointerBytes(bytes, after, j); }
  }

  lemma SamePointerBytes(a: seq<uint8>, b: seq<uint8>, j: Idx)
    requires |a| == |b| == 128 && forall k: nat :: k < 128 && k % 16 < 8 ==> a[k] == b[k]
    ensures WordAt(a, 16 * j) == WordAt(b, 16 * j)
  {
    var p := 16 * j;
    assert p % 16 == 0;
    assert a[p + 0] == b[p + 0] && a[p + 1] == b[p + 1] && a[p + 2] == b[p + 2] && a[p + 3] == b[p + 3];
    assert a[p + 4] == b[p + 4] && a[p + 5] == b[p + 5] && a[p + 6] == b[p + 6] && a[p + 7] == b[p + 7];
  }
}
