// Every step of the driver and of the device keeps the protocol invariant.
module VirtioSteps {
  import opened VirtioProtocol

  // --- When a step can be taken ---

  // alloc_desc: the first free descriptor from position i on, or 8.
  function FirstFree(free: seq<bool>, i: nat): (r: nat)
    requires i <= |free|
    ensures i <= r <= |free|
    ensures r < |free| ==> free[r]
    ensures forall k :: i <= k < r ==> !free[k]
    decreases |free| - i
  {
    if i == |free| || free[i] then i else FirstFree(free, i + 1)
  }

  // The free map after n calls of alloc_desc, and the answer of the next one.
  function AfterTaking(free: seq<bool>, n: nat): (r: seq<bool>)
    ensures |r| == |free|
  {
    if n == 0 then free
    else
      var before := AfterTaking(free, n - 1);
      var k := FirstFree(before, 0);
      if k < |free| then before[k := false] else before
  }

  function Pick(free: seq<bool>, n: nat): nat {
    FirstFree(AfterTaking(free, n), 0)
  }

  // Three distinct free descriptors.
  predicate ThreeFree(free: seq<bool>, d0: Idx, d1: Idx, d2: Idx)
    requires |free| == 8
  {
    free[d0] && free[d1] && free[d2] && d0 != d1 && d0 != d2 && d1 != d2
  }

  // The caller's obligation: the buffer is not null and not part of a request in flight.
  ghost predicate FreshBuffer(h: History, buf: nat) {
    buf != 0 && forall n :: n in h.live && n < |h.reqs| ==> h.reqs[n].buf != buf
  }

  ghost predicate CanBegin(s: State, r: Request) {
    && s.h.phase == Idle
    && Shaped(s.disk) && ThreeFree(s.disk.free, r.d0, r.d1, r.d2) && FreshBuffer(s.h, r.buf)
  }

  // Each store of virtio_disk_rw comes after the one before it.
  predicate CanFill(s: State) {
    s.h.phase == Allocated
  }

  predicate CanPlace(s: State) {
    s.h.phase == Filled
  }

  predicate CanPublish(s: State) {
    s.h.phase == Placed
  }

  // The device sees that its index differs from avail[1].
  predicate CanTake(s: State) {
    s.deviceSeen != s.disk.availIdx
  }

  predicate CanComplete(s: State, n: nat) {
    n < s.h.taken && n !in s.h.done
  }

  // The request was published, and its waiter finds the disk flag of its buffer cleared.
  predicate CanFinish(s: State, n: nat) {
    n in s.h.live && n < |s.h.reqs| && n < Published(s.h) && s.h.reqs[n].buf !in s.disk.busy
  }

  // --- Begin: the descriptors are taken ---

  lemma BeginOrder(s: State, r: Request)
    requires OrderInv(s.h) && Shaped(s.disk) && |s.h.slot| == 8 && s.h.phase == Idle
    ensures OrderInv(Begin(s, r).h)
  {
  }

  // The descriptors of a live request are not free.
  lemma LiveNotFree(s: State, n: nat)
    requires OwnerInv(s.disk, s.h) && n in s.h.live
    ensures n < |s.h.reqs|
    ensures var r := s.h.reqs[n]; !s.disk.free[r.d0] && !s.disk.free[r.d1] && !s.disk.free[r.d2]
    ensures var r := s.h.reqs[n]; Holds(s.h, n, r.d0) && Holds(s.h, n, r.d1) && Holds(s.h, n, r.d2)
  {
    var r := s.h.reqs[n];
    assert Holds(s.h, n, r.d0) && Holds(s.h, n, r.d1) && Holds(s.h, n, r.d2);
  }

  lemma BeginLiveOwn(s: State, r: Request)
    requires OwnerInv(s.disk, s.h) && ThreeFree(s.disk.free, r.d0, r.d1, r.d2)
    ensures LiveOwn(Begin(s, r).h)
  {
    var t := Begin(s, r);
    forall n | n in t.h.live
      ensures t.h.reqs[n].d0 != t.h.reqs[n].d1 && t.h.reqs[n].d0 != t.h.reqs[n].d2 && t.h.reqs[n].d1 != t.h.reqs[n].d2
      ensures Holds(t.h, n, t.h.reqs[n].d0) && Holds(t.h, n, t.h.reqs[n].d1) && Holds(t.h, n, t.h.reqs[n].d2)
    {
      if n in s.h.live { LiveNotFree(s, n); }
    }
  }

  lemma BeginOwner(s: State, r: Request)
    requires OwnerInv(s.disk, s.h) && ThreeFree(s.disk.free, r.d0, r.d1, r.d2)
    ensures OwnerInv(Begin(s, r).disk, Begin(s, r).h)
  {
    BeginLiveOwn(s, r);
    hide Holds;
  }

  lemma ThreeMoreInUse(free: seq<bool>, d0: Idx, d1: Idx, d2: Idx)
    requires |free| == 8 && ThreeFree(free, d0, d1, d2)
    ensures |InUse(free[d0 := false][d1 := false][d2 := false])| == |InUse(free)| + 3
  {
    var t: set<nat> := {d0, d1, d2};
    assert InUse(free[d0 := false][d1 := false][d2 := false]) == InUse(free) + t;
    assert InUse(free) !! t;
    assert |t| == 3;
  }

  lemma BeginCount(s: State, r: Request)
    requires OrderInv(s.h) && Shaped(s.disk) && |s.h.slot| == 8
    requires CountInv(s.disk, s.h) && ThreeFree(s.disk.free, r.d0, r.d1, r.d2)
    ensures CountInv(Begin(s, r).disk, Begin(s, r).h)
  {
    ThreeMoreInUse(s.disk.free, r.d0, r.d1, r.d2);
    hide InUse;
    assert |s.h.reqs| !in s.h.live;
  }

  lemma BeginChain(s: State, r: Request)
    requires ChainInv(s) && |s.h.slot| == 8 && s.h.phase == Idle
    ensures ChainInv(Begin(s, r))
  {
    var t := Begin(s, r);
    forall n | n in t.h.live && Formed(t.h, n) ensures n < |t.h.reqs| && Chain(t, t.h.reqs[n]) {
      assert Chain(s, s.h.reqs[n]);
    }
  }

  lemma BeginInfo(s: State, r: Request)
    requires InfoInv(s.disk, s.h) && |s.h.slot| == 8 && s.h.phase == Idle && r.buf != 0
    ensures InfoInv(Begin(s, r).disk, Begin(s, r).h)
  {
  }

  lemma BeginBusy(s: State, r: Request)
    requires BusyInv(s.disk, s.h) && CanBegin(s, r) && |s.h.slot| == 8
    ensures BusyInv(Begin(s, r).disk, Begin(s, r).h)
  {
  }

  lemma BeginAvail(s: State, r: Request)
    requires AvailInv(s) && |s.h.slot| == 8 && s.h.phase == Idle
    ensures AvailInv(Begin(s, r))
  {
  }

  lemma BeginUsed(s: State, r: Request)
    requires UsedInv(s.disk, s.h) && |s.h.slot| == 8
    ensures UsedInv(Begin(s, r).disk, Begin(s, r).h)
  {
  }

  lemma BeginInv(s: State, r: Request)
    requires Inv(s) && CanBegin(s, r)
    ensures Inv(Begin(s, r))
  {
    assert |s.h.slot| == 8;
    hide OrderInv, CountInv, ChainInv, InfoInv, BusyInv, AvailInv, UsedInv, LiveOwn, SlotsOwned, Begin;
    BeginOrder(s, r);
    BeginOwner(s, r);
    BeginCount(s, r);
    BeginChain(s, r);
    BeginInfo(s, r);
    BeginBusy(s, r);
    BeginAvail(s, r);
    BeginUsed(s, r);
  }

  // A request under way is the latest one, live, and neither read nor completed.
  lemma LatestIsLive(h: History)
    requires OrderInv(h) && h.phase != Idle
    ensures h.reqs != [] && |h.reqs| - 1 in h.live && |h.reqs| - 1 !in h.done
  {
  }

  // --- Fill: descriptors and bookkeeping are written ---

  // Another live request has other descriptors.
  lemma OtherDescriptors(s: State, n: nat, m: nat)
    requires OwnerInv(s.disk, s.h) && n in s.h.live && m in s.h.live && n != m
    ensures n < |s.h.reqs| && m < |s.h.reqs|
    ensures var r, q := s.h.reqs[n], s.h.reqs[m]; {r.d0, r.d1, r.d2} !! {q.d0, q.d1, q.d2}
  {
    var r, q := s.h.reqs[n], s.h.reqs[m];
    assert Holds(s.h, n, r.d0) && Holds(s.h, n, r.d1) && Holds(s.h, n, r.d2);
    assert Holds(s.h, m, q.d0) && Holds(s.h, m, q.d1) && Holds(s.h, m, q.d2);
  }

  // A step that leaves free map, requests and descriptor holders alone keeps the ownership.
  lemma SameOwner(s: State, t: State)
    requires OwnerInv(s.disk, s.h) && Shaped(t.disk)
    requires t.disk.free == s.disk.free
    requires t.h.reqs == s.h.reqs && t.h.live == s.h.live && t.h.slot == s.h.slot
    ensures OwnerInv(t.disk, t.h)
  {
    forall n | n in t.h.live
      ensures Holds(t.h, n, t.h.reqs[n].d0) && Holds(t.h, n, t.h.reqs[n].d1) && Holds(t.h, n, t.h.reqs[n].d2)
    {
      assert Holds(s.h, n, s.h.reqs[n].d0) && Holds(s.h, n, s.h.reqs[n].d1) && Holds(s.h, n, s.h.reqs[n].d2);
    }
  }

  // A step that leaves the descriptor table alone and forms no request keeps the chains.
  lemma SameChain(s: State, t: State)
    requires ChainInv(s) && Shaped(t.disk)
    requires t.disk.desc == s.disk.desc && t.bsize == s.bsize && t.info == s.info
    requires t.h.reqs == s.h.reqs && t.h.live == s.h.live
    requires forall n :: n in t.h.live && Formed(t.h, n) ==> Formed(s.h, n)
    ensures ChainInv(t)
  {
    forall n | n in t.h.live && Formed(t.h, n) ensures n < |t.h.reqs| && Chain(t, t.h.reqs[n]) {
      assert Chain(s, s.h.reqs[n]);
    }
  }

  ghost predicate LatestOwned(s: State) {
    && OwnerInv(s.disk, s.h)
    && s.h.reqs != [] && |s.h.reqs| - 1 in s.h.live && |s.h.reqs| - 1 !in s.h.done
  }

  lemma FillChain(s: State)
    requires LatestOwned(s) && ChainInv(s) && CanFill(s)
    ensures ChainInv(Fill(s))
  {
    var t, k := Fill(s), |s.h.reqs| - 1;
    forall n | n in t.h.live && Formed(t.h, n) ensures n < |t.h.reqs| && Chain(t, t.h.reqs[n]) {
      if n == k {
        LatestIsFilled(s);
      } else {
        OtherDescriptors(s, n, k);
        assert Chain(s, s.h.reqs[n]);
      }
    }
  }

  lemma LatestIsFilled(s: State)
    requires LatestOwned(s)
    ensures Chain(Fill(s), Latest(s.h))
  {
    LiveNotFree(s, |s.h.reqs| - 1);
  }

  lemma FillInfo(s: State)
    requires LatestOwned(s) && InfoInv(s.disk, s.h) && CanFill(s)
    ensures InfoInv(Fill(s).disk, Fill(s).h)
  {
    var t, k := Fill(s), |s.h.reqs| - 1;
    forall n | n in t.h.live && n != k
      ensures t.disk.infoBuf[t.h.reqs[n].d0] == t.h.reqs[n].buf && t.disk.infoStatus[t.h.reqs[n].d0] == 0
    {
      OtherDescriptors(s, n, k);
    }
  }

  lemma FillBusy(s: State)
    requires LatestOwned(s) && BusyInv(s.disk, s.h) && CanFill(s)
    ensures BusyInv(Fill(s).disk, Fill(s).h)
  {
  }

  lemma FillOthers(s: State)
    requires s.h.reqs != [] && CanFill(s)
    requires OrderInv(s.h) && CountInv(s.disk, s.h) && AvailInv(s) && UsedInv(s.disk, s.h)
    ensures var t := Fill(s);
      && Shaped(t.disk) && OrderInv(t.h) && CountInv(t.disk, t.h) && AvailInv(t) && UsedInv(t.disk, t.h)
  {
  }

  lemma FillInv(s: State)
    requires Inv(s) && CanFill(s)
    ensures s.h.reqs != [] && Inv(Fill(s))
  {
    LatestIsLive(s.h);
    hide OrderInv, CountInv, ChainInv, InfoInv, BusyInv, AvailInv, UsedInv, LiveOwn, SlotsOwned;
    FillOthers(s);
    SameOwner(s, Fill(s));
    FillChain(s);
    FillInfo(s);
    FillBusy(s);
  }

  // --- Place: the head is written into the ring slot ---

  // The slot that is written is not one the device has yet to read.
  lemma SlotIsRead(s: State, n: nat)
    requires OrderInv(s.h) && Shaped(s.disk) && CountInv(s.disk, s.h)
    requires s.h.taken <= n < Published(s.h)
    ensures n % 8 != Published(s.h) % 0x1_0000 % 8
  {
    WindowsAreShort(s.disk, s.h);
    CloseMod8(n, Published(s.h));
  }

  lemma PlaceAvail(s: State)
    requires OrderInv(s.h) && Shaped(s.disk) && CountInv(s.disk, s.h) && AvailInv(s) && CanPlace(s)
    ensures AvailInv(Place(s))
  {
    var t, k := Place(s), |s.h.reqs| - 1;
    WrapThen8(k);
    forall n | t.h.taken <= n < Published(t.h) ensures t.disk.availRing[n % 8] == t.h.reqs[n].d0 {
      SlotIsRead(s, n);
    }
  }

  lemma PlaceOthers(s: State)
    requires s.h.reqs != [] && CanPlace(s)
    requires OrderInv(s.h) && CountInv(s.disk, s.h) && UsedInv(s.disk, s.h)
    requires InfoInv(s.disk, s.h) && BusyInv(s.disk, s.h)
    ensures var t := Place(s);
      && Shaped(t.disk) && OrderInv(t.h) && CountInv(t.disk, t.h) && UsedInv(t.disk, t.h)
      && InfoInv(t.disk, t.h) && BusyInv(t.disk, t.h)
  {
  }

  lemma PlaceInv(s: State)
    requires Inv(s) && CanPlace(s)
    ensures s.h.reqs != [] && Inv(Place(s))
  {
    LatestIsLive(s.h);
    hide OrderInv, CountInv, ChainInv, InfoInv, BusyInv, AvailInv, UsedInv, LiveOwn, SlotsOwned;
    PlaceOthers(s);
    PlaceAvail(s);
    SameOwner(s, Place(s));
    SameChain(s, Place(s));
  }

  // --- Publish: the index is advanced ---

  lemma IncWraps(k: nat)
    ensures Inc16(k % 0x1_0000) == (k + 1) % 0x1_0000
    ensures (k % 8 + 1) % 8 == (k + 1) % 8
  {
    IncMod(k, 0x1_0000);
    IncMod(k, 8);
  }

  lemma IncMod(k: nat, m: nat)
    requires m > 1
    ensures (k % m + 1) % m == (k + 1) % m
  {
    var q, r := k / m, k % m;
    assert k == m * q + r;
    if r + 1 < m {
      Remainder(k + 1, m, q, r + 1);
      Remainder(r + 1, m, 0, r + 1);
    } else {
      NextMultiple(m, q);
      Remainder(k + 1, m, q + 1, 0);
      Remainder(m, m, 1, 0);
    }
  }

  lemma NextMultiple(m: nat, q: nat)
    ensures m * (q + 1) == m * q + m
  {
  }

  lemma PublishAvail(s: State)
    requires OrderInv(s.h) && AvailInv(s) && CanPublish(s)
    ensures AvailInv(Publish(s))
  {
    IncWraps(|s.h.reqs| - 1);
  }

  lemma PublishOthers(s: State)
    requires CanPublish(s) && Shaped(s.disk)
    requires OrderInv(s.h) && CountInv(s.disk, s.h) && UsedInv(s.disk, s.h)
    requires InfoInv(s.disk, s.h) && BusyInv(s.disk, s.h)
    ensures var t := Publish(s);
      && OrderInv(t.h) && CountInv(t.disk, t.h) && UsedInv(t.disk, t.h)
      && InfoInv(t.disk, t.h) && BusyInv(t.disk, t.h)
  {
  }

  lemma PublishInv(s: State)
    requires Inv(s) && CanPublish(s)
    ensures Inv(Publish(s))
  {
    hide OrderInv, CountInv, ChainInv, InfoInv, BusyInv, AvailInv, UsedInv, LiveOwn, SlotsOwned;
    PublishOthers(s);
    PublishAvail(s);
    SameOwner(s, Publish(s));
    SameChain(s, Publish(s));
  }

  // --- Take ---

  lemma TakeExact(s: State)
    requires OrderInv(s.h) && CountInv(s.disk, s.h) && AvailInv(s)
    ensures CanTake(s) <==> s.h.taken < Published(s.h)
    ensures CanTake(s) ==> s.disk.availRing[s.deviceSeen % 8] == s.h.reqs[s.h.taken].d0
  {
    WindowsAreShort(s.disk, s.h);
    CloseMod16(s.h.taken, Published(s.h));
    WrapThen8(s.h.taken);
  }

  lemma TakeAvail(s: State)
    requires AvailInv(s) && s.h.taken < Published(s.h)
    requires s.disk.availRing[s.deviceSeen % 8] == s.h.reqs[s.h.taken].d0
    ensures AvailInv(Take(s))
  {
    IncWraps(s.h.taken);
  }

  lemma TakeOrder(s: State)
    requires OrderInv(s.h) && Shaped(s.disk) && s.h.taken < Published(s.h)
    ensures OrderInv(Take(s).h)
  {
  }

  // Take changes nothing that the other parts of the invariant mention.
  lemma TakeOthers(s: State)
    requires OwnerInv(s.disk, s.h) && ChainInv(s) && InfoInv(s.disk, s.h)
    requires CountInv(s.disk, s.h) && BusyInv(s.disk, s.h) && UsedInv(s.disk, s.h)
    ensures var t := Take(s);
      && OwnerInv(t.disk, t.h) && ChainInv(t) && InfoInv(t.disk, t.h)
      && CountInv(t.disk, t.h) && BusyInv(t.disk, t.h) && UsedInv(t.disk, t.h)
  {
    SameOwner(s, Take(s));
    SameChain(s, Take(s));
    assert InfoInv(s.disk, Take(s).h);
    hide InfoInv;
    assert BusyInv(s.disk, Take(s).h);
    hide BusyInv;
    assert UsedInv(s.disk, Take(s).h);
  }

  lemma TakeInv(s: State)
    requires Inv(s) && CanTake(s)
    ensures Inv(Take(s))
  {
    TakeExact(s);
    hide OrderInv, CountInv, ChainInv, InfoInv, BusyInv, AvailInv, UsedInv, LiveOwn, SlotsOwned, Take;
    TakeAvail(s);
    TakeOrder(s);
    TakeOthers(s);
  }

  // --- Complete ---

  lemma CompleteOrder(s: State, n: nat)
    requires OrderInv(s.h) && Shaped(s.disk) && CanComplete(s, n)
    ensures n < |s.h.reqs| && OrderInv(Complete(s, n).h)
  {
    var t := Complete(s, n);
    assert t.h.done[..t.h.handled] == s.h.done[..s.h.handled];
  }

  lemma CompleteUsed(s: State, n: nat)
    requires OrderInv(s.h) && CountInv(s.disk, s.h) && UsedInv(s.disk, s.h) && n < |s.h.reqs|
    ensures UsedInv(Complete(s, n).disk, Complete(s, n).h)
  {
    var t, k := Complete(s, n), |s.h.done|;
    WindowsAreShort(s.disk, s.h);
    CloseMod8(k, k);
    IncWraps(k);
    forall i | t.h.handled <= i < |t.h.done| ensures t.disk.usedRing[i % 8] == t.h.reqs[t.h.done[i]].d0 {
      if i < k { CloseMod8(i, k); }
    }
  }

  lemma CompleteBusy(s: State, n: nat)
    requires BusyInv(s.disk, s.h) && Shaped(s.disk) && n < |s.h.reqs|
    ensures BusyInv(Complete(s, n).disk, Complete(s, n).h)
  {
    var t := Complete(s, n);
    assert t.h.done[..t.h.handled] == s.h.done[..s.h.handled];
  }

  lemma CompleteInfo(s: State, n: nat)
    requires InfoInv(s.disk, s.h) && n < |s.h.reqs|
    ensures InfoInv(Complete(s, n).disk, Complete(s, n).h)
  {
  }

  lemma CompleteAvail(s: State, n: nat)
    requires AvailInv(s) && n < |s.h.reqs|
    ensures AvailInv(Complete(s, n))
  {
  }

  lemma CompleteInv(s: State, n: nat)
    requires Inv(s) && CanComplete(s, n)
    ensures n < |s.h.reqs| && Inv(Complete(s, n))
  {
    CompleteOrder(s, n);
    assert CountInv(Complete(s, n).disk, Complete(s, n).h);
    hide OrderInv, CountInv, ChainInv, InfoInv, BusyInv, AvailInv, UsedInv, LiveOwn, SlotsOwned, Complete;
    SameOwner(s, Complete(s, n));
    CompleteUsed(s, n);
    CompleteBusy(s, n);
    CompleteInfo(s, n);
    SameChain(s, Complete(s, n));
    CompleteAvail(s, n);
  }

  // --- Handle ---

  // The loop condition is true exactly when there is a completion to handle; then the ring
  // slot holds the head of the oldest unhandled one, its buffer pointer is not null, it is
  // the buffer of that request, and its status is 0.
  lemma HandleExact(s: State)
    requires Inv(s)
    ensures Shaped(s.disk)
    ensures Pending(s.disk) <==> s.h.handled < |s.h.done|
    ensures Pending(s.disk) ==>
      && var n := s.h.done[s.h.handled];
      && var id := s.disk.usedRing[s.disk.usedIdx];
      && n in s.h.live && n < |s.h.reqs|
      && id == s.h.reqs[n].d0
      && s.disk.infoBuf[id] == s.h.reqs[n].buf != 0
      && s.disk.infoStatus[id] == 0
      && s.h.reqs[n].buf in s.disk.busy
  {
    HandleGuard(s);
    UnhandledAreLive(s.h);
    if Pending(s.disk) { assert s.h.done[s.h.handled] !in s.h.done[..s.h.handled]; }
  }

  lemma HandleGuard(s: State)
    requires OrderInv(s.h) && CountInv(s.disk, s.h) && UsedInv(s.disk, s.h)
    ensures Pending(s.disk) <==> s.h.handled < |s.h.done|
  {
    WindowsAreShort(s.disk, s.h);
    CloseMod8(s.h.handled, |s.h.done|);
  }

  lemma HandleOrder(s: State)
    requires OrderInv(s.h) && s.h.handled < |s.h.done| && Shaped(s.disk) && s.disk.usedRing[s.disk.usedIdx] < 8
    ensures OrderInv(Handle(s).h)
  {
    var t := Handle(s);
    forall n: nat | n < |t.h.reqs| && n !in t.h.live ensures n in t.h.done[..t.h.handled] {
      assert n in s.h.done[..s.h.handled];
    }
  }

  lemma HandleBusy(s: State)
    requires OrderInv(s.h) && BusyInv(s.disk, s.h) && Shaped(s.disk) && s.disk.usedRing[s.disk.usedIdx] < 8
    requires s.h.handled < |s.h.done| && s.h.done[s.h.handled] in s.h.live
    requires s.disk.infoBuf[s.disk.usedRing[s.disk.usedIdx]] == s.h.reqs[s.h.done[s.h.handled]].buf
    ensures BusyInv(Handle(s).disk, Handle(s).h)
  {
    var t := Handle(s);
    var d := s.h.done[s.h.handled];
    assert t.h.done[..t.h.handled] == s.h.done[..s.h.handled] + [d];
  }

  lemma HandleUsed(s: State)
    requires UsedInv(s.disk, s.h) && s.h.handled < |s.h.done|
    requires s.disk.usedRing[s.disk.usedIdx] < 8
    requires s.disk.infoBuf[s.disk.usedRing[s.disk.usedIdx]] == s.h.reqs[s.h.done[s.h.handled]].buf
    ensures UsedInv(Handle(s).disk, Handle(s).h)
  {
    IncWraps(s.h.handled);
  }

  lemma HandleInv(s: State)
    requires Inv(s) && Pending(s.disk)
    ensures s.disk.usedRing[s.disk.usedIdx] < 8 && Inv(Handle(s))
  {
    HandleExact(s);
    assert CountInv(Handle(s).disk, Handle(s).h);
    assert InfoInv(Handle(s).disk, Handle(s).h);
    assert AvailInv(Handle(s));
    hide OrderInv, CountInv, ChainInv, InfoInv, BusyInv, AvailInv, UsedInv, LiveOwn, SlotsOwned, Handle;
    HandleOrder(s);
    HandleBusy(s);
    HandleUsed(s);
    SameOwner(s, Handle(s));
    SameChain(s, Handle(s));
  }

  // --- Finish ---

  lemma FinishOrder(s: State, n: nat)
    requires OrderInv(s.h) && BusyInv(s.disk, s.h) && Shaped(s.disk) && |s.h.slot| == 8 && CanFinish(s, n)
    ensures OrderInv(Finish(s, n).h)
  {
  }

  lemma FinishOwner(s: State, n: nat)
    requires OwnerInv(s.disk, s.h) && CanFinish(s, n)
    ensures OwnerInv(Finish(s, n).disk, Finish(s, n).h)
  {
    var t := Finish(s, n);
    forall m | m in t.h.live
      ensures t.h.reqs[m].d0 != t.h.reqs[m].d1 && t.h.reqs[m].d0 != t.h.reqs[m].d2 && t.h.reqs[m].d1 != t.h.reqs[m].d2
      ensures Holds(t.h, m, t.h.reqs[m].d0) && Holds(t.h, m, t.h.reqs[m].d1) && Holds(t.h, m, t.h.reqs[m].d2)
    {
      assert Holds(s.h, m, s.h.reqs[m].d0) && Holds(s.h, m, s.h.reqs[m].d1) && Holds(s.h, m, s.h.reqs[m].d2);
      OtherDescriptors(s, n, m);
    }
  }

  lemma FinishCount(s: State, n: nat)
    requires OwnerInv(s.disk, s.h) && CountInv(s.disk, s.h) && CanFinish(s, n)
    ensures CountInv(Finish(s, n).disk, Finish(s, n).h)
  {
    var t, r := Finish(s, n), s.h.reqs[n];
    LiveNotFree(s, n);
    assert InUse(t.disk.free) == InUse(s.disk.free) - {r.d0, r.d1, r.d2};
    assert r.d0 in InUse(s.disk.free) && r.d1 in InUse(s.disk.free) && r.d2 in InUse(s.disk.free);
    assert |{r.d0, r.d1, r.d2}| == 3 by { assert Holds(s.h, n, r.d0); }
  }

  lemma FinishChain(s: State, n: nat)
    requires OwnerInv(s.disk, s.h) && ChainInv(s) && CanFinish(s, n)
    ensures ChainInv(Finish(s, n))
  {
    var t := Finish(s, n);
    forall m | m in t.h.live && Formed(t.h, m) ensures m < |t.h.reqs| && Chain(t, t.h.reqs[m]) {
      OtherDescriptors(s, n, m);
      assert Chain(s, s.h.reqs[m]);
    }
  }

  lemma FinishInfo(s: State, n: nat)
    requires OwnerInv(s.disk, s.h) && InfoInv(s.disk, s.h) && CanFinish(s, n)
    ensures InfoInv(Finish(s, n).disk, Finish(s, n).h)
  {
    var t := Finish(s, n);
    forall m | m in t.h.live && Formed(t.h, m)
      ensures t.disk.infoBuf[t.h.reqs[m].d0] == t.h.reqs[m].buf
    {
      OtherDescriptors(s, n, m);
    }
  }

  lemma FinishOthers(s: State, n: nat)
    requires BusyInv(s.disk, s.h) && AvailInv(s) && UsedInv(s.disk, s.h) && CanFinish(s, n) && |s.h.slot| == 8
    ensures var t := Finish(s, n); BusyInv(t.disk, t.h) && AvailInv(t) && UsedInv(t.disk, t.h)
  {
    var t := Finish(s, n);
    assert AvailInv(t) by { hide BusyInv, UsedInv; }
    assert UsedInv(t.disk, t.h) by { hide BusyInv, AvailInv; }
    hide AvailInv, UsedInv;
  }

  lemma FinishInv(s: State, n: nat)
    requires Inv(s) && CanFinish(s, n)
    ensures Inv(Finish(s, n))
  {
    assert |s.h.slot| == 8;
    hide OrderInv, CountInv, ChainInv, InfoInv, BusyInv, AvailInv, UsedInv, LiveOwn, SlotsOwned, Finish, CanFinish;
    FinishOthers(s, n);
    FinishOrder(s, n);
    FinishOwner(s, n);
    FinishCount(s, n);
    FinishChain(s, n);
    FinishInfo(s, n);
  }

  // --- Retry ---

  lemma RetryInv(s: State)
    requires Inv(s)
    ensures Inv(Retry(s))
  {
    var t := Retry(s);
    SameOwner(s, Retry(s));
    RetryChain(s);
    assert CountInv(t.disk, t.h) && BusyInv(t.disk, t.h);
    hide CountInv, BusyInv, ChainInv, OwnerInv;
    assert InfoInv(t.disk, t.h);
    assert AvailInv(t);
    assert UsedInv(t.disk, t.h);
  }

  lemma RetryChain(s: State)
    requires OwnerInv(s.disk, s.h) && ChainInv(s)
    ensures ChainInv(Retry(s))
  {
    var t := Retry(s);
    forall n | n in t.h.live && Formed(t.h, n) ensures n < |t.h.reqs| && Chain(t, t.h.reqs[n]) {
      LiveNotFree(s, n);
      assert Chain(s, s.h.reqs[n]);
    }
  }
}
