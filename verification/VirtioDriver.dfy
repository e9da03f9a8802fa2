// The driver object of 参考资料/virtio_disk.cpp: rings, bookkeeping, and the three entry
// points split into protocol steps: virtio_disk_rw between the stores the device may
// observe and where it waits, virtio_disk_intr into its iterations.
module VirtioDriver {
  import opened Bits
  import opened DescriptorFlags
  import opened VirtioProtocol
  import opened VirtioSteps
  import opened VirtioDisk

  class Driver {
    const table: DescriptorTable      // desc[] and free[]
    const avail: array<uint16>        // flags, index, then NUM ring slots
    var deviceUsedIdx: uint16         // the id field of the used ring
    const usedElems: array<uint16>    // the ids of its elements
    var usedIdx: uint16               // used_idx
    const infoB: array<nat>           // info[].b
    const infoStatus: array<nat>      // info[].status
    var busy: set<nat>                // the buffers whose disk flag is 1
    var deviceSeen: uint16            // the device's own index into the avail ring
    ghost var s: State

    ghost predicate Shape() {
      && table.Valid() && avail.Length == 10 && usedElems.Length == 8
      && infoB.Length == 8 && infoStatus.Length == 8
      && avail != usedElems && infoB != infoStatus
    }

    // The shared memory and the bookkeeping as one value.
    ghost function Contents(): Disk
      reads this, table.desc, table.free, avail, usedElems, infoB, infoStatus
      requires Shape()
    {
      Disk(table.desc[..], avail[1], avail[2..], deviceUsedIdx, usedElems[..],
           table.free[..], usedIdx, infoB[..], infoStatus[..], busy)
    }

    ghost predicate Valid()
      reads this, table.desc, table.free, avail, usedElems, infoB, infoStatus
    {
      Shape() && s.disk == Contents() && s.deviceSeen == deviceSeen && Inv(s)
    }

    // The queue set-up of virtio_disk_init: zeroed rings, every descriptor free.
    constructor (ghost bsize: nat, ghost info: nat)
      ensures Valid() && s == Initial(bsize, info)
      ensures fresh(table) && fresh(table.desc) && fresh(table.free) && fresh(avail)
      ensures fresh(usedElems) && fresh(infoB) && fresh(infoStatus)
    {
      table := new DescriptorTable();
      avail := new uint16[10](_ => 0);
      usedElems := new uint16[8](_ => 0);
      infoB := new nat[8](_ => 0);
      infoStatus := new nat[8](_ => 0);
      deviceUsedIdx, usedIdx, busy, deviceSeen := 0, 0, {}, 0;
      s := Initial(bsize, info);
      new;
      InitialInv(bsize, info);
      hide Inv;
      assert s.disk.desc == table.desc[..];
      assert s.disk.free == table.free[..];
    }

    // virtio_disk.cpp lines 192-210: the header, data and status descriptors.
    method FillDescriptors(r: Request, bsize: nat, status: nat)
      requires table.Valid()
      modifies table.desc
      ensures table.desc[..] ==
              old(table.desc[..])[r.d0 := HeaderDesc(r)][r.d1 := DataDesc(r, bsize)][r.d2 := StatusDesc(r, status)]
    {
      table.desc[r.d0] := Desc(r.header, 16, F_NEXT, r.d1);
      var flags := if r.write then 0 else F_WRITE;
      flags := Or(flags, F_NEXT);
      table.desc[r.d1] := Desc(r.data, bsize, flags, r.d2);
      table.desc[r.d2] := Desc(status, 1, F_WRITE, 0);
    }

    // The start of virtio_disk_rw, with one attempt of the allocation loop: the first three
    // free descriptors are taken when there are three.
    method BeginRequest(buf: nat, header: nat, data: nat, write: bool)
      returns (started: bool, d0: Idx, d1: Idx, d2: Idx)
      requires Valid() && s.h.phase == Idle && FreshBuffer(s.h, buf)
      modifies this, table.desc, table.free
      ensures Valid()
      ensures started <==> |InUse(old(s).disk.free)| <= 5
      ensures started <==> |old(s).h.live| <= 1
      ensures !started ==> s == Retry(old(s))
      ensures started ==>
        && d0 == Pick(old(s).disk.free, 0) && d1 == Pick(old(s).disk.free, 1) && d2 == Pick(old(s).disk.free, 2)
        && CanBegin(old(s), Request(buf, header, data, write, d0, d1, d2))
        && s == Begin(old(s), Request(buf, header, data, write, d0, d1, d2))
        && s.h.reqs == old(s.h.reqs) + [Request(buf, header, data, write, d0, d1, d2)]
        && d0 < d1 < d2 && forall k: Idx :: k < d2 && old(s).disk.free[k] ==> k in {d0, d1, d2}
    {
      hide Inv, FirstFree, InUse, ClearFree, FreshBuffer, ThreeFree, Pick;
      InvFacts(s);
      started, d0, d1, d2 := false, 0, 0, 0;
      var idx := new int[3];
      var r := table.Alloc3Desc(idx);
      if r != 0 {
        RetryInv(s);
        s := Retry(s);
        return;
      }
      d0, d1, d2 := idx[0], idx[1], idx[2];
      ghost var request := Request(buf, header, data, write, d0, d1, d2);
      BeginInv(s, request);
      s := Begin(s, request);
      started := true;
    }

    // virtio_disk.cpp lines 192-214: the descriptors of the request, its status byte, the
    // disk flag and the buffer pointer.
    method FillRequest(r: Request, bsize: nat, info: nat)
      requires Valid() && CanFill(s) && s.h.reqs != [] && r == Latest(s.h)
      requires bsize == s.bsize && info == s.info
      modifies this, table.desc, infoB, infoStatus
      ensures Valid() && s == Fill(old(s))
    {
      hide Inv, HeaderDesc, DataDesc, StatusDesc;
      InvFacts(s);
      FillInv(s);
      FillDescriptors(r, bsize, info + 16 * r.d0 + 8);
      infoStatus[r.d0] := 0;
      busy := busy + {r.buf};
      infoB[r.d0] := r.buf;
      s := Fill(s);
    }

    // virtio_disk.cpp line 220: the head goes into the ring slot that avail[1] selects.
    method PlaceHead(head: Idx)
      requires Valid() && CanPlace(s) && s.h.reqs != [] && head == Latest(s.h).d0
      modifies this`s, avail
      ensures Valid() && s == Place(old(s))
    {
      hide Inv;
      InvFacts(s);
      PlaceInv(s);
      var k := avail[1] % 8;
      avail[2 + k] := head;
      assert avail[2..] == old(avail[2..])[k := head];
      s := Place(s);
    }

    // virtio_disk.cpp line 222: the index is advanced.
    method AdvanceIndex()
      requires Valid() && CanPublish(s)
      modifies this`s, avail
      ensures Valid() && s == Publish(old(s))
    {
      hide Inv, Inc16;
      InvFacts(s);
      PublishInv(s);
      avail[1] := Inc16(avail[1]);
      assert avail[2..] == old(avail[2..]);
      s := Publish(s);
    }

    // virtio_disk_rw up to the notification, with one attempt of the allocation loop.
    method StartRequest(buf: nat, header: nat, data: nat, write: bool, bsize: nat, info: nat)
      returns (started: bool, d0: Idx, d1: Idx, d2: Idx)
      requires Valid() && s.h.phase == Idle && FreshBuffer(s.h, buf) && bsize == s.bsize && info == s.info
      modifies this, table.desc, table.free, avail, infoB, infoStatus
      ensures Valid() && s.h.phase == Idle
      ensures started <==> |old(s).h.live| <= 1
      ensures !started ==> s == Retry(old(s))
      ensures started ==>
        CanBegin(old(s), Request(buf, header, data, write, d0, d1, d2)) &&
        s == Submit(old(s), Request(buf, header, data, write, d0, d1, d2))
      ensures started ==> s.h.reqs == old(s.h.reqs) + [Request(buf, header, data, write, d0, d1, d2)]
    {
      InvFacts(s);
      ghost var before := s;
      hide Inv, InUse, FreshBuffer, ThreeFree, Pick, Begin, Fill, Place, Publish, Retry, Submit, CanBegin;
      started, d0, d1, d2 := BeginRequest(buf, header, data, write);
      if !started { RetryFacts(before); }
      if started {
        SubmissionFacts(before, Request(buf, header, data, write, d0, d1, d2));
        FillRequest(Request(buf, header, data, write, d0, d1, d2), bsize, info);
        PlaceHead(d0);
        AdvanceIndex();
      }
    }

    // The device reads the next head.
    method DeviceTake() returns (head: nat)
      requires Valid() && deviceSeen != avail[1]
      modifies this
      ensures Valid() && s == Take(old(s))
      ensures old(s.h.taken) < |s.h.reqs| && head == s.h.reqs[old(s.h.taken)].d0
      ensures s.h.taken == old(s.h.taken) + 1
    {
      TakeExact(s);
      hide Inv;
      TakeInv(s);
      head := avail[2 + deviceSeen % 8];
      deviceSeen := Inc16(deviceSeen);
      s := Take(s);
    }

    // The device completes request n, whose head it has read, with status 0.
    method DeviceComplete(head: Idx, ghost n: nat)
      requires Valid() && CanComplete(s, n) && n < |s.h.reqs| && head == s.h.reqs[n].d0
      modifies this, usedElems, infoStatus
      ensures Valid() && s == Complete(old(s), n) && s.h.done == old(s.h.done) + [n]
    {
      hide Inv;
      InvFacts(s);
      CompleteInv(s, n);
      infoStatus[head] := 0;
      usedElems[deviceUsedIdx % 8] := head;
      deviceUsedIdx := Inc16(deviceUsedIdx);
      s := Complete(s, n);
    }

    // One iteration of the loop of virtio_disk_intr; the status panic is not reached.
    method HandleOne()
      requires Valid() && Pending(s.disk)
      modifies this
      ensures old(s.h.handled) < |old(s.h.done)|
      ensures Valid() && old(s.disk.usedRing[s.disk.usedIdx]) < 8 && s == Handle(old(s))
      ensures s.h.woken == old(s.h.woken) + [old(s.disk.infoBuf[s.disk.usedRing[s.disk.usedIdx]])]
      ensures s.h.handled == old(s.h.handled) + 1
    {
      HandleExact(s);
      HandleInv(s);
      hide Inv;
      var id := usedElems[usedIdx];
      assert infoStatus[id] == 0;
      busy := busy - {infoB[id]};
      usedIdx := (usedIdx + 1) % 8;
      s := Handle(s);
    }

    // virtio_disk_intr: handles every completion, oldest first, and clears the disk flags of
    // exactly the buffers it wakes.
    method Interrupt()
      requires Valid()
      modifies this
      ensures Valid() && !Pending(s.disk) && usedIdx % 8 == deviceUsedIdx % 8
      ensures s.h == old(s.h).(handled := |old(s.h.done)|, woken := s.h.woken) && old(s.h.woken) <= s.h.woken
      ensures s == old(s).(h := s.h, disk := old(s.disk).(usedIdx := s.disk.usedIdx, busy := s.disk.busy))
      ensures s.disk.busy == old(s.disk.busy) - set b | b in s.h.woken[|old(s.h.woken)|..]
    {
      hide Inv;
      while usedIdx % 8 != deviceUsedIdx % 8
        invariant Valid()
        invariant s.h == old(s.h).(handled := s.h.handled, woken := s.h.woken) && old(s.h.woken) <= s.h.woken
        invariant s == old(s).(h := s.h, disk := old(s.disk).(usedIdx := s.disk.usedIdx, busy := s.disk.busy))
        invariant s.disk.busy == old(s.disk.busy) - set b | b in s.h.woken[|old(s.h.woken)|..]
        decreases |s.h.done| - s.h.handled
      {
        ghost var woken, n := s.h.woken, |old(s.h.woken)|;
        HandleOne();
        assert s.h.woken[n..] == woken[n..] + [s.h.woken[|woken|]];
      }
      HandleExact(s);
      HandledBound(s);
    }

    // The end of virtio_disk_rw, once the disk flag is no longer 1.
    method FinishRequest(head: Idx, ghost n: nat)
      requires Valid() && CanFinish(s, n) && head == s.h.reqs[n].d0
      modifies this, table.desc, table.free, infoB
      ensures Valid() && s == Finish(old(s), n) && s.h.live == old(s.h.live) - {n}
    {
      hide Inv, IsChain;
      InvFacts(s);
      ghost var r := s.h.reqs[n];
      LiveChain(s, n);
      FinishInv(s, n);
      infoB[head] := 0;
      table.FreeChain(head, [r.d0, r.d1, r.d2]);
      FreedChain(s.disk, table.desc[..], table.free[..], r);
      s := Finish(s, n);
    }
  }

  lemma RetryFacts(s: State)
    requires Shaped(s.disk)
    ensures Retry(s).h == s.h
  {
  }

  // The four steps of a submission fit together.
  lemma SubmissionFacts(s: State, r: Request)
    requires Shaped(s.disk) && |s.h.slot| == 8
    ensures var a := Begin(s, r);
      && CanFill(a) && a.h.reqs == s.h.reqs + [r] && Latest(a.h) == r && Shaped(a.disk)
      && a.bsize == s.bsize && a.info == s.info
      && var b := Fill(a);
      && CanPlace(b) && b.h.reqs == s.h.reqs + [r] && Latest(b.h) == r && Shaped(b.disk)
      && var c := Place(b);
      && CanPublish(c) && Publish(c) == Submit(s, r)
      && Publish(c).h.phase == Idle && Publish(c).h.reqs == s.h.reqs + [r]
  {
  }

  // The state of a valid driver is what its arrays and fields hold.
  lemma ValidMeans(d: Driver)
    requires d.Valid()
    ensures d.s.disk.desc == d.table.desc[..] && d.s.disk.free == d.table.free[..]
    ensures d.avail.Length == 10 && d.s.disk.availIdx == d.avail[1] && d.s.disk.availRing == d.avail[2..]
    ensures d.s.disk.deviceUsedIdx == d.deviceUsedIdx && d.s.disk.usedRing == d.usedElems[..]
    ensures d.s.disk.usedIdx == d.usedIdx && d.s.disk.busy == d.busy && d.s.deviceSeen == d.deviceSeen
    ensures d.s.disk.infoBuf == d.infoB[..] && d.s.disk.infoStatus == d.infoStatus[..]
  {
    hide Inv;
  }

  // The three descriptors as their fields.
  lemma ThreeDescriptors(r: Request, bsize: nat, info: nat)
    ensures HeaderDesc(r) == Desc(r.header, 16, 1, r.d1)
    ensures DataDesc(r, bsize) == Desc(r.data, bsize, if r.write then 1 else 3, r.d2)
    ensures StatusDesc(r, info + 16 * r.d0 + 8) == Desc(info + 16 * r.d0 + 8, 1, 2, 0)
  {
    FlagValues();
  }

  // Freeing the elements of a three-descriptor chain is what the protocol step says.
  lemma FreedChain(d: Disk, desc: seq<Desc>, free: seq<bool>, r: Request)
    requires Shaped(d) && |desc| == |free| == 8
    requires forall i :: 0 <= i < 8 ==> free[i] == (d.free[i] || i in [r.d0, r.d1, r.d2])
    requires forall i :: 0 <= i < 8 ==>
      desc[i] == if i in [r.d0, r.d1, r.d2] then ClearAddr(d.desc[i]) else d.desc[i]
    requires r.d0 != r.d1 && r.d0 != r.d2 && r.d1 != r.d2
    ensures free == FinishDisk(d, r).free && desc == FinishDisk(d, r).desc
  {
  }

  lemma InvFacts(s: State)
    requires Inv(s)
    ensures Shaped(s.disk) && |s.h.slot| == 8
    ensures |InUse(s.disk.free)| <= 5 <==> |s.h.live| <= 1
  {
  }

  lemma HandledBound(s: State)
    requires Inv(s)
    ensures s.h.handled <= |s.h.done|
  {
  }

  // The chain of a published request in flight is one that free_chain walks safely.
  lemma LiveChain(s: State, n: nat)
    requires Inv(s) && n in s.h.live && n < Published(s.h)
    ensures n < |s.h.reqs| && Shaped(s.disk) && |s.h.slot| == 8
    ensures var r := s.h.reqs[n];
      && IsChain(s.disk.desc, [r.d0, r.d1, r.d2])
      && !s.disk.free[r.d0] && !s.disk.free[r.d1] && !s.disk.free[r.d2]
      && r.d0 != r.d1 && r.d0 != r.d2 && r.d1 != r.d2
      && [r.d0, r.d1, r.d2][0] == r.d0
  {
    FlagValues();
    LiveNotFree(s, n);
    var r := s.h.reqs[n];
    assert Formed(s.h, n) && Chain(s, r);
    assert Holds(s.h, n, r.d0);
  }
}
