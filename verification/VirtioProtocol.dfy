// The split-ring block driver of 参考资料/virtio_disk.cpp as a transition system: the
// driver's and the device's steps, and the history that the properties speak about. The
// rings and the request layout are those of VirtIO 1.1, sections 2.6 and 5.2.6.
module VirtioProtocol {
  import opened Bits
  import opened DescriptorFlags
  import opened Sequences

  // NUM = 8 descriptors, and as many ring slots.
  type Idx = i: nat | i < 8

  datatype Desc = Desc(addr: nat, len: nat, flags: nat, next: nat)

  // The memory shared by driver and device, and the driver's own bookkeeping.
  datatype Disk = Disk(
    desc: seq<Desc>,
    availIdx: uint16,                 // avail[1]
    availRing: seq<uint16>,           // avail[2..]
    deviceUsedIdx: uint16,            // used->id, written by the device
    usedRing: seq<nat>,               // used->elems[].id
    free: seq<bool>,
    usedIdx: nat,                     // used_idx, kept modulo NUM
    infoBuf: seq<nat>,                // info[].b, 0 is NULL
    infoStatus: seq<nat>,             // info[].status
    busy: set<nat>)                   // the buffers b with b->disk == 1

  // One call of virtio_disk_rw, with the descriptors it was given.
  datatype Request = Request(buf: nat, header: nat, data: nat, write: bool, d0: Idx, d1: Idx, d2: Idx)

  // How far the latest call of virtio_disk_rw has got with its request: nothing is under
  // way, its descriptors are taken, they are filled in, the head is in the ring slot.
  datatype Phase = Idle | Allocated | Filled | Placed

  // History: requests are numbered in the order of their submission. Only the latest can
  // be unpublished, since submissions take the lock one after the other.
  datatype History = History(
    reqs: seq<Request>,
    phase: Phase,
    taken: nat,                       // how many heads the device has read
    seen: seq<nat>,                   // the heads it read, in order
    done: seq<nat>,                   // the requests it completed, in used-ring order
    handled: nat,                     // how many completions the interrupt loop has consumed
    woken: seq<nat>,                  // the buffers it woke, in order
    live: set<nat>,                   // requests whose descriptors are not yet freed
    slot: seq<int>)                   // the request that holds each descriptor, or -1

  // bsize is BSIZE; status bytes lie in the info array.
  datatype State = State(disk: Disk, deviceSeen: uint16, h: History, bsize: nat, info: nat)

  function StatusAddress(s: State, i: Idx): nat {
    s.info + 16 * i + 8
  }

  // --- Steps ---

  function Inc16(x: uint16): uint16 {
    (x + 1) % 0x1_0000
  }

  // The three descriptors as virtio_disk_rw fills them in: header, data, status.
  function HeaderDesc(r: Request): Desc {
    Desc(r.header, 16, F_NEXT, r.d1)
  }

  function DataDesc(r: Request, bsize: nat): Desc {
    Desc(r.data, bsize, Or(if r.write then 0 else F_WRITE, F_NEXT), r.d2)
  }

  function StatusDesc(r: Request, address: nat): Desc {
    Desc(address, 1, F_WRITE, 0)
  }

  ghost predicate Shaped(d: Disk) {
    && |d.desc| == |d.availRing| == |d.usedRing| == |d.free| == |d.infoBuf| == |d.infoStatus| == 8
    && d.usedIdx < 8
  }

  // The requests that avail[1] has been advanced over.
  function Published(h: History): int {
    if h.phase.Idle? then |h.reqs| else |h.reqs| - 1
  }

  // The chain and the bookkeeping of request n are written.
  predicate Formed(h: History, n: int) {
    n < Published(h) || h.phase.Filled? || h.phase.Placed?
  }

  // alloc3_desc has taken the descriptors of r.
  function Begin(s: State, r: Request): State
    requires Shaped(s.disk) && |s.h.slot| == 8
  {
    var n := |s.h.reqs|;
    s.(disk := s.disk.(free := s.disk.free[r.d0 := false][r.d1 := false][r.d2 := false]),
       h := s.h.(reqs := s.h.reqs + [r], phase := Allocated, live := s.h.live + {n},
                 slot := s.h.slot[r.d0 := n][r.d1 := n][r.d2 := n]))
  }

  // The three descriptors are written, and the buffer is recorded.
  function FillDisk(d: Disk, r: Request, bsize: nat, status: nat): Disk
    requires Shaped(d)
  {
    d.(desc := d.desc[r.d0 := HeaderDesc(r)][r.d1 := DataDesc(r, bsize)][r.d2 := StatusDesc(r, status)],
       infoStatus := d.infoStatus[r.d0 := 0],
       infoBuf := d.infoBuf[r.d0 := r.buf],
       busy := d.busy + {r.buf})
  }

  function Latest(h: History): Request
    requires h.reqs != []
  {
    h.reqs[|h.reqs| - 1]
  }

  function Fill(s: State): State
    requires Shaped(s.disk) && s.h.reqs != []
  {
    var r := Latest(s.h);
    s.(disk := FillDisk(s.disk, r, s.bsize, StatusAddress(s, r.d0)), h := s.h.(phase := Filled))
  }

  // The head is written into the ring slot at avail[1].
  function Place(s: State): State
    requires Shaped(s.disk) && s.h.reqs != []
  {
    s.(disk := s.disk.(availRing := s.disk.availRing[s.disk.availIdx % 8 := Latest(s.h).d0]),
       h := s.h.(phase := Placed))
  }

  // avail[1] is advanced; only now the device can see the request.
  function Publish(s: State): State {
    s.(disk := s.disk.(availIdx := Inc16(s.disk.availIdx)), h := s.h.(phase := Idle))
  }

  // virtio_disk_rw up to the notification, when nothing else steps in between.
  function Submit(s: State, r: Request): State
    requires Shaped(s.disk) && |s.h.slot| == 8
  {
    Publish(Place(Fill(Begin(s, r))))
  }

  // The device reads the next head from the avail ring.
  function Take(s: State): State
    requires Shaped(s.disk)
  {
    s.(deviceSeen := Inc16(s.deviceSeen),
       h := s.h.(taken := s.h.taken + 1, seen := s.h.seen + [s.disk.availRing[s.deviceSeen % 8]]))
  }

  // The device writes status 0 and puts the head of request n into the used ring.
  function Complete(s: State, n: nat): State
    requires Shaped(s.disk) && n < |s.h.reqs|
  {
    s.(disk := s.disk.(usedRing := s.disk.usedRing[s.disk.deviceUsedIdx % 8 := s.h.reqs[n].d0],
                       infoStatus := s.disk.infoStatus[s.h.reqs[n].d0 := 0],
                       deviceUsedIdx := Inc16(s.disk.deviceUsedIdx)),
       h := s.h.(done := s.h.done + [n]))
  }

  // The loop condition of virtio_disk_intr.
  predicate Pending(d: Disk) {
    d.usedIdx % 8 != d.deviceUsedIdx % 8
  }

  // One iteration of virtio_disk_intr.
  function HandleDisk(d: Disk, id: Idx): Disk
    requires Shaped(d)
  {
    d.(busy := d.busy - {d.infoBuf[id]}, usedIdx := (d.usedIdx + 1) % 8)
  }

  function Handle(s: State): State
    requires Shaped(s.disk) && s.disk.usedRing[s.disk.usedIdx] < 8
  {
    var id := s.disk.usedRing[s.disk.usedIdx];
    s.(disk := HandleDisk(s.disk, id),
       h := s.h.(handled := s.h.handled + 1, woken := s.h.woken + [s.disk.infoBuf[id]]))
  }

  function ClearAddr(d: Desc): Desc {
    d.(addr := 0)
  }

  // The end of virtio_disk_rw: the buffer pointer is cleared and the chain freed.
  function FinishDisk(d: Disk, r: Request): Disk
    requires Shaped(d)
  {
    d.(infoBuf := d.infoBuf[r.d0 := 0],
       free := d.free[r.d0 := true][r.d1 := true][r.d2 := true],
       desc := d.desc[r.d0 := ClearAddr(d.desc[r.d0])]
                     [r.d1 := ClearAddr(d.desc[r.d1])]
                     [r.d2 := ClearAddr(d.desc[r.d2])])
  }

  // A call of alloc3_desc that fails: the descriptors it took and gave back are free as
  // before, but free_desc has cleared their addresses. It fails only after taking all of
  // the free descriptors.
  function ClearFree(desc: seq<Desc>, free: seq<bool>): (r: seq<Desc>)
    requires |desc| == |free|
    ensures |r| == |desc|
    ensures forall i :: 0 <= i < |r| ==> r[i] == if free[i] then ClearAddr(desc[i]) else desc[i]
  {
    seq(|desc|, i requires 0 <= i < |desc| => if free[i] then ClearAddr(desc[i]) else desc[i])
  }

  function Retry(s: State): State
    requires Shaped(s.disk)
  {
    s.(disk := s.disk.(desc := ClearFree(s.disk.desc, s.disk.free)))
  }

  function Finish(s: State, n: nat): State
    requires Shaped(s.disk) && |s.h.slot| == 8 && n < |s.h.reqs|
  {
    var r := s.h.reqs[n];
    s.(disk := FinishDisk(s.disk, r),
       h := s.h.(live := s.h.live - {n}, slot := s.h.slot[r.d0 := -1][r.d1 := -1][r.d2 := -1]))
  }

  // --- The invariant ---

  ghost predicate OrderInv(h: History) {
    && h.taken <= Published(h) && h.handled <= |h.done|
    && (forall i :: 0 <= i < |h.done| ==> h.done[i] < h.taken)
    && Distinct(h.done)
    && (forall n :: n in h.live ==> n < |h.reqs|)
    && (forall n: nat :: n < |h.reqs| && n !in h.live ==> n in h.done[..h.handled])
  }

  ghost predicate Holds(h: History, n: nat, d: Idx)
    requires |h.slot| == 8
  {
    h.slot[d] == n
  }

  // Each live request holds its three descriptors, which are distinct.
  ghost predicate LiveOwn(h: History) {
    && |h.slot| == 8
    && (forall n :: n in h.live ==> n < |h.reqs|)
    && (forall n :: n in h.live ==>
          && h.reqs[n].d0 != h.reqs[n].d1 && h.reqs[n].d0 != h.reqs[n].d2 && h.reqs[n].d1 != h.reqs[n].d2
          && Holds(h, n, h.reqs[n].d0) && Holds(h, n, h.reqs[n].d1) && Holds(h, n, h.reqs[n].d2))
  }

  // Each descriptor that is not free is the header, the data or the status descriptor of
  // the live request that holds it.
  ghost predicate SlotsOwned(d: Disk, h: History)
    requires Shaped(d) && LiveOwn(h)
  {
    && (forall i: Idx :: d.free[i] <==> h.slot[i] == -1)
    && (forall i: Idx :: !d.free[i] ==>
          h.slot[i] in h.live && i in {h.reqs[h.slot[i]].d0, h.reqs[h.slot[i]].d1, h.reqs[h.slot[i]].d2})
  }

  ghost predicate OwnerInv(d: Disk, h: History) {
    Shaped(d) && LiveOwn(h) && SlotsOwned(d, h)
  }

  function InUse(free: seq<bool>): set<nat> {
    set i | 0 <= i < |free| && !free[i]
  }

  // Three descriptors for each live request.
  ghost predicate CountInv(d: Disk, h: History) {
    |InUse(d.free)| == 3 * |h.live|
  }

  ghost predicate ChainInv(s: State) {
    && Shaped(s.disk)
    && forall n :: n in s.h.live && Formed(s.h, n) ==> n < |s.h.reqs| && Chain(s, s.h.reqs[n])
  }

  ghost predicate Chain(s: State, r: Request)
    requires Shaped(s.disk)
  {
    && s.disk.desc[r.d0] == HeaderDesc(r)
    && s.disk.desc[r.d1] == DataDesc(r, s.bsize)
    && s.disk.desc[r.d2] == StatusDesc(r, StatusAddress(s, r.d0))
  }

  ghost predicate InfoInv(d: Disk, h: History) {
    && Shaped(d)
    && forall n :: n in h.live ==>
         && n < |h.reqs| && h.reqs[n].buf != 0
         && (Formed(h, n) ==> d.infoBuf[h.reqs[n].d0] == h.reqs[n].buf && d.infoStatus[h.reqs[n].d0] == 0)
  }

  // No two live requests share a buffer, and b->disk tells whether the request is waiting.
  ghost predicate BusyInv(d: Disk, h: History) {
    && h.handled <= |h.done|
    && (forall n :: n in h.live ==> n < |h.reqs|)
    && (forall n, m :: n in h.live && m in h.live && n != m ==> h.reqs[n].buf != h.reqs[m].buf)
    && (forall n :: n in h.live && Formed(h, n) ==> (h.reqs[n].buf in d.busy <==> n !in h.done[..h.handled]))
  }

  // The avail ring holds the published heads the device has not read yet, and the head that
  // is about to be published.
  ghost predicate AvailInv(s: State) {
    && Shaped(s.disk) && s.h.taken <= Published(s.h)
    && s.disk.availIdx == Published(s.h) % 0x1_0000
    && s.deviceSeen == s.h.taken % 0x1_0000
    && (forall n :: s.h.taken <= n < Published(s.h) ==> s.disk.availRing[n % 8] == s.h.reqs[n].d0)
    && (s.h.phase.Placed? ==> s.disk.availRing[Published(s.h) % 8] == Latest(s.h).d0)
    && |s.h.seen| == s.h.taken
    && (forall n :: 0 <= n < s.h.taken ==> s.h.seen[n] == s.h.reqs[n].d0)
  }

  // The used ring holds the heads the driver has not handled yet.
  ghost predicate UsedInv(d: Disk, h: History) {
    && Shaped(d) && h.handled <= |h.done|
    && (forall i :: 0 <= i < |h.done| ==> h.done[i] < |h.reqs|)
    && d.deviceUsedIdx == |h.done| % 0x1_0000
    && d.usedIdx == h.handled % 8
    && (forall i :: h.handled <= i < |h.done| ==> d.usedRing[i % 8] == h.reqs[h.done[i]].d0)
    && |h.woken| == h.handled
    && (forall i :: 0 <= i < h.handled ==> h.woken[i] == h.reqs[h.done[i]].buf)
  }

  ghost predicate Inv(s: State) {
    && OrderInv(s.h) && OwnerInv(s.disk, s.h) && CountInv(s.disk, s.h) && ChainInv(s)
    && InfoInv(s.disk, s.h) && BusyInv(s.disk, s.h) && AvailInv(s) && UsedInv(s.disk, s.h)
  }

  // --- Consequences: bounds and the meaning of the modular comparisons ---

  // Eight descriptors, three per request: at most two requests are in flight.
  lemma AtMostTwoLive(d: Disk, h: History)
    requires Shaped(d) && CountInv(d, h)
    ensures |h.live| <= 2
  {
    BoundedSet(InUse(d.free), 8);
  }

  lemma UnreadAreLive(h: History)
    requires OrderInv(h)
    ensures forall n :: h.taken <= n < |h.reqs| ==> n in h.live
  {
  }

  lemma UnhandledAreLive(h: History)
    requires OrderInv(h)
    ensures forall i :: h.handled <= i < |h.done| ==> h.done[i] in h.live
  {
    forall i | h.handled <= i < |h.done| ensures h.done[i] in h.live {
      assert h.done[i] !in h.done[..h.handled];
    }
  }

  // At most two heads are unread and at most two completions unhandled.
  lemma WindowsAreShort(d: Disk, h: History)
    requires Shaped(d) && OrderInv(h) && CountInv(d, h)
    ensures |h.reqs| - h.taken <= 2 && |h.done| - h.handled <= 2
  {
    AtMostTwoLive(d, h);
    UnreadAreLive(h);
    UnhandledAreLive(h);
    DistinctInSet(seq(|h.reqs| - h.taken, i requires 0 <= i => h.taken + i), h.live);
    DistinctInSet(h.done[h.handled..], h.live);
  }

  // Comparing counters modulo 8, or modulo 2^16, is comparing them when they are close.
  lemma CloseMod8(a: nat, b: nat)
    requires a <= b < a + 8
    ensures a % 8 == b % 0x1_0000 % 8 <==> a == b
    ensures b % 0x1_0000 % 8 == b % 8
  {
    WrapThen8(b);
    SameMod(a, b, 8);
  }

  lemma CloseMod16(a: nat, b: nat)
    requires a <= b < a + 8
    ensures a % 0x1_0000 == b % 0x1_0000 <==> a == b
  {
    SameMod(a, b, 0x1_0000);
  }

  // Wrapping at 2^16 first makes no difference to the remainder modulo 8.
  lemma WrapThen8(b: nat)
    ensures b % 0x1_0000 % 8 == b % 8
  {
    var q, r := b / 0x1_0000, b % 0x1_0000;
    var u, v := r / 8, r % 8;
    assert b == 0x1_0000 * q + r && r == 8 * u + v;
    assert b == 8 * (0x2000 * q + u) + v;
    Remainder(b, 8, 0x2000 * q + u, v);
  }

  lemma Remainder(b: nat, m: nat, q: nat, r: nat)
    requires m > 0 && r < m && b == m * q + r
    ensures b % m == r
  {
    DivModUnique(b, m, q, r);
  }

  // Numbers less than m apart have the same remainder only when they are equal.
  lemma SameMod(a: nat, b: nat, m: nat)
    requires m > 0 && a <= b < a + m
    ensures a % m == b % m <==> a == b
  {
    var q, r := a / m, a % m;
    assert a == m * q + r;
    if a % m == b % m {
      var p := b / m;
      assert b == m * p + r;
      MulStep(m, q, p);
      MulStep(m, p, q);
    }
  }

  // --- The initial state: zeroed memory, every descriptor free ---

  function Zeros(n: nat): (r: seq<uint16>)
    ensures |r| == n && forall i :: 0 <= i < n ==> r[i] == 0
  {
    seq(n, i => 0)
  }

  function Initial(bsize: nat, info: nat): State {
    State(Disk(seq(8, i => Desc(0, 0, 0, 0)), 0, Zeros(8), 0, Zeros(8), seq(8, i => true), 0, Zeros(8), Zeros(8), {}),
          0, History([], Idle, 0, [], [], 0, [], {}, seq(8, i => -1)), bsize, info)
  }

  lemma InitialInv(bsize: nat, info: nat)
    ensures Inv(Initial(bsize, info))
  {
    var s := Initial(bsize, info);
    assert InUse(s.disk.free) == {};
  }
}
