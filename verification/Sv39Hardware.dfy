// The Sv39 address translation of the RISC-V Privileged Architecture (version 20211203,
// sections 4.1.11, 4.3.2 and 4.4.1), written independently of the page table code, and
// the proof that it computes what lookup returns. A and D bits are left to the hardware;
// SUM and MXR are zero.
module Sv39Hardware {
  import opened Bits
  import opened PageAllocation
  import opened PageTableState
  import opened PageTableEntry
  import opened VirtualMemory
  import opened PageTableRuns

  datatype Access = Load | Store | Fetch
  datatype Translation = Fault | Physical(pa: nat)

  // Bit n of a page table entry, for the flag bits.
  predicate V(pte: nat) { pte % 2 == 1 }
  predicate R(pte: nat) { pte / 2 % 2 == 1 }
  predicate W(pte: nat) { pte / 4 % 2 == 1 }
  predicate X(pte: nat) { pte / 8 % 2 == 1 }
  predicate U(pte: nat) { pte / 16 % 2 == 1 }
  predicate A(pte: nat) { pte / 64 % 2 == 1 }
  predicate D(pte: nat) { pte / 128 % 2 == 1 }

  function Ppn(pte: nat): nat {
    pte / 0x400 % 0x1000_0000_0000
  }

  // va.vpn[i]
  function Vpn(va: uint64, i: nat): Index
    requires i < 3
  {
    if i == 0 then va / 0x1000 % 0x200
    else if i == 1 then va / 0x20_0000 % 0x200
    else va / 0x4000_0000 % 0x200
  }

  // The size of the region that a leaf entry at level i maps.
  function RegionSize(i: nat): nat
    requires i < 3
  {
    if i == 0 then 0x1000 else if i == 1 then 0x20_0000 else 0x4000_0000
  }

  // Bits 63 to 39 all equal bit 38.
  predicate Canonical(va: uint64) {
    va < 0x40_0000_0000 || va >= 0xFFFF_FFC0_0000_0000
  }

  predicate Permits(pte: nat, access: Access, user: bool) {
    && (match access case Load => R(pte) case Store => W(pte) case Fetch => X(pte))
    && user == U(pte)
  }

  // Steps 2 to 8 of section 4.3.2, from the table at address a on level i.
  function Walk(m: seq<uint64>, a: nat, i: nat, va: uint64, access: Access, user: bool): Translation
    requires i < 3
    decreases i
  {
    var slot := a + Vpn(va, i) * 8;
    if slot % 8 != 0 || slot / 8 >= |m| then Fault
    else
      var pte := m[slot / 8];
      if !V(pte) || (!R(pte) && W(pte)) || pte >= 0x40_0000_0000_0000 then Fault
      else if R(pte) || X(pte) then
        if !Permits(pte, access, user) then Fault
        else if i > 0 && Ppn(pte) * 4096 % RegionSize(i) != 0 then Fault
        else Physical(Ppn(pte) * 4096 + va % RegionSize(i))
      else if U(pte) || A(pte) || D(pte) then Fault
      else if i == 0 then Fault
      else Walk(m, Ppn(pte) * 4096, i - 1, va, access, user)
  }

  // Translation under the given satp value: mode 8 is Sv39, mode 0 is Bare.
  function Translate(m: seq<uint64>, satp: uint64, va: uint64, access: Access, user: bool): Translation {
    var mode := satp / 0x1000_0000_0000_0000;
    if mode == 0 then Physical(va)
    else if mode != 8 || !Canonical(va) then Fault
    else Walk(m, satp % 0x1000_0000_0000 * 4096, 2, va, access, user)
  }

  // --- Entries written by the page table code, as the hardware reads them ---

  lemma AddEven(x: nat, y: nat)
    ensures (2 * x + y) % 2 == y % 2
  {
  }

  lemma EntryShifts(p: nat, flags: nat)
    ensures Entry(p, flags) / 2 == 2 * (p * 256) + flags / 2
    ensures Entry(p, flags) / 4 == 2 * (p * 128) + flags / 4
    ensures Entry(p, flags) / 8 == 2 * (p * 64) + flags / 8
    ensures Entry(p, flags) / 16 == 2 * (p * 32) + flags / 16
  {
  }

  lemma EntryFlagBits(p: nat, flags: nat)
    ensures V(Entry(p, flags)) <==> V(flags)
    ensures R(Entry(p, flags)) <==> R(flags)
    ensures W(Entry(p, flags)) <==> W(flags)
    ensures X(Entry(p, flags)) <==> X(flags)
    ensures U(Entry(p, flags)) <==> U(flags)
  {
    assert Entry(p, flags) == 2 * (p * 512) + flags;
    hide Entry;
    EntryShifts(p, flags);
    AddEven(p * 512, flags);
    AddEven(p * 256, flags / 2);
    AddEven(p * 128, flags / 4);
    AddEven(p * 64, flags / 8);
    AddEven(p * 32, flags / 16);
  }

  lemma EntryPpn(p: nat, flags: nat)
    requires p < 0x1000_0000_0000 && flags < 1024
    ensures Ppn(Entry(p, flags)) == p && Entry(p, flags) < 0x40_0000_0000_0000
  {
  }

  lemma EntryBits(p: nat, flags: nat)
    requires p < 0x1000_0000_0000 && flags < 1024
    ensures var e := Entry(p, flags);
      && (V(e) <==> V(flags)) && (R(e) <==> R(flags)) && (W(e) <==> W(flags)) && (X(e) <==> X(flags))
      && (U(e) <==> U(flags)) && Ppn(e) == p && e < 0x40_0000_0000_0000
  {
    hide V, R, W, X, U, Ppn, Entry;
    EntryFlagBits(p, flags);
    EntryPpn(p, flags);
  }

  // A pointer entry carries exactly V, so the hardware descends through it.
  lemma PointerBits(p: nat)
    requires p < 0x1000_0000_0000
    ensures var e := Entry(p, 1);
      V(e) && !R(e) && !W(e) && !X(e) && !U(e) && !A(e) && !D(e) && Ppn(e) == p && e < 0x40_0000_0000_0000
  {
    EntryBits(p, 1);
    assert Entry(p, 1) / 64 == p * 16;
    assert Entry(p, 1) / 128 == p * 8;
  }

  lemma KeyIsVpn(va: uint64)
    ensures KeyOf(va) == Key(Vpn(va, 2), Vpn(va, 1), Vpn(va, 0))
  {
    hide And, Shr;
    var a := va / 4096;
    ShrValues(va);
    ShrValues(a);
    ShrValues(a / 512);
    MaskIndex(a);
    MaskIndex(a / 512);
    MaskIndex(a / 512 / 512);
    NestedDivision(va);
  }

  lemma NestedDivision(va: nat)
    ensures va / 4096 / 512 == va / 0x20_0000 && va / 4096 / 512 / 512 == va / 0x4000_0000
  {
  }

  // Reading entry i of table page p.
  lemma ReadSlot(m: seq<uint64>, pages: nat, p: nat, i: Index)
    requires |m| == pages * 512 && p < pages
    ensures var slot := p * 4096 + i * 8; slot % 8 == 0 && slot / 8 < |m| && m[slot / 8] == At(m, p, i)
  {
    WordAddress(p, i);
  }

  // One step of the walk over each kind of entry.
  lemma WalkInvalid(m: seq<uint64>, pages: nat, q: nat, i: nat, va: uint64, access: Access, user: bool)
    requires i < 3 && |m| == pages * 512 && q < pages && At(m, q, Vpn(va, i)) % 2 == 0
    ensures Walk(m, q * 4096, i, va, access, user) == Fault
  {
    ReadSlot(m, pages, q, Vpn(va, i));
  }

  lemma WalkPointer(m: seq<uint64>, pages: nat, q: nat, i: nat, va: uint64, access: Access, user: bool, p: nat)
    requires 0 < i < 3 && |m| == pages * 512 && q < pages && p < 0x1000_0000_0000
    requires At(m, q, Vpn(va, i)) == Entry(p, 1)
    ensures Walk(m, q * 4096, i, va, access, user) == Walk(m, p * 4096, i - 1, va, access, user)
  {
    hide Entry, At, Vpn, Walk, RegionSize;
    ReadSlot(m, pages, q, Vpn(va, i));
    PointerBits(p);
    hide V, R, W, X, U, A, D, Ppn, Permits;
    WalkDown(m, q * 4096, i, va, access, user);
  }

  // The walk descends through an entry that is neither a leaf nor reserved.
  lemma WalkDown(m: seq<uint64>, a: nat, i: nat, va: uint64, access: Access, user: bool)
    requires 0 < i < 3
    requires var slot := a + Vpn(va, i) * 8; slot % 8 == 0 && slot / 8 < |m|
    requires var e := m[(a + Vpn(va, i) * 8) / 8];
      V(e) && !R(e) && !W(e) && !X(e) && !U(e) && !A(e) && !D(e) && e < 0x40_0000_0000_0000
    ensures Walk(m, a, i, va, access, user) ==
            Walk(m, Ppn(m[(a + Vpn(va, i) * 8) / 8]) * 4096, i - 1, va, access, user)
  {
    hide V, R, W, X, U, A, D, Ppn, Permits, Vpn, RegionSize;
  }

  // Flags under which a level-0 entry is a leaf that the architecture does not reserve.
  predicate LeafFlags(flags: nat) {
    (R(flags) || X(flags)) && (W(flags) ==> R(flags))
  }

  lemma WalkLeaf(m: seq<uint64>, pages: nat, q: nat, va: uint64, access: Access, user: bool, p: nat, flags: nat)
    requires |m| == pages * 512 && q < pages && p < 0x1000_0000_0000 && ValidFlags(flags)
    requires At(m, q, Vpn(va, 0)) == Entry(p, flags)
    ensures Walk(m, q * 4096, 0, va, access, user) ==
            if LeafFlags(flags) && Permits(flags, access, user) then Physical(p * 4096 + va % 4096) else Fault
  {
    hide Entry, At, Vpn;
    ReadSlot(m, pages, q, Vpn(va, 0));
    LeafBits(p, flags, access, user);
    hide V, R, W, X, U, A, D, Ppn, Permits, ValidFlags;
  }

  lemma LeafBits(p: nat, flags: nat, access: Access, user: bool)
    requires p < 0x1000_0000_0000 && ValidFlags(flags)
    ensures var e := Entry(p, flags);
      && V(e) && (R(e) <==> R(flags)) && (W(e) <==> W(flags)) && (X(e) <==> X(flags))
      && (Permits(e, access, user) <==> Permits(flags, access, user))
      && Ppn(e) == p && e < 0x40_0000_0000_0000
  {
    assert V(flags);
    hide V, R, W, X, U, Ppn, Entry;
    EntryBits(p, flags);
  }

  function Expected(s: State, va: uint64, access: Access, user: bool): Translation {
    var k := KeyOf(va);
    if k in s.dict && LeafFlags(s.dict[k].flags) && Permits(s.dict[k].flags, access, user)
    then Physical(s.dict[k].page * 4096 + va % 4096)
    else Fault
  }

  lemma Level0(m: seq<uint64>, s: State, pages: nat, va: uint64, access: Access, user: bool)
    requires Inv(m, s, pages) && pages <= 0x1000_0000_0000 && BranchOf(KeyOf(va)) in s.leaves
    ensures Walk(m, s.leaves[BranchOf(KeyOf(va))] * 4096, 0, va, access, user) == Expected(s, va, access, user)
  {
    hide Walk, KeyOf, Vpn, Permits, LeafFlags, Inv, At, ValidFlags, ContentPage;
    KeyIsVpn(va);
    var k := KeyOf(va);
    var q := s.leaves[BranchOf(k)];
    LeafWord(m, s, pages, k);
    if k in s.dict {
      WalkLeaf(m, pages, q, va, access, user, s.dict[k].page, s.dict[k].flags);
    } else {
      WalkInvalid(m, pages, q, 0, va, access, user);
    }
  }

  lemma Level1(m: seq<uint64>, s: State, pages: nat, va: uint64, access: Access, user: bool)
    requires Inv(m, s, pages) && pages <= 0x1000_0000_0000 && KeyOf(va).v2 in s.mids
    ensures Walk(m, s.mids[KeyOf(va).v2] * 4096, 1, va, access, user) == Expected(s, va, access, user)
  {
    MappedHasTables(s, pages, KeyOf(va));
    hide Walk, KeyOf, Vpn, Permits, LeafFlags, Inv, At, ValidFlags;
    KeyIsVpn(va);
    var k := KeyOf(va);
    var q := s.mids[k.v2];
    MidWord(m, s, pages, BranchOf(k));
    if BranchOf(k) in s.leaves {
      WalkPointer(m, pages, q, 1, va, access, user, s.leaves[BranchOf(k)]);
      Level0(m, s, pages, va, access, user);
    } else {
      WalkInvalid(m, pages, q, 1, va, access, user);
    }
  }

  lemma Level2(m: seq<uint64>, s: State, pages: nat, va: uint64, access: Access, user: bool)
    requires Inv(m, s, pages) && pages <= 0x1000_0000_0000
    ensures Walk(m, s.root * 4096, 2, va, access, user) == Expected(s, va, access, user)
  {
    MappedHasTables(s, pages, KeyOf(va));
    hide Walk, KeyOf, Vpn, Permits, LeafFlags, Inv, At, ValidFlags;
    KeyIsVpn(va);
    var k := KeyOf(va);
    RootWord(m, s, pages, k.v2);
    if k.v2 in s.mids {
      WalkPointer(m, pages, s.root, 2, va, access, user, s.mids[k.v2]);
      Level1(m, s, pages, va, access, user);
    } else {
      WalkInvalid(m, pages, s.root, 2, va, access, user);
    }
  }

  lemma SatpDecode(p: nat)
    requires p < 0x1000_0000_0000
    ensures MakeSatp(p * 4096) < TWO_TO_THE_64
    ensures MakeSatp(p * 4096) / 0x1000_0000_0000_0000 == 8 && MakeSatp(p * 4096) % 0x1000_0000_0000 == p
  {
    hide MakeSatp;
    SatpFields(p);
  }

  // The hardware, started from make_satp(), translates va exactly when va is canonical, is
  // mapped, and its flags are those of a leaf that permits the access; the result is the
  // page that lookup returns plus the page offset.
  lemma HardwareAgrees(m: seq<uint64>, s: State, pages: nat, va: uint64, access: Access, user: bool)
    requires Inv(m, s, pages) && pages <= 0x1000_0000_0000
    ensures MakeSatp(s.root * 4096) < TWO_TO_THE_64
    ensures Translate(m, MakeSatp(s.root * 4096), va, access, user) ==
            if Canonical(va) then Expected(s, va, access, user) else Fault
  {
    hide Inv, Walk, MakeSatp, Expected, At;
    RootWord(m, s, pages, 0);
    Level2(m, s, pages, va, access, user);
    SatpDecode(s.root);
  }

  // The same for a page table object in memory: its own make_satp() value, its own memory.
  lemma TableAgrees(t: PageTable, va: uint64, access: Access, user: bool)
    requires t.Valid()
    ensures MakeSatp(t.root) < TWO_TO_THE_64
    ensures Translate(t.alloc.mem.Words(), MakeSatp(t.root), va, access, user) ==
            if Canonical(va) then Expected(t.s, va, access, user) else Fault
  {
    hide Inv, Translate, Expected, MakeSatp, Canonical;
    HardwareAgrees(t.alloc.mem.Words(), t.s, PAGES, va, access, user);
  }

  // permission_code of os/src/vmm.hpp
  function PermissionCode(write: bool, read: bool, exec: bool, user: bool, cow: bool): nat {
    var p0 := 1;
    var p1 := if write then Or(p0, 4) else p0;
    var p2 := if read then Or(p1, 2) else p1;
    var p3 := if exec then Or(p2, 8) else p2;
    var p4 := if user then Or(p3, 16) else p3;
    if cow then Or(p4, 256) else p4
  }

  lemma PermissionSum(write: bool, read: bool, exec: bool, user: bool, cow: bool)
    ensures PermissionCode(write, read, exec, user, cow) ==
            1 + (if write then 4 else 0) + (if read then 2 else 0) + (if exec then 8 else 0)
            + (if user then 16 else 0) + (if cow then 256 else 0)
  {
    hide Or;
    assert Pow2(1) == 2 && Pow2(2) == 4 && Pow2(3) == 8 && Pow2(4) == 16 && Pow2(8) == 256;
    var s1 := 1 + (if write then 4 else 0);
    var s2 := s1 + (if read then 2 else 0);
    var s3 := s2 + (if exec then 8 else 0);
    var s4 := s3 + (if user then 16 else 0);
    SetBit(1, 2, 4);
    SetBit(s1, 1, 2);
    SetBit(s2, 3, 8);
    SetBit(s3, 4, 16);
    SetBit(s4, 8, 256);
  }

  // Every permission code is acceptable to add; it makes a mapping the hardware can use
  // exactly when it allows reading or executing and does not allow writing alone.
  lemma PermissionCodeFlags(write: bool, read: bool, exec: bool, user: bool, cow: bool)
    ensures var f := PermissionCode(write, read, exec, user, cow);
      && ValidFlags(f)
      && (W(f) <==> write) && (R(f) <==> read) && (X(f) <==> exec) && (U(f) <==> user) && !A(f) && !D(f)
      && (LeafFlags(f) <==> (read || exec) && (write ==> read))
  {
    hide PermissionCode;
    PermissionSum(write, read, exec, user, cow);
  }

  // --- End to end: from add with a permission code to the access the hardware grants ---

  // The bits of the code as the hardware reads them in the entry.
  lemma CodePermits(write: bool, read: bool, exec: bool, user: bool, cow: bool, access: Access, mode: bool)
    ensures var f := PermissionCode(write, read, exec, user, cow);
      f < 1024 && f % 2 == 1 &&
      (LeafFlags(f) && Permits(f, access, mode) <==>
        mode == user && match access
                        case Load => read
                        case Store => write && read
                        case Fetch => exec && (write ==> read))
  {
    PermissionCodeFlags(write, read, exec, user, cow);
    hide PermissionCode, R, W, X, U, A, D;
  }

  // After a legal add that returned 0, of an aligned address with a permission code: every
  // canonical address of that page number translates, in the mode that the code names, for a
  // load if it may be read, for a store if it may be written and read, for a fetch if it may
  // be executed and is not writable alone, and then to that offset of the page; every other
  // access faults.
  lemma AddedTranslates(m: seq<uint64>, s: State, pages: nat, va: uint64, pa: uint64, perm: uint64, t: State,
                        satp: uint64, vb: uint64, write: bool, read: bool, exec: bool, user: bool, cow: bool,
                        access: Access, mode: bool)
    requires Wf(s, pages) && pages <= 0x1000_0000_0000 && pa % 4096 == 0
    requires perm == PermissionCode(write, read, exec, user, cow)
    requires Legal(s, Add(va, pa, perm)) && Answer(s, Add(va, pa, perm)) == 0
    requires t == Next(s, Add(va, pa, perm)) && Inv(m, t, pages)
    requires vb / 4096 % 0x800_0000 == va / 4096 % 0x800_0000
    requires vb < 0x40_0000_0000 || vb >= 0xFFFF_FFC0_0000_0000
    requires satp == 0x8000_0000_0000_0000 + t.root
    ensures Translate(m, satp, vb, access, mode) ==
        if mode == user && (match access
                            case Load => read
                            case Store => write && read
                            case Fetch => exec && (write ==> read))
        then Physical(pa + vb % 4096) else Fault
  {
    hide Inv, Wf, Translate, PermissionCode, LeafFlags, Permits, MakeSatp, KeyOf, AddStep, Stored;
    CodePermits(write, read, exec, user, cow, access, mode);
    AddDict(s, pages, KeyOf(va), Stored(pa, perm));
    StoredEntry(pa, perm);
    CodeStored(pa, perm);
    SameKey(va, vb);
    HardwareAgrees(m, t, pages, vb, access, mode);
    SatpOf(m, t, pages);
  }

  // The register value that make_satp() returns.
  lemma SatpOf(m: seq<uint64>, s: State, pages: nat)
    requires Inv(m, s, pages) && pages <= 0x1000_0000_0000
    ensures MakeSatp(s.root * 4096) == 0x8000_0000_0000_0000 + s.root
  {
    RootWord(m, s, pages, 0);
    hide Inv, MakeSatp;
    SatpFields(s.root);
  }

  lemma CodeStored(pa: uint64, f: uint64)
    requires f < 1024 && pa % 4096 == 0
    ensures Stored(pa, f).page * 4096 == pa && Stored(pa, f).flags == f
  {
    hide Or;
    StoredParts(pa, f);
    OrZero(pa / 4096);
  }

  // An address that is not mapped faults on every access.
  lemma AbsentFaults(m: seq<uint64>, s: State, pages: nat, satp: uint64, va: uint64, access: Access, mode: bool)
    requires Inv(m, s, pages) && pages <= 0x1000_0000_0000 && va / 4096 % 0x800_0000 !in View(s)
    requires satp == 0x8000_0000_0000_0000 + s.root
    ensures Translate(m, satp, va, access, mode) == Fault
  {
    ViewHas(s, va);
    SatpOf(m, s, pages);
    hide Inv, Translate, Permits, LeafFlags, MakeSatp, KeyOf, View;
    HardwareAgrees(m, s, pages, va, access, mode);
  }
}
