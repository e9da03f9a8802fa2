// Page table entries, virtual address splitting and satp: the bit-level formulas of
// os/src/vmm.cpp and what they mean arithmetically.
module PageTableEntry {
  import opened Bits
  import opened PageTableState

  // PageTableEntry(pa, flag)
  function MakePte(pa: uint64, flag: uint64): nat {
    Or(Shl(Shr(pa, 12), 10), flag)
  }

  function GetPa(pte: uint64): uint64 {
    Shl(Shr(pte, 10), 12)
  }

  function GetFlag(pte: uint64): nat {
    And(pte, 0x3FF)
  }

  predicate IsValid(pte: uint64) {
    And(pte, 1) != 0
  }

  // The address of the entry with index vpn in the table that pte points to.
  function Step(pte: uint64, vpn: nat): nat {
    GetPa(pte) + 8 * vpn
  }

  lemma ShrValues(x: nat)
    ensures Shr(x, 9) == x / 0x200 && Shr(x, 10) == x / 0x400 && Shr(x, 12) == x / 0x1000
  {
  }

  lemma ShlValues(x: nat)
    ensures x < 0x40_0000_0000_0000 ==> Shl(x, 10) == x * 1024
    ensures x < 0x10_0000_0000_0000 ==> Shl(x, 12) == x * 4096
  {
    Pow2Values();
  }

  // Only the page number of the address is stored; an unaligned address loses its offset.
  lemma MakePteOfPage(pa: uint64, flag: uint64)
    ensures pa / 4096 < 0x10_0000_0000_0000
    ensures MakePte(pa, flag) == Or(pa / 4096 * 1024, flag)
  {
    hide Or, Shr, Shl;
    ShrValues(pa);
    ShlValues(pa / 4096);
  }

  // MakePte as arithmetic: the or is a sum because the flags occupy the low ten bits.
  lemma PackIsEntry(pa: uint64, flags: nat)
    requires flags < 1024
    ensures MakePte(pa, flags) == Entry(pa / 4096, flags) < TWO_TO_THE_64
  {
    hide Or, MakePte;
    MakePteOfPage(pa, flags);
    assert Pow2(10) == 0x400;
    OrDisjoint(pa / 4096, flags, 10);
  }

  lemma EntryMod(p: nat, flags: nat)
    requires p < 0x10_0000_0000_0000 && flags < 1024
    ensures Entry(p, flags) < TWO_TO_THE_64
    ensures Entry(p, flags) / 1024 == p && Entry(p, flags) % 1024 == flags && Entry(p, flags) % 2 == flags % 2
  {
  }

  lemma UnpackEntry(p: nat, flags: nat)
    requires p < 0x10_0000_0000_0000 && flags < 1024
    ensures Entry(p, flags) < TWO_TO_THE_64 && GetPa(Entry(p, flags)) == p * 4096
  {
    hide Shr, Shl, Pow2, Entry;
    EntryMod(p, flags);
    ShrValues(Entry(p, flags));
    ShlValues(p);
  }

  lemma FlagsOf(pte: uint64)
    ensures GetFlag(pte) == pte % 1024
    ensures IsValid(pte) <==> pte % 2 == 1
  {
    hide And;
    Pow2Values();
    AndMask(pte, 10, 0x3FF);
    AndMask(pte, 1, 1);
  }

  // On an aligned address and flags that fit in ten bits the constructor is the plain
  // arithmetic packing, and the accessors invert it.
  lemma EntryFields(p: nat, flags: nat)
    requires p < 0x10_0000_0000_0000 && flags < 1024
    ensures MakePte(p * 4096, flags) == Entry(p, flags) == p * 1024 + flags < TWO_TO_THE_64
    ensures GetPa(Entry(p, flags)) == p * 4096
    ensures GetFlag(Entry(p, flags)) == flags
    ensures IsValid(Entry(p, flags)) <==> flags % 2 == 1
  {
    PackIsEntry(p * 4096, flags);
    assert p * 4096 / 4096 == p;
    hide MakePte, GetPa, GetFlag, IsValid, Entry;
    EntryMod(p, flags);
    UnpackEntry(p, flags);
    FlagsOf(Entry(p, flags));
  }

  lemma ZeroIsInvalid()
    ensures !IsValid(0)
  {
  }

  lemma OrLowBits(p: nat, flag: uint64)
    requires p < 0x10_0000_0000_0000
    ensures Or(p * 1024, flag) < TWO_TO_THE_64
    ensures Or(p * 1024, flag) % 1024 == flag % 1024
  {
    assert p * 1024 % 1024 == 0;
    hide Or;
    Pow2Values();
    OrMod(p * 1024, flag, 10);
    OrSymmetric(0, flag % 1024);
    OrZero(flag % 1024);
    Pow2Values64();
    OrBound(p * 1024, flag, 64);
  }

  // The low ten bits of a constructed entry come from the flags alone.
  lemma PackedFlags(pa: uint64, flag: uint64)
    ensures MakePte(pa, flag) < TWO_TO_THE_64
    ensures MakePte(pa, flag) % 1024 == flag % 1024
  {
    hide Or, MakePte;
    MakePteOfPage(pa, flag);
    OrLowBits(pa / 4096, flag);
  }

  lemma PagesAreAligned(pte: uint64)
    ensures GetPa(pte) % 4096 == 0
  {
    hide Shr;
    var x := Shr(pte, 10);
    Pow2Values();
    assert TWO_TO_THE_64 == 0x10_0000_0000_0000 * 4096;
    MultipleMod(x, 0x10_0000_0000_0000);
  }

  lemma MultipleMod(x: nat, n: nat)
    requires n > 0
    ensures x * 4096 % (n * 4096) % 4096 == 0
  {
    var q, r := x / n, x % n;
    assert x == n * q + r;
    assert x * 4096 == (n * 4096) * q + r * 4096;
    DivModUnique(x * 4096, n * 4096, q, r * 4096);
  }

  // For every address and every flag word: both are read back if and only if the address is
  // aligned and the flags fit in ten bits.
  lemma PteRoundTrip(pa: uint64, flag: uint64)
    ensures MakePte(pa, flag) < TWO_TO_THE_64
    ensures GetPa(MakePte(pa, flag)) == pa && GetFlag(MakePte(pa, flag)) == flag
            <==> pa % 4096 == 0 && flag < 1024
  {
    hide MakePte, GetPa, GetFlag;
    PackedFlags(pa, flag);
    FlagsOf(MakePte(pa, flag));
    PagesAreAligned(MakePte(pa, flag));
    if pa % 4096 == 0 && flag < 1024 { EntryFields(pa / 4096, flag); }
  }

  // An unaligned address with proper flags: the offset is lost.
  lemma UnalignedAddressIsLost()
    ensures MakePte(0x1001, 1) < TWO_TO_THE_64 && GetPa(MakePte(0x1001, 1)) == 0x1000
  {
    hide MakePte, GetPa;
    PackIsEntry(0x1001, 1);
    UnpackEntry(1, 1);
  }

  // A flag above the ten bits with an aligned address: it is read back as part of the address.
  lemma WideFlagIsLost()
    ensures MakePte(0, 1024) < TWO_TO_THE_64
    ensures GetFlag(MakePte(0, 1024)) == 0 && GetPa(MakePte(0, 1024)) == 0x1000
  {
    hide MakePte, GetPa, GetFlag, Or;
    MakePteOfPage(0, 1024);
    OrSymmetric(0, 1024);
    OrZero(1024);
    FlagsOf(1024);
    UnpackEntry(1, 0);
  }

  // What the entry constructed from pa and perm designates, whatever the two are.
  function Stored(pa: uint64, perm: uint64): Mapping {
    Mapping(MakePte(pa, perm) / 1024, MakePte(pa, perm) % 1024)
  }

  // For every address and flag word: the page is that of pa with the bits of perm above the
  // ten flag bits or-ed in, and the flags are the low ten bits of perm.
  lemma StoredParts(pa: uint64, perm: uint64)
    ensures Stored(pa, perm).page == Or(pa / 4096, perm / 1024)
    ensures Stored(pa, perm).flags == perm % 1024
  {
    hide Or, Shr, MakePte;
    PackedFlags(pa, perm);
    MakePteOfPage(pa, perm);
    ShrOr(pa / 4096 * 1024, perm, 10);
    ShrValues(pa / 4096 * 1024);
    ShrValues(perm);
    ShrValues(MakePte(pa, perm));
  }

  // The constructed entry is the packing of what it designates, valid exactly when perm has V.
  lemma StoredEntry(pa: uint64, perm: uint64)
    ensures MakePte(pa, perm) < TWO_TO_THE_64
    ensures MakePte(pa, perm) == Entry(Stored(pa, perm).page, Stored(pa, perm).flags)
    ensures MakePte(pa, perm) % 2 == perm % 2
    ensures ValidFlags(Stored(pa, perm).flags) <==> perm % 2 == 1
  {
    hide MakePte;
    PackedFlags(pa, perm);
    SameParity(MakePte(pa, perm));
    SameParity(perm);
  }

  lemma SameParity(x: nat)
    ensures x % 1024 % 2 == x % 2
  {
  }

  // The three indices as page_walk computes them.
  function KeyOf(va: uint64): Key {
    var a0 := Shr(va, 12);
    var a1 := Shr(a0, 9);
    var a2 := Shr(a1, 9);
    MaskIndex(a0);
    MaskIndex(a1);
    MaskIndex(a2);
    Key(And(a2, 0x1FF), And(a1, 0x1FF), And(a0, 0x1FF))
  }

  lemma MaskIndex(x: nat)
    ensures And(x, 0x1FF) == x % 512
  {
    Pow2Values();
    AndMask(x, 9, 0x1FF);
  }

  // The 27-bit virtual page number of an address.
  function PageNumber(va: uint64): nat {
    va / 4096 % 0x800_0000
  }

  function Split(vpn: nat): Key {
    Key(vpn / 0x4_0000 % 512, vpn / 512 % 512, vpn % 512)
  }

  function Join(k: Key): nat {
    k.v2 * 0x4_0000 + k.v1 * 512 + k.v0
  }

  lemma DivDiv(x: nat)
    ensures x / 512 / 512 == x / 0x4_0000
    ensures x < 0x800_0000 ==> x / 0x4_0000 < 512
  {
  }

  lemma JoinSplit(vpn: nat)
    requires vpn < 0x800_0000
    ensures Join(Split(vpn)) == vpn
  {
    DivDiv(vpn);
    var a := vpn / 512;
    assert a == a / 512 * 512 + a % 512;
  }

  lemma JoinParts(k: Key)
    ensures Join(k) < 0x800_0000
    ensures Join(k) % 512 == k.v0
    ensures Join(k) / 512 == k.v2 * 512 + k.v1
  {
  }

  // Splitting is a bijection between 27-bit numbers and index triples.
  lemma SplitJoin(vpn: nat, k: Key)
    ensures vpn < 0x800_0000 ==> Join(Split(vpn)) == vpn
    ensures Join(k) < 0x800_0000 && Split(Join(k)) == k
  {
    if vpn < 0x800_0000 { JoinSplit(vpn); }
    JoinParts(k);
    DivDiv(Join(k));
    assert (k.v2 * 512 + k.v1) / 512 == k.v2 && (k.v2 * 512 + k.v1) % 512 == k.v1;
  }

  lemma KeyIsPageNumber(va: uint64)
    ensures KeyOf(va) == Split(PageNumber(va))
  {
    var a := va / 4096;
    ShrValues(va);
    ShrValues(a);
    ShrValues(a / 512);
    MaskIndex(a);
    MaskIndex(a / 512);
    MaskIndex(a / 512 / 512);
    SplitMod(a);
  }

  lemma SplitMod(a: nat)
    ensures Split(a % 0x800_0000) == Key(a / 512 / 512 % 512, a / 512 % 512, a % 512)
  {
    var q := a / 0x800_0000;
    var r := a % 0x800_0000;
    assert a == 0x800_0000 * q + r;
    assert a / 512 == 0x4_0000 * q + r / 512;
    assert a / 512 / 512 == 512 * q + r / 512 / 512;
    assert r / 512 / 512 == r / 0x4_0000;
  }

  // Two addresses name the same entry exactly when they agree modulo 2^39 up to the page offset.
  lemma SameKey(va: uint64, vb: uint64)
    ensures KeyOf(va) == KeyOf(vb) <==> PageNumber(va) == PageNumber(vb)
  {
    KeyIsPageNumber(va);
    KeyIsPageNumber(vb);
    SplitJoin(PageNumber(va), KeyOf(va));
    SplitJoin(PageNumber(vb), KeyOf(vb));
  }

  // PageTable::make_satp
  function MakeSatp(root: uint64): nat {
    Or(Shl(8, 60), Shr(root, 12))
  }

  lemma SatpFields(p: nat)
    requires p < 0x1000_0000_0000
    ensures MakeSatp(p * 4096) == 0x8000_0000_0000_0000 + p
  {
    Pow2Values64();
    ShrValues(p * 4096);
    OrDisjoint(8, p, 60);
  }
}
