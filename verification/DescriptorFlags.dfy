// The descriptor flags of VirtIO 1.1, section 2.6.5, that the drivers use.
module DescriptorFlags {
  import opened Bits

  const F_NEXT: uint16 := 1           // VRING_DESC_F_NEXT
  const F_WRITE: uint16 := 2          // VRING_DESC_F_WRITE

  // The descriptor continues through its `next` field.
  predicate HasNext(flags: nat) {
    And(flags, F_NEXT) != 0
  }

  // The device writes the buffer.
  predicate IsWritable(flags: nat) {
    And(flags, F_WRITE) != 0
  }

  lemma FlagValues()
    ensures HasNext(1) && !HasNext(2) && HasNext(3)
    ensures !IsWritable(1) && IsWritable(2) && IsWritable(3)
    ensures Or(0, F_NEXT) == 1 && Or(F_WRITE, F_NEXT) == 3
  {
  }
}
