// Flat byte-addressed physical memory (the array index is the physical address)
// and the memory primitives of os/src/string.cpp.
module PhysicalMemory {
  import opened Bits

  // The 64-bit word stored little-endian in the eight bytes from address a.
  function WordAt(m: seq<uint8>, a: nat): uint64
    requires a + 8 <= |m|
  {
    m[a] as int + 0x100 * (m[a + 1] as int) + 0x1_0000 * (m[a + 2] as int) + 0x100_0000 * (m[a + 3] as int)
    + 0x1_0000_0000 * (m[a + 4] as int) + 0x100_0000_0000 * (m[a + 5] as int)
    + 0x1_0000_0000_0000 * (m[a + 6] as int) + 0x100_0000_0000_0000 * (m[a + 7] as int)
  }

  // Byte i of the little-endian encoding of w.
  function ByteOf(w: uint64, i: nat): uint8
    requires i < 8
  {
    if i == 0 then w % 0x100
    else if i == 1 then w / 0x100 % 0x100
    else if i == 2 then w / 0x1_0000 % 0x100
    else if i == 3 then w / 0x100_0000 % 0x100
    else if i == 4 then w / 0x1_0000_0000 % 0x100
    else if i == 5 then w / 0x100_0000_0000 % 0x100
    else if i == 6 then w / 0x1_0000_0000_0000 % 0x100
    else w / 0x100_0000_0000_0000 % 0x100
  }

  // The memory m after writing the bytes b from address a.
  function Overwrite(m: seq<uint8>, a: nat, b: seq<uint8>): (r: seq<uint8>)
    requires a + |b| <= |m|
    ensures |r| == |m|
    ensures forall i :: 0 <= i < |m| ==> r[i] == if a <= i < a + |b| then b[i - a] else m[i]
  {
    m[..a] + b + m[a + |b|..]
  }

  function Replicate(v: uint8, n: nat): (r: seq<uint8>)
    ensures |r| == n && forall i :: 0 <= i < n ==> r[i] == v
  {
    seq(n, i => v)
  }

  function Encoding(w: uint64): (r: seq<uint8>)
    ensures |r| == 8 && forall i :: 0 <= i < 8 ==> r[i] == ByteOf(w, i)
  {
    seq(8, i requires 0 <= i < 8 => ByteOf(w, i))
  }

  // The aligned 64-bit words of the memory: word k lies at address 8k.
  function WordsOf(m: seq<uint8>): (r: seq<uint64>)
    ensures |r| == |m| / 8
  {
    seq(|m| / 8, k requires 0 <= k < |m| / 8 => WordAt(m, 8 * k))
  }

  // One base-256 digit: the low byte and the rest of b + 256 y.
  lemma LowByte(b: uint8, y: nat)
    ensures (b + 0x100 * y) % 0x100 == b && (b + 0x100 * y) / 0x100 == y
  {
  }

  // Division by a power of 256 in single-byte steps.
  lemma ByteSplit(x: nat)
    ensures x / 0x100 / 0x100 == x / 0x1_0000
    ensures x / 0x1_0000 / 0x100 == x / 0x100_0000
    ensures x / 0x100_0000 / 0x100 == x / 0x1_0000_0000
    ensures x / 0x1_0000_0000 / 0x100 == x / 0x100_0000_0000
    ensures x / 0x100_0000_0000 / 0x100 == x / 0x1_0000_0000_0000
    ensures x / 0x1_0000_0000_0000 / 0x100 == x / 0x100_0000_0000_0000
  {
  }

  // The bytes of a word are its base-256 digits.
  lemma DigitsOf(b0: uint8, b1: uint8, b2: uint8, b3: uint8, b4: uint8, b5: uint8, b6: uint8, b7: uint8, w: uint64)
    requires w == b0 + 0x100 * (b1 + 0x100 * (b2 + 0x100 * (b3 + 0x100 *
                  (b4 + 0x100 * (b5 + 0x100 * (b6 + 0x100 * b7))))))
    ensures ByteOf(w, 0) == b0 && ByteOf(w, 1) == b1 && ByteOf(w, 2) == b2 && ByteOf(w, 3) == b3
    ensures ByteOf(w, 4) == b4 && ByteOf(w, 5) == b5 && ByteOf(w, 6) == b6 && ByteOf(w, 7) == b7
  {
    var y6 := b6 + 0x100 * b7;
    var y5 := b5 + 0x100 * y6;
    var y4 := b4 + 0x100 * y5;
    var y3 := b3 + 0x100 * y4;
    var y2 := b2 + 0x100 * y3;
    var y1 := b1 + 0x100 * y2;
    LowByte(b0, y1); LowByte(b1, y2); LowByte(b2, y3); LowByte(b3, y4);
    LowByte(b4, y5); LowByte(b5, y6); LowByte(b6, b7);
    ByteSplit(w);
  }

  // Loading a word and storing it elsewhere copies its eight bytes.
  lemma LoadStoreCopies(m: seq<uint8>, s: nat)
    requires s + 8 <= |m|
    ensures Encoding(WordAt(m, s)) == m[s..s + 8]
  {
    DigitsOf(m[s], m[s + 1], m[s + 2], m[s + 3], m[s + 4], m[s + 5], m[s + 6], m[s + 7], WordAt(m, s));
  }

  // Storing a word and loading it again gives the word back.
  lemma WordRoundTrip(m: seq<uint8>, a: nat, w: uint64)
    requires a + 8 <= |m|
    ensures WordAt(Overwrite(m, a, Encoding(w)), a) == w
  {
    ByteSplit(w);
    var r := Overwrite(m, a, Encoding(w));
    assert r[a + 7] == ByteOf(w, 7) == w / 0x100_0000_0000_0000;
    assert forall i :: 0 <= i < 8 ==> r[a + i] == ByteOf(w, i);
  }

  // An aligned word store changes one element of the word view.
  lemma StoreWordView(m: seq<uint8>, a: nat, w: uint64)
    requires a % 8 == 0 && a + 8 <= |m|
    ensures WordsOf(Overwrite(m, a, Encoding(w))) == WordsOf(m)[a / 8 := w]
  {
    var r := Overwrite(m, a, Encoding(w));
    var v := WordsOf(m)[a / 8 := w];
    forall k | 0 <= k < |v|
      ensures WordsOf(r)[k] == v[k]
    {
      if k == a / 8 { WordRoundTrip(m, a, w); }
    }
    assert WordsOf(r) == v;
  }

  // The word that memset stores: the byte replicated by three shift-and-or steps.
  function Spread(v: uint8): uint64 {
    var w1 := Or(v, Shl(v, 8));
    var w2 := Or(w1, Shl(w1, 16));
    var w3 := Or(w2, Shl(Shl(w2, 16), 16));
    assert w3 < TWO_TO_THE_64 by { SpreadSteps(v); }
    w3
  }

  lemma ShiftOr(w: nat, n: nat, p: nat)
    requires p == Pow2(n) && w < p && w * p < TWO_TO_THE_64
    ensures Shl(w, n) == w * p
    ensures Or(w, Shl(w, n)) == w * p + w
  {
    var x := w * p;
    assert Shl(w, n) == x;
    OrSymmetric(w, x);
    OrDisjoint(w, w, n);
  }

  lemma SpreadSteps(v: uint8)
    ensures Or(v, Shl(v, 8)) == 0x101 * v
    ensures Or(0x101 * v, Shl(0x101 * v, 16)) == 0x101_0101 * v
    ensures Or(0x101_0101 * v, Shl(Shl(0x101_0101 * v, 16), 16)) == 0x101_0101_0101_0101 * v
  {
    var w1, w2 := 0x101 * v, 0x101_0101 * v;
    hide Or, Shl, Pow2;
    Pow2Values();
    ShiftOr(v, 8, 0x100);
    ShiftOr(w1, 16, 0x1_0000);
    DoubleShift(w2);
    OrHigh(w2);
  }

  lemma OrHigh(w: nat)
    requires w < 0x1_0000_0000
    ensures Or(w, w * 0x1_0000_0000) == w * 0x1_0000_0001
  {
    hide Or, Pow2;
    Pow2Values64();
    OrSymmetric(w, w * 0x1_0000_0000);
    OrDisjoint(w, w, 32);
  }

  lemma DoubleShift(w: nat)
    requires w < 0x1_0000_0000
    ensures Shl(Shl(w, 16), 16) == w * 0x1_0000_0000
  {
    Pow2Values();
    assert Shl(w, 16) == w * 0x1_0000;
    assert Shl(w * 0x1_0000, 16) == w * 0x1_0000 * 0x1_0000;
  }

  lemma SpreadBytes(v: uint8)
    ensures Encoding(Spread(v)) == Replicate(v, 8)
  {
    SpreadSteps(v);
    DigitsOf(v, v, v, v, v, v, v, v, Spread(v));
  }

  lemma WordView(m: seq<uint8>, k: nat)
    requires k < |m| / 8
    ensures WordsOf(m)[k] == WordAt(m, 8 * k)
  {
  }

  // m' is m after the n bytes at src have been copied to dest.
  ghost predicate CopiedTo(m: seq<uint8>, m': seq<uint8>, dest: nat, src: nat, n: nat) {
    && |m'| == |m| && dest + n <= |m| && src + n <= |m|
    && (forall i :: dest <= i < dest + n ==> m'[i] == m[src + (i - dest)])
    && (forall i :: 0 <= i < |m| && !(dest <= i < dest + n) ==> m'[i] == m[i])
  }

  lemma NothingCopied(m: seq<uint8>, dest: nat, src: nat)
    requires dest <= |m| && src <= |m|
    ensures CopiedTo(m, m, dest, src, 0)
  {
  }

  lemma EncodingBytes(w: uint64)
    ensures |Encoding(w)| == 8 && forall i :: 0 <= i < 8 ==> Encoding(w)[i] == ByteOf(w, i)
  {
  }

  // Storing the word that was loaded copies its bytes.
  lemma WordCopied(m: seq<uint8>, m': seq<uint8>, d: nat, s: nat, w: uint64)
    requires |m'| == |m| && d + 8 <= |m| && s + 8 <= |m|
    requires Encoding(w) == m[s..s + 8]
    requires forall i :: 0 <= i < |m| ==> m'[i] == if d <= i < d + 8 then ByteOf(w, i - d) else m[i]
    ensures CopiedTo(m, m', d, s, 8)
  {
    EncodingBytes(w);
    hide ByteOf, Encoding;
    forall i | d <= i < d + 8 ensures m'[i] == m[s + (i - d)] {
      assert Encoding(w)[i - d] == m[s..s + 8][i - d];
    }
  }

  // Eight more bytes; what is still to be copied has not been overwritten.
  lemma CopyStep(m0: seq<uint8>, m: seq<uint8>, m': seq<uint8>, dest: nat, src: nat, n: nat, len: nat)
    requires dest <= src || src + len <= dest
    requires n + 8 <= len && CopiedTo(m0, m, dest, src, n) && CopiedTo(m, m', dest + n, src + n, 8)
    ensures CopiedTo(m0, m', dest, src, n + 8)
  {
    forall i | 0 <= i < |m0|
      ensures m'[i] == if dest <= i < dest + n + 8 then m0[src + (i - dest)] else m0[i]
    {
      if dest + n <= i < dest + n + 8 {
        var j := src + (i - dest);
        assert j == src + n + (i - (dest + n));
        assert j < dest || dest + n <= j;
        assert m'[i] == m[j];
        assert m[j] == m0[j];
      }
    }
  }

  predicate Aligned(a: nat) {
    a % 8 == 0
  }

  lemma NextWord(a: nat)
    requires Aligned(a)
    ensures Aligned(a + 8)
  {
  }

  class Memory {
    const bytes: array<uint8>

    constructor (size: nat)
      ensures fresh(bytes) && bytes.Length == size
    {
      bytes := new uint8[size];
    }

    // The word view of the memory.
    ghost function Words(): seq<uint64>
      reads bytes
    {
      WordsOf(bytes[..])
    }

    method Load64(a: nat) returns (w: uint64)
      requires a % 8 == 0 && a + 8 <= bytes.Length
      ensures w == WordAt(bytes[..], a) == Words()[a / 8]
    {
      w := WordAt(bytes[a..a + 8], 0);
    }

    method Store64(a: nat, w: uint64)
      requires a % 8 == 0 && a + 8 <= bytes.Length
      modifies bytes
      ensures forall i :: 0 <= i < bytes.Length ==>
        bytes[i] == if a <= i < a + 8 then ByteOf(w, i - a) else old(bytes[i])
      ensures Words() == old(Words())[a / 8 := w]
    {
      forall i | 0 <= i < 8 {
        bytes[a + i] := ByteOf(w, i);
      }
      assert bytes[..] == Overwrite(old(bytes[..]), a, Encoding(w));
      StoreWordView(old(bytes[..]), a, w);
    }

    method StoreAligned(a: nat, w: uint64)
      requires Aligned(a) && a + 8 <= bytes.Length
      modifies bytes
      ensures forall i :: 0 <= i < bytes.Length ==>
        bytes[i] == if a <= i < a + 8 then ByteOf(w, i - a) else old(bytes[i])
    {
      Store64(a, w);
    }

    // One aligned word from s to d.
    method CopyWord(d: nat, s: nat)
      requires Aligned(d) && Aligned(s) && d + 8 <= bytes.Length && s + 8 <= bytes.Length
      modifies bytes
      ensures CopiedTo(old(bytes[..]), bytes[..], d, s, 8)
    {
      var w := Load64(s);
      ghost var m := bytes[..];
      LoadStoreCopies(m, s);
      EncodingBytes(w);
      hide WordAt, ByteOf, Encoding, WordsOf, CopiedTo;
      StoreAligned(d, w);
      WordCopied(m, bytes[..], d, s, w);
    }

    // memset: whole words when address and length are both multiples of eight.
    method Memset(dest: nat, byte: int, len: nat) returns (r: nat)
      requires dest + len <= bytes.Length
      modifies bytes
      ensures r == dest
      ensures forall i :: 0 <= i < bytes.Length ==>
        bytes[i] == if dest <= i < dest + len then byte % 0x100 else old(bytes[i])
    {
      hide And, Or, WordsOf;
      var v: uint8 := byte % 0x100;
      if And(Or(dest, len), 7) == 0 {
        BothAligned(dest, len);
        FillWords(dest, len, v);
      } else {
        var d := dest;
        while d < dest + len
          invariant dest <= d <= dest + len
          invariant forall i :: 0 <= i < bytes.Length ==> bytes[i] == if dest <= i < d then v else old(bytes[i])
        {
          bytes[d] := v;
          d := d + 1;
        }
      }
      r := dest;
    }

    // The word loop of memset.
    method FillWords(dest: nat, len: nat, v: uint8)
      requires Aligned(dest) && len % 8 == 0 && dest + len <= bytes.Length
      modifies bytes
      ensures forall i :: 0 <= i < bytes.Length ==>
        bytes[i] == if dest <= i < dest + len then v else old(bytes[i])
    {
      var word := Spread(v);
      SpreadBytes(v);
      assert forall i :: 0 <= i < 8 ==> ByteOf(word, i) == Encoding(word)[i] == v;
      hide ByteOf, Encoding, WordsOf, Aligned;
      var d := dest;
      ghost var left := len / 8;
      while d < dest + len
        invariant left >= 0 && d + 8 * left == dest + len && dest <= d && Aligned(d)
        invariant forall i :: 0 <= i < bytes.Length ==> bytes[i] == if dest <= i < d then v else old(bytes[i])
      {
        StoreAligned(d, word);
        NextWord(d);
        d, left := d + 8, left - 1;
      }
    }

    // memcpy: whole words while both addresses are aligned, then the remaining bytes.
    // C asks for disjoint ranges and a non-null destination; a destination that starts
    // at or below the source is also copied correctly.
    method Memcpy(dest: nat, src: nat, len: nat) returns (r: nat)
      requires 0 < dest && dest + len <= bytes.Length && src + len <= bytes.Length
      requires dest <= src || src + len <= dest
      modifies bytes
      ensures r == dest
      ensures forall i :: 0 <= i < bytes.Length ==>
        bytes[i] == if dest <= i < dest + len then old(bytes[src + (i - dest)]) else old(bytes[i])
    {
      var s, d := src, dest;
      if And(Or(dest, src), 7) == 0 {
        BothAligned(dest, src);
        s, d := CopyWords(dest, src, len);
      }
      while d < dest + len
        invariant dest <= d <= dest + len && s - src == d - dest
        invariant forall i :: 0 <= i < bytes.Length ==>
          bytes[i] == if dest <= i < d then old(bytes[src + (i - dest)]) else old(bytes[i])
      {
        bytes[d] := bytes[s];
        d, s := d + 1, s + 1;
      }
      r := dest;
    }

    // The word loop of memcpy; it stops when fewer than eight bytes are left.
    method CopyWords(dest: nat, src: nat, len: nat) returns (s: nat, d: nat)
      requires Aligned(dest) && Aligned(src) && 0 < dest
      requires dest + len <= bytes.Length && src + len <= bytes.Length
      requires dest <= src || src + len <= dest
      modifies bytes
      ensures dest + len - 7 <= d <= dest + len && dest <= d && s - src == d - dest
      ensures CopiedTo(old(bytes[..]), bytes[..], dest, src, d - dest)
    {
      NothingCopied(bytes[..], dest, src);
      hide *;
      s, d := src, dest;
      ghost var m0, n: nat := bytes[..], 0;
      while d < dest + len - 7
        invariant n <= len && d == dest + n && s == src + n
        invariant Aligned(d) && Aligned(s)
        invariant CopiedTo(m0, bytes[..], dest, src, n)
      {
        ghost var m := bytes[..];
        CopyWord(d, s);
        CopyStep(m0, m, bytes[..], dest, src, n, len);
        NextWord(d);
        NextWord(s);
        d, s, n := d + 8, s + 8, n + 8;
      }
    }

    // memmove: backwards when the destination starts inside the source range.
    method Memmove(dst: nat, src: nat, n: nat) returns (r: nat)
      requires dst + n <= bytes.Length && src + n <= bytes.Length
      modifies bytes
      ensures r == dst
      ensures forall i :: 0 <= i < bytes.Length ==>
        bytes[i] == if dst <= i < dst + n then old(bytes[src + (i - dst)]) else old(bytes[i])
    {
      var s, d, left := src, dst, n;
      if s < d && s + n > d {
        s, d := s + n, d + n;
        while left > 0
          invariant 0 <= left <= n && s == src + left && d == dst + left
          invariant forall i :: 0 <= i < bytes.Length ==>
            bytes[i] == if d <= i < dst + n then old(bytes[src + (i - dst)]) else old(bytes[i])
          decreases left
        {
          left := left - 1;
          s, d := s - 1, d - 1;
          bytes[d] := bytes[s];
        }
      } else {
        while left > 0
          invariant 0 <= left <= n && s == src + (n - left) && d == dst + (n - left)
          invariant forall i :: 0 <= i < bytes.Length ==>
            bytes[i] == if dst <= i < d then old(bytes[src + (i - dst)]) else old(bytes[i])
          decreases left
        {
          left := left - 1;
          bytes[d] := bytes[s];
          s, d := s + 1, d + 1;
        }
      }
      r := dst;
    }
  }
}
