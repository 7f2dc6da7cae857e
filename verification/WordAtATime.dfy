/** Searching a machine word for a zero byte, all its bytes at a time, in big-endian order.

Words are bit vectors, so carries between bytes are those of the machine.
*/
module WordAtATime {

  // ---------------------------------------------------------------- 64-bit words

  const HIGH_BITS_64: bv64 := 0xfefe_fefe_fefe_fefe + 1
  const LOW_BITS_64: bv64 := 0x7f7f_7f7f_7f7f_7f7f

  /** Byte k of a word, counted from the most significant one. */
  function Byte64(w: bv64, k: nat): bv64
    requires k < 8
  {
    if k == 0 then (w >> 56) & 0xff
    else if k == 1 then (w >> 48) & 0xff
    else if k == 2 then (w >> 40) & 0xff
    else if k == 3 then (w >> 32) & 0xff
    else if k == 4 then (w >> 24) & 0xff
    else if k == 5 then (w >> 16) & 0xff
    else if k == 6 then (w >> 8) & 0xff
    else w & 0xff
  }

  function PrepZeroMask64(val: bv64, rhs: bv64): bv64
  {
    var mask := (val & LOW_BITS_64) + LOW_BITS_64;
    !(mask | rhs)
  }

  /** Whether a word has a zero byte, and the data that prep_zero_mask wants of it. */
  method HasZero64(val: bv64) returns (found: bool, data: bv64)
    ensures found <==> exists k :: 0 <= k < 8 && Byte64(val, k) == 0
    ensures data == val | LOW_BITS_64
  {
    var rhs := val | LOW_BITS_64;
    data := rhs;
    found := (val + HIGH_BITS_64) & !rhs != 0;
    ZeroShows64(val);
    if found {
      assert exists k :: 0 <= k < 8 && Byte64(val, k) == 0;
    }
  }

  lemma ZeroShows64(val: bv64)
    ensures (val + HIGH_BITS_64) & !(val | LOW_BITS_64) != 0
       <==> exists k :: 0 <= k < 8 && Byte64(val, k) == 0
  {
    ZeroBits64(val);
    assert Byte64(val, 0) == (val >> 56) & 0xff && Byte64(val, 1) == (val >> 48) & 0xff;
    assert Byte64(val, 2) == (val >> 40) & 0xff && Byte64(val, 3) == (val >> 32) & 0xff;
    assert Byte64(val, 4) == (val >> 24) & 0xff && Byte64(val, 5) == (val >> 16) & 0xff;
    assert Byte64(val, 6) == (val >> 8) & 0xff && Byte64(val, 7) == val & 0xff;
  }

  lemma ZeroBits64(val: bv64)
    ensures (val + HIGH_BITS_64) & !(val | LOW_BITS_64) != 0
       <==> || (val >> 56) & 0xff == 0
            || (val >> 48) & 0xff == 0
            || (val >> 40) & 0xff == 0
            || (val >> 32) & 0xff == 0
            || (val >> 24) & 0xff == 0
            || (val >> 16) & 0xff == 0
            || (val >> 8) & 0xff == 0
            || val & 0xff == 0
  {
  }

  /** The mask marks exactly the zero bytes of the word: no carry makes a false hit. */
  lemma MaskMarksZeros64(val: bv64, k: nat)
    requires k < 8
    ensures Byte64(PrepZeroMask64(val, val | LOW_BITS_64), k)
         == if Byte64(val, k) == 0 then 0x80 else 0
  {
    var mask := PrepZeroMask64(val, val | LOW_BITS_64);
    MaskBits64(val, mask);
    MarkedAt64(val, mask, k);
  }

  ghost predicate Marked64(val: bv64, mask: bv64)
  {
    && (mask >> 56) & 0xff == (if (val >> 56) & 0xff == 0 then 0x80 else 0)
    && (mask >> 48) & 0xff == (if (val >> 48) & 0xff == 0 then 0x80 else 0)
    && (mask >> 40) & 0xff == (if (val >> 40) & 0xff == 0 then 0x80 else 0)
    && (mask >> 32) & 0xff == (if (val >> 32) & 0xff == 0 then 0x80 else 0)
    && (mask >> 24) & 0xff == (if (val >> 24) & 0xff == 0 then 0x80 else 0)
    && (mask >> 16) & 0xff == (if (val >> 16) & 0xff == 0 then 0x80 else 0)
    && (mask >> 8) & 0xff == (if (val >> 8) & 0xff == 0 then 0x80 else 0)
    && mask & 0xff == (if val & 0xff == 0 then 0x80 else 0)
  }

  lemma MaskBits64(val: bv64, mask: bv64)
    requires mask == !(((val & LOW_BITS_64) + LOW_BITS_64) | (val | LOW_BITS_64))
    ensures Marked64(val, mask)
  {
  }

  lemma MarkedAt64(val: bv64, mask: bv64, k: nat)
    requires k < 8 && Marked64(val, mask)
    ensures Byte64(mask, k) == if Byte64(val, k) == 0 then 0x80 else 0
  {
  }

  /** The index of the first byte of a mask that is not zero, by halving; the last index if no
      earlier byte is. */
  method FindZero64(mask: bv64) returns (byte: nat)
    ensures byte < 8
    ensures forall k :: 0 <= k < byte ==> Byte64(mask, k) == 0
    ensures byte < 7 ==> Byte64(mask, byte) != 0
  {
    var m := mask;
    byte := 0;
    if m >> 32 != 0 {
      m := m >> 32;
    } else {
      byte := 4;
    }
    if m >> 16 != 0 {
      m := m >> 16;
    } else {
      byte := byte + 2;
    }
    byte := if m >> 8 != 0 then byte else byte + 1;
  }

  /** Searching a word as the header intends: the two steps find the first zero byte. */
  method FirstZero64(val: bv64) returns (found: bool, byte: nat)
    ensures found <==> exists k :: 0 <= k < 8 && Byte64(val, k) == 0
    ensures found ==> byte < 8 && Byte64(val, byte) == 0 && forall k :: 0 <= k < byte ==> Byte64(val, k) != 0
  {
    var data;
    found, data := HasZero64(val);
    byte := 0;
    if found {
      var mask := PrepZeroMask64(val, data);
      byte := FindZero64(mask);
      forall k | 0 <= k < 8
        ensures Byte64(mask, k) == if Byte64(val, k) == 0 then 0x80 else 0
      {
        MaskMarksZeros64(val, k);
      }
    }
  }

  // ---------------------------------------------------------------- 32-bit words

  const HIGH_BITS_32: bv32 := 0xfefe_fefe + 1
  const LOW_BITS_32: bv32 := 0x7f7f_7f7f

  /** Byte k of a word, counted from the most significant one. */
  function Byte32(w: bv32, k: nat): bv32
    requires k < 4
  {
    if k == 0 then (w >> 24) & 0xff
    else if k == 1 then (w >> 16) & 0xff
    else if k == 2 then (w >> 8) & 0xff
    else w & 0xff
  }

  function PrepZeroMask32(val: bv32, rhs: bv32): bv32
  {
    var mask := (val & LOW_BITS_32) + LOW_BITS_32;
    !(mask | rhs)
  }

  /** Whether a word has a zero byte, and the data that prep_zero_mask wants of it. */
  method HasZero32(val: bv32) returns (found: bool, data: bv32)
    ensures found <==> exists k :: 0 <= k < 4 && Byte32(val, k) == 0
    ensures data == val | LOW_BITS_32
  {
    var rhs := val | LOW_BITS_32;
    data := rhs;
    found := (val + HIGH_BITS_32) & !rhs != 0;
    ZeroShows32(val);
    if found {
      assert exists k :: 0 <= k < 4 && Byte32(val, k) == 0;
    }
  }

  lemma ZeroShows32(val: bv32)
    ensures (val + HIGH_BITS_32) & !(val | LOW_BITS_32) != 0
       <==> exists k :: 0 <= k < 4 && Byte32(val, k) == 0
  {
    ZeroBits32(val);
    assert Byte32(val, 0) == (val >> 24) & 0xff && Byte32(val, 1) == (val >> 16) & 0xff;
    assert Byte32(val, 2) == (val >> 8) & 0xff && Byte32(val, 3) == val & 0xff;
  }

  lemma ZeroBits32(val: bv32)
    ensures (val + HIGH_BITS_32) & !(val | LOW_BITS_32) != 0
       <==> || (val >> 24) & 0xff == 0
            || (val >> 16) & 0xff == 0
            || (val >> 8) & 0xff == 0
            || val & 0xff == 0
  {
  }

  /** The mask marks exactly the zero bytes of the word: no carry makes a false hit. */
  lemma MaskMarksZeros32(val: bv32, k: nat)
    requires k < 4
    ensures Byte32(PrepZeroMask32(val, val | LOW_BITS_32), k)
         == if Byte32(val, k) == 0 then 0x80 else 0
  {
    var mask := PrepZeroMask32(val, val | LOW_BITS_32);
    MaskBits32(val, mask);
    MarkedAt32(val, mask, k);
  }

  ghost predicate Marked32(val: bv32, mask: bv32)
  {
    && (mask >> 24) & 0xff == (if (val >> 24) & 0xff == 0 then 0x80 else 0)
    && (mask >> 16) & 0xff == (if (val >> 16) & 0xff == 0 then 0x80 else 0)
    && (mask >> 8) & 0xff == (if (val >> 8) & 0xff == 0 then 0x80 else 0)
    && mask & 0xff == (if val & 0xff == 0 then 0x80 else 0)
  }

  lemma MaskBits32(val: bv32, mask: bv32)
    requires mask == !(((val & LOW_BITS_32) + LOW_BITS_32) | (val | LOW_BITS_32))
    ensures Marked32(val, mask)
  {
  }

  lemma MarkedAt32(val: bv32, mask: bv32, k: nat)
    requires k < 4 && Marked32(val, mask)
    ensures Byte32(mask, k) == if Byte32(val, k) == 0 then 0x80 else 0
  {
  }

  /** The index of the first byte of a mask that is not zero, by halving; the last index if no
      earlier byte is. */
  method FindZero32(mask: bv32) returns (byte: nat)
    ensures byte < 4
    ensures forall k :: 0 <= k < byte ==> Byte32(mask, k) == 0
    ensures byte < 3 ==> Byte32(mask, byte) != 0
  {
    var m := mask;
    byte := 0;
    if m >> 16 != 0 {
      m := m >> 16;
    } else {
      byte := byte + 2;
    }
    byte := if m >> 8 != 0 then byte else byte + 1;
  }

  /** Searching a word as the header intends: the two steps find the first zero byte. */
  method FirstZero32(val: bv32) returns (found: bool, byte: nat)
    ensures found <==> exists k :: 0 <= k < 4 && Byte32(val, k) == 0
    ensures found ==> byte < 4 && Byte32(val, byte) == 0 && forall k :: 0 <= k < byte ==> Byte32(val, k) != 0
  {
    var data;
    found, data := HasZero32(val);
    byte := 0;
    if found {
      var mask := PrepZeroMask32(val, data);
      byte := FindZero32(mask);
      forall k | 0 <= k < 4
        ensures Byte32(mask, k) == if Byte32(val, k) == 0 then 0x80 else 0
      {
        MaskMarksZeros32(val, k);
      }
    }
  }
}
