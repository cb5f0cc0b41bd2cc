/**
 * Addressing pieces in a `bitfield` peer message (BEP 3): piece `i` is bit
 * `i % 8` of byte `i / 8`, counted from the most significant bit, so the
 * high bit of the first byte is piece 0.
 */
module Messages {
  import opened Outcomes
  import opened RawInfo

  function Pow2(k: nat): (p: nat)
    ensures p > 0
  {
    if k == 0 then 1 else 2 * Pow2(k - 1)
  }

  /**
   * Whether `data` says that piece `i` is present, read arithmetically: bit
   * `7 - i % 8` (from the least significant end) of byte `i / 8`.
   */
  predicate HasPiece(data: seq<Byte>, i: nat)
  {
    i / 8 < |data| && (data[i / 8] as int / Pow2(7 - i % 8)) % 2 == 1
  }

  /** `index_in_bitarray`: the byte that holds piece `index` and the mask of its bit. */
  function IndexInBitarray(index: Usize): (r: (Usize, Byte))
    ensures r.0 == index / 8
    ensures r.1 as int == Pow2(7 - index % 8)
  {
    var shift := index % 8;
    var mask := (128 as Byte) >> shift;
    MaskValue(shift);
    (index / 8, mask)
  }

  lemma Pow2Byte()
    ensures Pow2(0) == 1 && Pow2(1) == 2 && Pow2(2) == 4 && Pow2(3) == 8
    ensures Pow2(4) == 16 && Pow2(5) == 32 && Pow2(6) == 64 && Pow2(7) == 128
  {
    assert Pow2(1) == 2 * Pow2(0);
    assert Pow2(2) == 2 * Pow2(1);
    assert Pow2(3) == 2 * Pow2(2);
    assert Pow2(4) == 2 * Pow2(3);
    assert Pow2(5) == 2 * Pow2(4);
    assert Pow2(6) == 2 * Pow2(5);
    assert Pow2(7) == 2 * Pow2(6);
  }

  lemma MaskValue(k: nat)
    requires k < 8
    ensures ((128 as Byte) >> k) as int == Pow2(7 - k)
  {
    Pow2Byte();
    if k == 0 {
      assert (128 as Byte) >> 0 == 128;
    } else if k == 1 {
      assert (128 as Byte) >> 1 == 64;
    } else if k == 2 {
      assert (128 as Byte) >> 2 == 32;
    } else if k == 3 {
      assert (128 as Byte) >> 3 == 16;
    } else if k == 4 {
      assert (128 as Byte) >> 4 == 8;
    } else if k == 5 {
      assert (128 as Byte) >> 5 == 4;
    } else if k == 6 {
      assert (128 as Byte) >> 6 == 2;
    } else {
      assert (128 as Byte) >> 7 == 1;
    }
  }

  /** The position, from the most significant end, of a single-bit mask. */
  function BitOffset(mask: Byte): nat
  {
    if mask == 128 then 0
    else if mask == 64 then 1
    else if mask == 32 then 2
    else if mask == 16 then 3
    else if mask == 8 then 4
    else if mask == 4 then 5
    else if mask == 2 then 6
    else 7
  }

  /**
   * The mask has exactly one bit set, and the pair determines the index:
   * `index == 8 * byte + offset of the mask`, so distinct indices give
   * distinct pairs.
   */
  lemma IndexRecovered(index: Usize)
    ensures var (byte, mask) := IndexInBitarray(index);
            && mask != 0 && mask & (mask - 1) == 0
            && mask in {1, 2, 4, 8, 16, 32, 64, 128}
            && index == 8 * byte + BitOffset(mask)
  {
    var k := index % 8;
    var mask := IndexInBitarray(index).1;
    Pow2Byte();
    assert mask as int == Pow2(7 - k);
    if k == 0 {
      assert mask == 128;
    } else if k == 1 {
      assert mask == 64;
    } else if k == 2 {
      assert mask == 32;
    } else if k == 3 {
      assert mask == 16;
    } else if k == 4 {
      assert mask == 8;
    } else if k == 5 {
      assert mask == 4;
    } else if k == 6 {
      assert mask == 2;
    } else {
      assert mask == 1;
    }
  }

  /** Distinct piece indices address distinct bits. */
  lemma IndexInjective(i: Usize, j: Usize)
    requires IndexInBitarray(i) == IndexInBitarray(j)
    ensures i == j
  {
    IndexRecovered(i);
    IndexRecovered(j);
  }

  /** `bit_by_index`: the byte and mask of piece `index` when its bit is set in `data`. */
  function BitByIndex(index: Usize, data: seq<Byte>): (r: Option<(Usize, Byte)>)
    ensures index / 8 >= |data| ==> r == None
    ensures r.Some? ==> r.value == IndexInBitarray(index)
  {
    var (indexByte, indexBit) := IndexInBitarray(index);
    if indexByte < |data| then
      var v := data[indexByte];
      if v & indexBit == indexBit then Some((indexByte, indexBit)) else None
    else None
  }

  /**
   * Masking a byte with a single-bit mask reads that bit of its value.  Each
   * mask is its own lemma below: one bit-vector fact per solver query.
   */
  lemma BitTest(v: Byte, mask: Byte)
    requires mask in {1, 2, 4, 8, 16, 32, 64, 128}
    ensures (v & mask == mask) <==> (v as int / mask as int) % 2 == 1
  {
    if mask == 128 {
      BitOf128(v);
    } else if mask == 64 {
      BitOf64(v);
    } else if mask == 32 {
      BitOf32(v);
    } else if mask == 16 {
      BitOf16(v);
    } else if mask == 8 {
      BitOf8(v);
    } else if mask == 4 {
      BitOf4(v);
    } else if mask == 2 {
      BitOf2(v);
    } else if mask == 1 {
      BitOf1(v);
    }
  }

  lemma BitOf128(v: Byte)
    ensures (v & 128 == 128) <==> (v as int / 128) % 2 == 1
  {
  }

  lemma BitOf64(v: Byte)
    ensures (v & 64 == 64) <==> (v as int / 64) % 2 == 1
  {
  }

  lemma BitOf32(v: Byte)
    ensures (v & 32 == 32) <==> (v as int / 32) % 2 == 1
  {
  }

  lemma BitOf16(v: Byte)
    ensures (v & 16 == 16) <==> (v as int / 16) % 2 == 1
  {
  }

  lemma BitOf8(v: Byte)
    ensures (v & 8 == 8) <==> (v as int / 8) % 2 == 1
  {
  }

  lemma BitOf4(v: Byte)
    ensures (v & 4 == 4) <==> (v as int / 4) % 2 == 1
  {
  }

  lemma BitOf2(v: Byte)
    ensures (v & 2 == 2) <==> (v as int / 2) % 2 == 1
  {
  }

  lemma BitOf1(v: Byte)
    ensures (v & 1 == 1) <==> (v as int / 1) % 2 == 1
  {
  }

  /** `bit_by_index` finds exactly the pieces the bitfield marks present, MSB first. */
  lemma BitByIndexHasPiece(index: Usize, data: seq<Byte>)
    ensures BitByIndex(index, data).Some? <==> HasPiece(data, index)
  {
    if index / 8 < |data| {
      IndexRecovered(index);
      BitTest(data[index / 8], IndexInBitarray(index).1);
    }
  }

  /** The answer depends only on the byte that holds the piece. */
  lemma OnlyItsByte(index: Usize, data: seq<Byte>, other: seq<Byte>)
    requires index / 8 < |data| && index / 8 < |other|
    requires data[index / 8] == other[index / 8]
    ensures BitByIndex(index, data) == BitByIndex(index, other)
  {
  }

  /** Piece 0 is the high bit of the first byte, piece 7 its low bit, and piece 8 lies past a one-byte field. */
  lemma FirstByte()
    ensures HasPiece([0x80], 0) && BitByIndex(0, [0x80]) == Some((0, 0x80))
    ensures !HasPiece([0x80], 7) && BitByIndex(7, [0x80]) == None
    ensures HasPiece([0x01], 7) && BitByIndex(7, [0x01]) == Some((0, 0x01))
    ensures BitByIndex(8, [0xFF]) == None
  {
    BitByIndexHasPiece(7, [0x01]);
  }
}
