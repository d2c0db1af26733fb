/**
 * The IT mask of the Thumb-2 IT instruction (ARMv7-M Architecture Reference
 * Manual, section A7.7.38), in LLVM's internal form: a 4-bit value whose
 * lowest set bit marks the end of the block, and whose bits above it, read
 * from bit 3 downwards, say for each instruction after the first whether it
 * uses the opposite condition (bit set) or the same condition (bit clear).
 *
 * The decoded form is a tag sequence: tag k is true when instruction k of the
 * block executes under the IT's own base condition ("same"), false when it
 * executes under the opposite condition.
 */
module ITMask {

  /** 2 to the power i, for the bit positions of a 4-bit mask. */
  function Pow2(i: nat): (r: nat)
    requires i <= 4
    ensures r >= 1
  {
    if i == 0 then 1 else if i == 1 then 2 else if i == 2 then 4 else if i == 3 then 8 else 16
  }

  /** Bit i of m is set (the source's `Mask & (1 << i)`). */
  predicate Bit(m: nat, i: nat)
    requires i <= 4
  {
    (m / Pow2(i)) % 2 == 1
  }

  /** The source masks every IT immediate with 0xf and rejects zero. */
  predicate ValidMask(mask: nat)
  {
    mask % 16 != 0
  }

  /** A tag sequence that an IT can encode: 1 to 4 tags, the first "same". */
  predicate ValidTags(tags: seq<bool>)
  {
    1 <= |tags| <= 4 && tags[0]
  }

  /** getITBlockSize: how many predicated instructions an IT covers. */
  function ITBlockSize(mask: nat): (n: nat)
    requires ValidMask(mask)
    ensures 1 <= n <= 4
  {
    var m := mask % 16;
    if m == 8 then 1
    else if m == 4 || m == 12 then 2
    else if m == 2 || m == 6 || m == 10 || m == 14 then 3
    else 4
  }

  /** The block size is fixed by the lowest set bit of the mask: bit 4 - n. */
  lemma ITBlockSizeIsLowestBit(mask: nat)
    requires ValidMask(mask)
    ensures Bit(mask % 16, 4 - ITBlockSize(mask))
    ensures forall j :: 0 <= j < 4 - ITBlockSize(mask) ==> !Bit(mask % 16, j)
  {
  }

  /** decodeITMask, as a value: tag 0 is "same", tag k >= 1 is "same" exactly
      when bit 4 - k of the mask is clear. */
  function TagsOf(mask: nat): (tags: seq<bool>)
    requires ValidMask(mask)
  {
    seq(ITBlockSize(mask), k => TagAt(mask % 16, k))
  }

  /** Tag k of the decoded form of mask bits m. */
  predicate TagAt(m: nat, k: int)
  {
    k == 0 || (1 <= k < 4 && !Bit(m, 4 - k))
  }

  /** 1 when tag k exists and is "opposite", else 0. */
  function OppBit(tags: seq<bool>, k: nat): nat
  {
    if k < |tags| && !tags[k] then 1 else 0
  }

  /** encodeITMask, as a value: tag k (1 <= k <= 3), when "opposite", sets
      bit 4 - k; the terminating bit is bit 4 - |tags|. */
  function EncodedMask(tags: seq<bool>): nat
    requires ValidTags(tags)
  {
    8 * OppBit(tags, 1) + 4 * OppBit(tags, 2) + 2 * OppBit(tags, 3) + Pow2(4 - |tags|)
  }

  /** The decoded form of every valid mask is a valid tag sequence of the
      mask's block size. */
  lemma TagsOfValid(mask: nat)
    requires ValidMask(mask)
    ensures ValidTags(TagsOf(mask))
    ensures |TagsOf(mask)| == ITBlockSize(mask)
    ensures forall k :: 1 <= k < |TagsOf(mask)| ==> (TagsOf(mask)[k] <==> !Bit(mask % 16, 4 - k))
  {
  }

  /** The length part of TagsOfValid alone. */
  lemma TagsOfSize(mask: nat)
    requires ValidMask(mask)
    ensures |TagsOf(mask)| == ITBlockSize(mask)
  {
  }

  /** Round trip: encoding a decoded mask gives back the mask's four bits. */
  lemma EncodeDecode(mask: nat)
    requires ValidMask(mask)
    ensures ValidTags(TagsOf(mask))
    ensures EncodedMask(TagsOf(mask)) == mask % 16
  {
    TagsOfValid(mask);
    var m := mask % 16;
    if m % 2 == 1 {
      EncodeDecodeFour(mask);
    } else if m % 4 == 2 {
      EncodeDecodeThree(mask);
    } else if m % 8 == 4 {
      EncodeDecodeTwo(mask);
    } else {
      assert m == 8;
      assert TagsOf(mask) == [true];
    }
  }

  /** The round trip for the masks of four-instruction blocks. */
  lemma EncodeDecodeFour(mask: nat)
    requires ValidMask(mask) && (mask % 16) % 2 == 1
    ensures EncodedMask(TagsOf(mask)) == mask % 16
  {
    var m := mask % 16;
    var t := TagsOf(mask);
    if m < 8 {
      EncodeDecodeFourSame(mask);
    } else if m == 9 { assert t == [true, false, true, true]; }
    else if m == 11 { assert t == [true, false, true, false]; }
    else if m == 13 { assert t == [true, false, false, true]; }
    else { assert m == 15; assert t == [true, false, false, false]; }
  }

  /** ... and those whose second instruction keeps the base condition. */
  lemma EncodeDecodeFourSame(mask: nat)
    requires ValidMask(mask) && (mask % 16) % 2 == 1 && mask % 16 < 8
    ensures EncodedMask(TagsOf(mask)) == mask % 16
  {
    var m := mask % 16;
    var t := TagsOf(mask);
    if m == 1 { assert t == [true, true, true, true]; }
    else if m == 3 { assert t == [true, true, true, false]; }
    else if m == 5 { assert t == [true, true, false, true]; }
    else { assert m == 7; assert t == [true, true, false, false]; }
  }

  /** The round trip for the masks of three-instruction blocks. */
  lemma EncodeDecodeThree(mask: nat)
    requires ValidMask(mask) && (mask % 16) % 4 == 2
    ensures EncodedMask(TagsOf(mask)) == mask % 16
  {
    var m := mask % 16;
    var t := TagsOf(mask);
    if m == 2 { assert t == [true, true, true]; }
    else if m == 6 { assert t == [true, true, false]; }
    else if m == 10 { assert t == [true, false, true]; }
    else { assert m == 14; assert t == [true, false, false]; }
  }

  /** The round trip for the masks of two-instruction blocks. */
  lemma EncodeDecodeTwo(mask: nat)
    requires ValidMask(mask) && (mask % 16) % 8 == 4
    ensures EncodedMask(TagsOf(mask)) == mask % 16
  {
    var t := TagsOf(mask);
    if mask % 16 == 4 { assert t == [true, true]; }
    else { assert mask % 16 == 12; assert t == [true, false]; }
  }

  /** Round trip: decoding an encoded tag sequence gives back the sequence;
      in particular the encoded mask is a valid, non-zero 4-bit mask. */
  lemma DecodeEncode(tags: seq<bool>)
    requires ValidTags(tags)
    ensures 1 <= EncodedMask(tags) <= 15
    ensures ValidMask(EncodedMask(tags))
    ensures TagsOf(EncodedMask(tags)) == tags
  {
    if |tags| <= 3 {
      DecodeEncodeShort(tags);
    } else {
      DecodeEncodeFour(tags);
    }
  }

  /** The round trip for blocks of up to three instructions. */
  lemma DecodeEncodeShort(tags: seq<bool>)
    requires ValidTags(tags) && |tags| <= 3
    ensures 1 <= EncodedMask(tags) <= 15
    ensures TagsOf(EncodedMask(tags)) == tags
  {
    var t := TagsOf(EncodedMask(tags));
    assert |t| == |tags|;
    forall k | 0 <= k < |tags| ensures t[k] == tags[k] {
    }
  }

  /** The round trip for four-instruction blocks. */
  lemma DecodeEncodeFour(tags: seq<bool>)
    requires ValidTags(tags) && |tags| == 4
    ensures 1 <= EncodedMask(tags) <= 15
    ensures TagsOf(EncodedMask(tags)) == tags
  {
    var t := TagsOf(EncodedMask(tags));
    assert |t| == |tags|;
    forall k | 0 <= k < |tags| ensures t[k] == tags[k] {
    }
  }

  /** Masks are determined by their tags: two valid masks with the same
      decoded form agree on their four bits. */
  lemma TagsOfInjective(m1: nat, m2: nat)
    requires ValidMask(m1) && ValidMask(m2)
    requires TagsOf(m1) == TagsOf(m2)
    ensures m1 % 16 == m2 % 16
  {
    EncodeDecode(m1);
    EncodeDecode(m2);
  }

  /** A non-zero 4-bit value has one of its four bits set. */
  lemma NonZeroHasBit(m: nat)
    requires 1 <= m < 16
    ensures Bit(m, 0) || Bit(m, 1) || Bit(m, 2) || Bit(m, 3)
  {
    if m % 2 == 0 && (m / 2) % 2 == 0 && (m / 4) % 2 == 0 {
      assert m == 8;
    }
  }

  /** decodeITMask: the loops of the source over the local mask bits. */
  method DecodeITMask(mask: nat) returns (tags: seq<bool>)
    requires ValidMask(mask)
    ensures tags == TagsOf(mask)
  {
    var m := mask % 16;
    tags := [true];
    // Find the lowest set bit: i runs over 0x1, 0x2, 0x4, 0x8.
    var size := 4;
    var i: nat := 1;
    ghost var j: nat := 0;
    while i < 16
      invariant j <= 4 && i == Pow2(j) && size == 4 - j
      invariant forall l :: 0 <= l < j ==> !Bit(m, l)
    {
      if (m / i) % 2 == 1 {  // Mask & i
        break;
      }
      size := size - 1;
      i := i * 2;
      j := j + 1;
    }
    NonZeroHasBit(m);
    assert j < 4;
    ITBlockSizeIsLowestBit(mask);
    assert size == ITBlockSize(mask);
    // Read the tags of instructions 1 .. size - 1 from bits 3 downwards.
    var k: int := 3;
    while k > 4 - size
      invariant 4 - size <= k <= 3
      invariant |tags| == 4 - k
      invariant tags == TagsOf(mask)[..4 - k]
    {
      tags := tags + [!Bit(m, k)];
      k := k - 1;
    }
  }

  /** encodeITMask: shift the opposite bits in one by one, then the
      terminating bit, then align to bit 3. `|` on a value whose low bit is
      clear is written as `+`. */
  method EncodeITMask(tags: seq<bool>) returns (mask: nat)
    requires ValidTags(tags)
    ensures mask == EncodedMask(tags)
    ensures ValidMask(mask) && TagsOf(mask) == tags
  {
    mask := 0;
    var i := 1;
    while i < |tags|
      invariant 1 <= i <= |tags|
      invariant i == 1 ==> mask == 0
      invariant i == 2 ==> mask == 2 * OppBit(tags, 1)
      invariant i == 3 ==> mask == 4 * OppBit(tags, 1) + 2 * OppBit(tags, 2)
      invariant i == 4 ==> mask == 8 * OppBit(tags, 1) + 4 * OppBit(tags, 2) + 2 * OppBit(tags, 3)
    {
      mask := mask + (if tags[i] then 0 else 1);  // Mask |= tag ? 0 : 1
      mask := mask * 2;                          // Mask <<= 1
      i := i + 1;
    }
    mask := mask + 1;                            // Mask |= 1
    mask := mask * Pow2(4 - |tags|);             // Mask <<= 4 - size
    DecodeEncode(tags);
  }
}
