/**
 * 64-bit bitboard masks and the facts about single-square, rank and file
 * masks that the square model needs. Bit i of a mask is the square on file
 * i % 8 and rank i / 8 (bit 0 = a1, bit 7 = h1, bit 8 = a2, ..., bit 63 = h8).
 *
 * Every fact is first proved about bit positions of type bv7 (where the
 * solver reasons about shifts directly) and then carried over to the
 * natural-number positions the tables are indexed by.
 */
module Masks {

  type Mask = bv64

  /** The mask with no square in it. */
  const EMPTY: Mask := 0

  /** The single-square mask `1 << i`. */
  function Bit(i: nat): Mask
    requires i < 64
  {
    (1 as Mask) << i
  }

  /** Rank k's mask, `0xff << 8k`. */
  function RankMask(k: nat): Mask
    requires k < 8
  {
    (0xff as Mask) << (8 * k)
  }

  /** File k's mask, `0x0101010101010101 << k`. */
  function FileMask(k: nat): Mask
    requires k < 8
  {
    (0x0101010101010101 as Mask) << k
  }

  /** Python's truth value of `a & b`: the two masks share a square. */
  predicate Overlaps(a: Mask, b: Mask)
  {
    a & b != 0
  }

  /** `m` is a non-zero power of two: exactly one bit is set. */
  predicate PowerOfTwo(m: Mask)
  {
    m != 0 && m & (m - 1) == 0
  }

  // ---- The same masks with bv7 bit positions ----

  function BitAt(b: bv7): Mask
    requires b < 64
  {
    (1 as Mask) << b
  }

  function RankMaskAt(b: bv7): Mask
    requires b < 8
  {
    (0xff as Mask) << (8 * b)
  }

  function FileMaskAt(b: bv7): Mask
    requires b < 8
  {
    (0x0101010101010101 as Mask) << b
  }

  lemma BitAsBv(i: nat)
    requires i < 64
    ensures Bit(i) == BitAt(i as bv7)
  {
  }

  lemma RankMaskAsBv(k: nat)
    requires k < 8
    ensures RankMask(k) == RankMaskAt(k as bv7)
  {
  }

  lemma FileMaskAsBv(k: nat)
    requires k < 8
    ensures FileMask(k) == FileMaskAt(k as bv7)
  {
  }

  /** Converting a position below 64 to bv7 and back changes nothing. */
  lemma PositionRoundTrip(i: nat)
    requires i < 64
    ensures (i as bv7) as int == i
  {
  }

  lemma BvPositionRoundTrip(b: bv7)
    requires b < 64
    ensures (b as int) as bv7 == b
  {
  }

  lemma RankOfPosition(i: nat)
    requires i < 64
    ensures ((i as bv7) / 8) as int == i / 8
  {
  }

  lemma FileOfPosition(i: nat)
    requires i < 64
    ensures ((i as bv7) % 8) as int == i % 8
  {
  }

  // ---- Facts about bv7 positions ----

  lemma BitAtInjective(a: bv7, b: bv7)
    requires a < 64 && b < 64 && BitAt(a) == BitAt(b)
    ensures a == b
  {
  }

  lemma BitAtRank(b: bv7, k: bv7)
    requires b < 64 && k < 8
    ensures Overlaps(BitAt(b), RankMaskAt(k)) <==> k == b / 8
  {
  }

  lemma BitAtFile(b: bv7, k: bv7)
    requires b < 64 && k < 8
    ensures Overlaps(BitAt(b), FileMaskAt(k)) <==> k == b % 8
  {
  }

  lemma BitAtPowerOfTwo(b: bv7)
    requires b < 64
    ensures PowerOfTwo(BitAt(b))
  {
  }

  lemma PowerOfTwoAt(m: Mask, b: bv7)
    requires PowerOfTwo(m) && b < 64 && Overlaps(m, BitAt(b))
    ensures m == BitAt(b)
  {
  }

  lemma TwoBitsNotOneBitAt(a: bv7, b: bv7, c: bv7)
    requires a < 64 && b < 64 && c < 64 && a != b
    ensures BitAt(a) | BitAt(b) != BitAt(c)
  {
  }

  /** No bit of `m` below position b is set. */
  predicate LowBitsClear(m: Mask, b: bv7)
    requires b < 64
  {
    m & (BitAt(b) - 1) == 0
  }

  lemma LowMaskStep(b: bv7)
    requires b < 63
    ensures BitAt(b + 1) - 1 == (BitAt(b) - 1) | BitAt(b)
  {
  }

  lemma NextLowBitsClear(m: Mask, b: bv7)
    requires b < 63 && LowBitsClear(m, b) && !Overlaps(m, BitAt(b))
    ensures LowBitsClear(m, b + 1)
  {
    LowMaskStep(b);
    var low, one := BitAt(b) - 1, BitAt(b);
    assert m & (low | one) == (m & low) | (m & one);
  }

  lemma NothingBelowBitZero(m: Mask)
    ensures LowBitsClear(m, 0)
  {
  }

  lemma NoBitsLeft(m: Mask)
    requires LowBitsClear(m, 63) && !Overlaps(m, BitAt(63))
    ensures m == 0
  {
  }

  /** The first position at or above b whose bit is set in `m` (63 if none below it is). */
  function ScanBit(m: Mask, b: bv7): (c: bv7)
    requires b < 64
    ensures b <= c < 64
    decreases 64 - b
  {
    if b == 63 || Overlaps(m, BitAt(b)) then b else ScanBit(m, b + 1)
  }

  /** A power of two whose bits below b are clear is the bit the scan from b finds. */
  lemma {:induction false} ScanFindsPowerOfTwo(m: Mask, b: bv7)
    requires PowerOfTwo(m)
    requires b < 64 && LowBitsClear(m, b)
    ensures m == BitAt(ScanBit(m, b))
    decreases 64 - b
  {
    if Overlaps(m, BitAt(b)) {
      PowerOfTwoAt(m, b);
    } else if b == 63 {
      NoBitsLeft(m);
    } else {
      NextLowBitsClear(m, b);
      ScanFindsPowerOfTwo(m, b + 1);
    }
  }

  // ---- The facts at natural-number positions ----

  /** Distinct positions give distinct single-square masks. */
  lemma BitInjective(i: nat, j: nat)
    requires i < 64 && j < 64 && Bit(i) == Bit(j)
    ensures i == j
  {
    BitAsBv(i);
    BitAsBv(j);
    BitAtInjective(i as bv7, j as bv7);
    PositionRoundTrip(i);
    PositionRoundTrip(j);
  }

  /** Square i lies on rank k exactly when k = i / 8. */
  lemma RankOverlap(i: nat, k: nat)
    requires i < 64 && k < 8
    ensures Overlaps(Bit(i), RankMask(k)) <==> k == i / 8
  {
    BitAsBv(i);
    RankMaskAsBv(k);
    BitAtRank(i as bv7, k as bv7);
    PositionRoundTrip(k);
    RankOfPosition(i);
  }

  /** Square i lies on file k exactly when k = i % 8. */
  lemma FileOverlap(i: nat, k: nat)
    requires i < 64 && k < 8
    ensures Overlaps(Bit(i), FileMask(k)) <==> k == i % 8
  {
    BitAsBv(i);
    FileMaskAsBv(k);
    BitAtFile(i as bv7, k as bv7);
    PositionRoundTrip(k);
    FileOfPosition(i);
  }

  /** A mask is a single-square mask exactly when it is a non-zero power of two. */
  lemma SingleBitIffPowerOfTwo(m: Mask)
    ensures (exists i :: 0 <= i < 64 && m == Bit(i)) <==> PowerOfTwo(m)
  {
    if i :| 0 <= i < 64 && m == Bit(i) {
      BitAsBv(i);
      BitAtPowerOfTwo(i as bv7);
    }
    if PowerOfTwo(m) {
      PowerOfTwoIsBit(m);
    }
  }

  lemma PowerOfTwoIsBit(m: Mask)
    requires PowerOfTwo(m)
    ensures exists i :: 0 <= i < 64 && m == Bit(i)
  {
    NothingBelowBitZero(m);
    ScanFindsPowerOfTwo(m, 0);
    var c := ScanBit(m, 0);
    BvPositionRoundTrip(c);
    BitAsBv(c as int);
  }

  /** A mask holding two different squares is no single square. */
  lemma TwoBitsNotOneBit(i: nat, j: nat, k: nat)
    requires i < 64 && j < 64 && k < 64 && i != j
    ensures Bit(i) | Bit(j) != Bit(k)
  {
    BitAsBv(i);
    BitAsBv(j);
    BitAsBv(k);
    PositionRoundTrip(i);
    PositionRoundTrip(j);
    TwoBitsNotOneBitAt(i as bv7, j as bv7, k as bv7);
  }

  /** The 8 rank masks together cover every bit: only EMPTY misses them all. */
  lemma RanksCoverBoard(m: Mask)
    requires forall k :: 0 <= k < 8 ==> !Overlaps(m, RankMask(k))
    ensures m == EMPTY
  {
    forall b: bv7 | b < 8
      ensures !Overlaps(m, RankMaskAt(b))
    {
      BvPositionRoundTrip(b);
      RankMaskAsBv(b as int);
    }
    RanksAtCoverBoard(m);
  }

  /** The 8 file masks together cover every bit: only EMPTY misses them all. */
  lemma FilesCoverBoard(m: Mask)
    requires forall k :: 0 <= k < 8 ==> !Overlaps(m, FileMask(k))
    ensures m == EMPTY
  {
    forall b: bv7 | b < 8
      ensures !Overlaps(m, FileMaskAt(b))
    {
      BvPositionRoundTrip(b);
      FileMaskAsBv(b as int);
    }
    FilesAtCoverBoard(m);
  }

  lemma RanksAtCoverBoard(m: Mask)
    requires forall b: bv7 :: b < 8 ==> !Overlaps(m, RankMaskAt(b))
    ensures m == EMPTY
  {
    assert !Overlaps(m, RankMaskAt(0)) && !Overlaps(m, RankMaskAt(1));
    assert !Overlaps(m, RankMaskAt(2)) && !Overlaps(m, RankMaskAt(3));
    assert !Overlaps(m, RankMaskAt(4)) && !Overlaps(m, RankMaskAt(5));
    assert !Overlaps(m, RankMaskAt(6)) && !Overlaps(m, RankMaskAt(7));
  }

  lemma FilesAtCoverBoard(m: Mask)
    requires forall b: bv7 :: b < 8 ==> !Overlaps(m, FileMaskAt(b))
    ensures m == EMPTY
  {
    assert !Overlaps(m, FileMaskAt(0)) && !Overlaps(m, FileMaskAt(1));
    assert !Overlaps(m, FileMaskAt(2)) && !Overlaps(m, FileMaskAt(3));
    assert !Overlaps(m, FileMaskAt(4)) && !Overlaps(m, FileMaskAt(5));
    assert !Overlaps(m, FileMaskAt(6)) && !Overlaps(m, FileMaskAt(7));
  }
}
