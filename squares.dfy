/**
 * A square of the board as a value wrapping one 64-bit mask, with its
 * legality test, its rank and file, and its SAN text in both directions.
 * Reading a property of a square is lenient (an illegal square gives "" or
 * the empty mask); parsing SAN is strict (anything else is a SanError).
 */
module Squares {
  import opened Masks
  import opened Board

  /** A two-character square name: a file letter a-h, then a rank digit 1-8. */
  predicate IsSanText(s: string)
  {
    |s| == 2 && 'a' <= s[0] <= 'h' && '1' <= s[1] <= '8'
  }

  /** The bit position that a well-formed SAN text names: 8 * rank + file. */
  function SanIndex(s: string): (i: nat)
    requires IsSanText(s)
    ensures i < 64
  {
    8 * ((s[1] as int) - ('1' as int)) + ((s[0] as int) - ('a' as int))
  }

  datatype Square = Square(mask: Mask := EMPTY)
  {
    /** The mask is one of the 64 single-square masks: `1 << i` for some i < 64. */
    predicate IsLegal()
      ensures IsLegal() <==> exists i :: 0 <= i < 64 && mask == Bit(i)
    {
      if mask in SQUARES then
        assert mask == Bit(IndexOf(SQUARES, mask));
        true
      else
        assert forall i :: 0 <= i < 64 ==> SQUARES[i] == Bit(i);
        false
    }

    /** The first rank mask overlapping this square, or EMPTY. */
    function ToRank(): (r: Mask)
      ensures r == EMPTY || r in RANKS
    {
      if FirstOverlap(RANKS, mask) < |RANKS| then RANKS[FirstOverlap(RANKS, mask)] else EMPTY
    }

    /** The first file mask overlapping this square, or EMPTY. */
    function ToFile(): (r: Mask)
      ensures r == EMPTY || r in FILES
    {
      if FirstOverlap(FILES, mask) < |FILES| then FILES[FirstOverlap(FILES, mask)] else EMPTY
    }

    /** The SAN of a legal square; "" for an illegal one. */
    function ToSan(): (s: string)
      ensures s == "" <==> !IsLegal()
      ensures IsLegal() ==> IsSanText(s)
    {
      if !IsLegal() then ""
      else
        SquareSanAt(IndexOf(SQUARES, mask));
        SQUARE_SAN[IndexOf(SQUARES, mask)]
    }

    /** The square a SAN text names, or SanError unless it is one of the 64 names. */
    static function FromSan(san: string): (r: Result<Square>)
      ensures r.Ok? ==> r.value.IsLegal()
      ensures r.Err? ==> r.error == SanError("Invalid square '" + san + "'")
    {
      if san !in SQUARE_SAN then Err(SanError("Invalid square '" + san + "'"))
      else
        SquareSanLength();
        Ok(Square(SQUARES[IndexOf(SQUARE_SAN, san)]))
    }
  }

  // ---- Legality ----

  /** Legality is being a non-zero power of two: exactly one bit set. */
  lemma IsLegalIffPowerOfTwo(m: Mask)
    ensures Square(m).IsLegal() <==> PowerOfTwo(m)
  {
    SingleBitIffPowerOfTwo(m);
  }

  /** The empty mask and every mask holding two squares are illegal. */
  lemma EmptyAndTwoBitMasksIllegal(i: nat, j: nat)
    requires i < 64 && j < 64 && i != j
    ensures !Square(EMPTY).IsLegal()
    ensures !Square(Bit(i) | Bit(j)).IsLegal()
  {
    IsLegalIffPowerOfTwo(EMPTY);
    if k :| 0 <= k < 64 && Bit(i) | Bit(j) == Bit(k) {
      TwoBitsNotOneBit(i, j, k);
    }
  }

  // ---- SAN ----

  /** Entry i of the SAN table is a well-formed name, and it names bit i. */
  lemma SquareSanNamesIndex(i: nat)
    requires i < 64
    ensures |SQUARE_SAN| == 64
    ensures IsSanText(SQUARE_SAN[i]) && SanIndex(SQUARE_SAN[i]) == i
  {
    SquareSanAt(i);
  }

  /** Every well-formed name is the SAN table's entry at the position it names. */
  lemma SanTextInTable(san: string)
    requires IsSanText(san)
    ensures |SQUARE_SAN| == 64
    ensures SQUARE_SAN[SanIndex(san)] == san
  {
    var i := SanIndex(san);
    SquareSanAt(i);
    assert i % 8 == (san[0] as int) - ('a' as int);
    assert i / 8 == (san[1] as int) - ('1' as int);
    assert SQUARE_SAN[i] == [san[0], san[1]];
    assert san == [san[0], san[1]];
  }

  /** The SAN of `1 << i` is file i % 8 followed by rank i / 8. */
  lemma ToSanOfBit(i: nat)
    requires i < 64
    ensures |SQUARE_SAN| == 64
    ensures Square(Bit(i)).ToSan() == SQUARE_SAN[i]
    ensures Square(Bit(i)).ToSan() == FILE_SAN[i % 8] + RANK_SAN[i / 8]
    ensures Square(Bit(i)).ToSan() == [(('a' as int) + i % 8) as char, (('1' as int) + i / 8) as char]
  {
    assert SQUARES[i] == Bit(i);
    SquaresDistinct();
    IndexOfUnique(SQUARES, i);
    SquareSanAt(i);
  }

  /** Parsing the SAN table's entry i gives the square `1 << i`. */
  lemma FromSanAt(i: nat)
    requires i < 64
    ensures |SQUARE_SAN| == 64
    ensures Square.FromSan(SQUARE_SAN[i]) == Ok(Square(Bit(i)))
  {
    SquareSanDistinct();
    IndexOfUnique(SQUARE_SAN, i);
    assert SQUARES[i] == Bit(i);
  }

  /**
   * Parsing succeeds exactly on the 64 names "a1" .. "h8" (lower-case file,
   * then digit), and the square it gives is `1 << (8 * rank + file)`.
   */
  lemma FromSanSpec(san: string)
    ensures Square.FromSan(san).Ok? <==> IsSanText(san)
    ensures IsSanText(san) ==> Square.FromSan(san) == Ok(Square(Bit(SanIndex(san))))
  {
    SquareSanLength();
    if san in SQUARE_SAN {
      SquareSanNamesIndex(IndexOf(SQUARE_SAN, san));
    }
    if IsSanText(san) {
      SanTextInTable(san);
      FromSanAt(SanIndex(san));
    }
  }

  /** Every legal square survives printing and re-parsing. */
  lemma {:induction false} SanRoundTrip(m: Mask)
    requires Square(m).IsLegal()
    ensures Square.FromSan(Square(m).ToSan()) == Ok(Square(m))
  {
    var i := IndexOf(SQUARES, m);
    assert m == Bit(i);
    ToSanOfBit(i);
    FromSanAt(i);
  }

  /** Every text that parses is printed back unchanged. */
  lemma {:induction false} FromSanRoundTrip(san: string)
    requires Square.FromSan(san).Ok?
    ensures Square.FromSan(san).value.ToSan() == san
  {
    FromSanSpec(san);
    ToSanOfBit(SanIndex(san));
    SanTextInTable(san);
  }

  // ---- Rank and file ----

  /** Rank and file of `1 << i` are rank i / 8 and file i % 8. */
  lemma RankAndFileOfBit(i: nat)
    requires i < 64
    ensures Square(Bit(i)).ToRank() == RANKS[i / 8]
    ensures Square(Bit(i)).ToFile() == FILES[i % 8]
  {
    var kr := FirstOverlap(RANKS, Bit(i));
    var kf := FirstOverlap(FILES, Bit(i));
    RankOverlap(i, i / 8);
    FileOverlap(i, i % 8);
    assert RANKS[i / 8] == RankMask(i / 8) && FILES[i % 8] == FileMask(i % 8);
    if kr < i / 8 {
      assert RANKS[kr] == RankMask(kr);
      RankOverlap(i, kr);
    }
    if kf < i % 8 {
      assert FILES[kf] == FileMask(kf);
      FileOverlap(i, kf);
    }
  }

  /**
   * The ranks cover the whole board, so a square has no rank exactly when
   * its mask is empty. A mask holding several squares gets the first rank
   * the scan meets.
   */
  lemma RankEmptyIffEmpty(m: Mask)
    ensures Square(m).ToRank() == EMPTY <==> m == EMPTY
  {
    var k := FirstOverlap(RANKS, m);
    if k == |RANKS| {
      forall j | 0 <= j < 8 ensures !Overlaps(m, RankMask(j)) {
        assert RANKS[j] == RankMask(j);
      }
      RanksCoverBoard(m);
    } else {
      RankOverlap(8 * k, k);
      assert RANKS[k] == RankMask(k);
    }
  }

  /** The files cover the whole board: a square has no file exactly when its mask is empty. */
  lemma FileEmptyIffEmpty(m: Mask)
    ensures Square(m).ToFile() == EMPTY <==> m == EMPTY
  {
    var k := FirstOverlap(FILES, m);
    if k == |FILES| {
      forall j | 0 <= j < 8 ensures !Overlaps(m, FileMask(j)) {
        assert FILES[j] == FileMask(j);
      }
      FilesCoverBoard(m);
    } else {
      FileOverlap(k, k);
      assert FILES[k] == FileMask(k);
    }
  }

  lemma RanksDistinct()
    ensures forall j, k :: 0 <= j < k < 8 ==> RANKS[j] != RANKS[k]
  {
    forall j, k | 0 <= j < k < 8
      ensures RANKS[j] != RANKS[k]
    {
      assert RANKS[j] == RankMask(j) && RANKS[k] == RankMask(k);
      RankOverlap(8 * j, j);
      RankOverlap(8 * j, k);
    }
  }

  lemma FilesDistinct()
    ensures forall j, k :: 0 <= j < k < 8 ==> FILES[j] != FILES[k]
  {
    forall j, k | 0 <= j < k < 8
      ensures FILES[j] != FILES[k]
    {
      assert FILES[j] == FileMask(j) && FILES[k] == FileMask(k);
      FileOverlap(j, j);
      FileOverlap(j, k);
    }
  }

  lemma RankIndexAt(k: nat)
    requires k < 8
    ensures IndexOf(RANKS, RANKS[k]) == k
  {
    RanksDistinct();
    IndexOfUnique(RANKS, k);
  }

  lemma FileIndexAt(k: nat)
    requires k < 8
    ensures IndexOf(FILES, FILES[k]) == k
  {
    FilesDistinct();
    IndexOfUnique(FILES, k);
  }

  /**
   * The SAN table and the rank and file scans agree: the name of a legal
   * square is the symbol of its file followed by the symbol of its rank.
   */
  lemma SanAgreesWithRankAndFile(m: Mask)
    requires Square(m).IsLegal()
    ensures Square(m).ToFile() in FILES && Square(m).ToRank() in RANKS
    ensures Square(m).ToSan()
         == FILE_SAN[IndexOf(FILES, Square(m).ToFile())] + RANK_SAN[IndexOf(RANKS, Square(m).ToRank())]
  {
    var i := IndexOf(SQUARES, m);
    assert m == Bit(i);
    RankAndFileOfBit(i);
    RankIndexAt(i / 8);
    FileIndexAt(i % 8);
    ToSanOfBit(i);
  }

  // ---- Examples ----

  lemma BitAt28()
    ensures BitAt(28) == 0x1000_0000
  {
  }

  /** Entry E4 of the square table, `SQUARES[28]`, is the mask 0x1000_0000. */
  lemma E4Mask()
    ensures SQUARES[28] == Bit(28) == 0x1000_0000
  {
    BitAsBv(28);
    BitAt28();
  }

  lemma SquareSanE4()
    ensures |SQUARE_SAN| == 64 && SQUARE_SAN[28] == "e4"
  {
    SquareSanAt(28);
    assert FILE_SAN[4] + RANK_SAN[3] == "e4";
  }

  /** "e4" parses to the square `1 << 28`. */
  lemma E4FromSan()
    ensures Square.FromSan("e4") == Ok(Square(Bit(28)))
  {
    SquareSanE4();
    FromSanAt(28);
  }

  /** The square `1 << 28` prints as "e4". */
  lemma E4ToSan()
    ensures Square(Bit(28)).ToSan() == "e4"
  {
    E4FromSan();
    FromSanRoundTrip("e4");
  }

  /** Short, long and off-board names are rejected. */
  lemma MalformedSanRejected()
    ensures Square.FromSan("").Err?
    ensures Square.FromSan("a").Err?
    ensures Square.FromSan("a1e").Err?
    ensures Square.FromSan("i1").Err?
    ensures Square.FromSan("a9").Err?
  {
    FromSanSpec("");
    FromSanSpec("a");
    FromSanSpec("a1e");
    FromSanSpec("i1");
    FromSanSpec("a9");
  }

  /** Parsing is case-sensitive: an upper-case file letter is an error. */
  lemma UpperCaseSanRejected()
    ensures Square.FromSan("E4").Err?
  {
    FromSanSpec("E4");
  }

  /** Reading an illegal square never fails: it gives "" and, when empty, no rank or file. */
  lemma IllegalSquaresAreLenient(i: nat, j: nat)
    requires i < 64 && j < 64 && i != j
    ensures Square().ToSan() == "" && Square().ToRank() == EMPTY && Square().ToFile() == EMPTY
    ensures Square(Bit(i) | Bit(j)).ToSan() == ""
  {
    EmptyAndTwoBitMasksIllegal(i, j);
    RankEmptyIffEmpty(EMPTY);
    FileEmptyIffEmpty(EMPTY);
  }
}
