/**
 * A piece as a value holding a piece-type code and a colour code, with its
 * FEN symbol in both directions. Printing is lenient (codes outside the
 * tables give ""); parsing is strict (anything else is a FenError).
 *
 * Case conversion follows Python's `str.lower`, `str.upper` and
 * `str.isupper` restricted to ASCII: the letters A-Z and a-z are the only
 * cased characters.
 */
module Pieces {
  import opened Board

  // ---- ASCII case ----

  predicate IsUpperChar(c: char)
  {
    'A' <= c <= 'Z'
  }

  predicate IsLowerChar(c: char)
  {
    'a' <= c <= 'z'
  }

  /** The lower-case form of an upper-case letter; every other character is kept. */
  function LowerChar(c: char): (d: char)
    ensures IsUpperChar(c) ==> IsLowerChar(d) && (d as int) - (c as int) == 32
    ensures !IsUpperChar(c) ==> d == c
  {
    if IsUpperChar(c) then ((c as int) + 32) as char else c
  }

  /** The upper-case form of a lower-case letter; every other character is kept. */
  function UpperChar(c: char): (d: char)
    ensures IsLowerChar(c) ==> IsUpperChar(d) && (c as int) - (d as int) == 32
    ensures !IsLowerChar(c) ==> d == c
  {
    if IsLowerChar(c) then ((c as int) - 32) as char else c
  }

  /** Python's `s.lower()`: every character mapped through LowerChar. */
  function Lower(s: string): (t: string)
    ensures |t| == |s|
    ensures forall i :: 0 <= i < |s| ==> t[i] == LowerChar(s[i])
  {
    if s == [] then [] else [LowerChar(s[0])] + Lower(s[1..])
  }

  /** Python's `s.upper()`: every character mapped through UpperChar. */
  function Upper(s: string): (t: string)
    ensures |t| == |s|
    ensures forall i :: 0 <= i < |s| ==> t[i] == UpperChar(s[i])
  {
    if s == [] then [] else [UpperChar(s[0])] + Upper(s[1..])
  }

  /**
   * Python's `s.isupper()`: some character is cased and no cased character
   * is lower-case. Equivalently, upper-casing leaves `s` unchanged while
   * lower-casing changes it.
   */
  predicate IsUpper(s: string)
    ensures IsUpper(s) <==> Upper(s) == s && Lower(s) != s
  {
    UpperFixed(s);
    LowerFixed(s);
    (exists i :: 0 <= i < |s| && IsUpperChar(s[i])) && forall i :: 0 <= i < |s| ==> !IsLowerChar(s[i])
  }

  /** Upper-casing leaves a string unchanged exactly when it holds no lower-case letter. */
  lemma UpperFixed(s: string)
    ensures Upper(s) == s <==> forall i :: 0 <= i < |s| ==> !IsLowerChar(s[i])
  {
    if Upper(s) == s {
      forall i | 0 <= i < |s| ensures !IsLowerChar(s[i]) {
        assert UpperChar(s[i]) == s[i];
      }
    }
  }

  /** Lower-casing leaves a string unchanged exactly when it holds no upper-case letter. */
  lemma LowerFixed(s: string)
    ensures Lower(s) == s <==> forall i :: 0 <= i < |s| ==> !IsUpperChar(s[i])
  {
    if Lower(s) == s {
      forall i | 0 <= i < |s| ensures !IsUpperChar(s[i]) {
        assert LowerChar(s[i]) == s[i];
      }
    }
  }

  // ---- Pieces ----

  datatype Piece = Piece(piece: int, color: int)
  {
    /** The piece's letter, upper-case for White; "" when either code is not in its table. */
    function ToSymbol(): (s: string)
      ensures s == "" <==> piece !in PIECES || color !in COLORS
      ensures s != "" ==> |s| == 1 && (IsUpperChar(s[0]) <==> color == WHITE)
    {
      if piece !in PIECES || color !in COLORS then ""
      else if color == WHITE then Upper(PIECE_SYMBOLS[IndexOf(PIECES, piece)])
      else PIECE_SYMBOLS[IndexOf(PIECES, piece)]
    }

    /**
     * The piece a symbol stands for: its lower-case form picks the piece
     * type, and the colour is White exactly when the symbol is upper-case.
     * Any symbol whose lower-case form is not a piece letter is a FenError.
     */
    static function FromSymbol(symbol: string): (r: Result<Piece>)
      ensures r.Ok? ==> r.value.piece in PIECES && r.value.color in COLORS
      ensures r.Err? ==> r.error == FenError("Invalid symbol '" + symbol + "'")
    {
      if Lower(symbol) !in PIECE_SYMBOLS then Err(FenError("Invalid symbol '" + symbol + "'"))
      else Ok(Piece(PIECES[IndexOf(PIECE_SYMBOLS, Lower(symbol))], if IsUpper(symbol) then WHITE else BLACK))
    }
  }

  /** The six piece letters, in the order of the piece codes PAWN .. KING. */
  const LETTERS: string := "pnbrqk"

  /** The one-character symbol tables agree with LETTERS, and the codes are 1 .. 6. */
  lemma TablesAgree()
    ensures |PIECES| == |PIECE_SYMBOLS| == |LETTERS| == 6
    ensures forall k :: 0 <= k < 6 ==> PIECES[k] == k + 1 && PIECE_SYMBOLS[k] == [LETTERS[k]]
    ensures forall k :: 0 <= k < 6 ==> IsLowerChar(LETTERS[k])
    ensures forall j, k :: 0 <= j < k < 6 ==> LETTERS[j] != LETTERS[k]
  {
  }

  /**
   * A symbol of a piece in the tables is its type's letter, upper-case
   * exactly for White; codes outside the tables give "".
   */
  lemma ToSymbolSpec(p: int, c: int)
    ensures Piece(p, c).ToSymbol() == "" <==> !(1 <= p <= 6 && (c == WHITE || c == BLACK))
    ensures 1 <= p <= 6 && c == BLACK ==> Piece(p, c).ToSymbol() == [LETTERS[p - 1]]
    ensures 1 <= p <= 6 && c == WHITE ==> Piece(p, c).ToSymbol() == [UpperChar(LETTERS[p - 1])]
  {
    TablesAgree();
    if 1 <= p <= 6 {
      IndexOfUnique(PIECES, p - 1);
    }
  }

  /**
   * A symbol parses exactly when it is one character whose lower-case form
   * is a piece letter; the type is that letter's code and the colour is
   * White exactly when the character is an upper-case letter.
   */
  lemma FromSymbolSpec(s: string)
    ensures Piece.FromSymbol(s).Ok? <==> |s| == 1 && LowerChar(s[0]) in LETTERS
    ensures Piece.FromSymbol(s).Ok? ==>
      && 1 <= Piece.FromSymbol(s).value.piece <= 6
      && LETTERS[Piece.FromSymbol(s).value.piece - 1] == LowerChar(s[0])
      && (Piece.FromSymbol(s).value.color == WHITE <==> IsUpperChar(s[0]))
  {
    TablesAgree();
    if Lower(s) in PIECE_SYMBOLS {
      var k := IndexOf(PIECE_SYMBOLS, Lower(s));
      assert Lower(s) == [LETTERS[k]];
      OneCharUpper(s);
    }
    if |s| == 1 && LowerChar(s[0]) in LETTERS {
      var k :| 0 <= k < 6 && LETTERS[k] == LowerChar(s[0]);
      assert Lower(s) == PIECE_SYMBOLS[k];
    }
  }

  /** A one-character string is upper-case exactly when its character is an upper-case letter. */
  lemma OneCharUpper(s: string)
    requires |s| == 1
    ensures IsUpper(s) <==> IsUpperChar(s[0])
  {
    if IsUpperChar(s[0]) {
      assert 0 <= 0 < |s| && IsUpperChar(s[0]);
    }
  }

  /** Every piece in the tables survives printing and re-parsing. */
  lemma PieceRoundTrip(p: int, c: int)
    requires p in PIECES && c in COLORS
    ensures Piece.FromSymbol(Piece(p, c).ToSymbol()) == Ok(Piece(p, c))
  {
    TablesAgree();
    ToSymbolSpec(p, c);
    var s := Piece(p, c).ToSymbol();
    FromSymbolSpec(s);
    var q := Piece.FromSymbol(s).value;
    assert LowerChar(s[0]) == LETTERS[p - 1];
    assert LETTERS[q.piece - 1] == LETTERS[p - 1];
  }

  /** Every symbol that parses is printed back unchanged. */
  lemma SymbolRoundTrip(s: string)
    requires Piece.FromSymbol(s).Ok?
    ensures Piece.FromSymbol(s).value.ToSymbol() == s
  {
    FromSymbolSpec(s);
    var q := Piece.FromSymbol(s).value;
    ToSymbolSpec(q.piece, q.color);
    if IsUpperChar(s[0]) {
      CharCaseRoundTrip(s[0]);
    }
    assert s == [s[0]];
  }

  /** Lowering then raising an upper-case letter gives it back. */
  lemma CharCaseRoundTrip(c: char)
    requires IsUpperChar(c)
    ensures UpperChar(LowerChar(c)) == c
  {
  }

  // ---- Examples ----

  lemma ToSymbolExamples()
    ensures Piece(QUEEN, WHITE).ToSymbol() == "Q"
    ensures Piece(PAWN, BLACK).ToSymbol() == "p"
    ensures Piece(0, WHITE).ToSymbol() == "" && Piece(KING, 0).ToSymbol() == ""
  {
    ToSymbolSpec(QUEEN, WHITE);
    ToSymbolSpec(PAWN, BLACK);
    ToSymbolSpec(0, WHITE);
    ToSymbolSpec(KING, 0);
  }

  lemma FromSymbolKingExamples()
    ensures Piece.FromSymbol("K") == Ok(Piece(KING, WHITE))
    ensures Piece.FromSymbol("k") == Ok(Piece(KING, BLACK))
  {
    TablesAgree();
    FromSymbolSpec("K");
    FromSymbolSpec("k");
  }

  lemma FromSymbolRejects()
    ensures Piece.FromSymbol("x").Err?
    ensures Piece.FromSymbol("").Err? && Piece.FromSymbol("Kk").Err?
  {
    TablesAgree();
    FromSymbolSpec("x");
    FromSymbolSpec("");
    FromSymbolSpec("Kk");
  }
}
