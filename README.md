# chess.py squares and pieces in Dafny

This project models the board vocabulary of the `chess.py` module. That vocabulary has three parts:

- **Tables.** The 64-bit masks of the 64 squares, the 8 ranks and the 8 files, with parallel tables of their SAN symbols ("a1" .. "h8", "1" .. "8", "a" .. "h"). There are also the piece-type codes PAWN .. KING (1 .. 6), their letters "pnbrqk", and the colour codes WHITE = 1 and BLACK = 2.
- **Square.** A value wrapping one mask, with four operations:
  - `is_legal`: the mask is one of the 64 single-square masks.
  - `to_rank`, `to_file`: the first rank or file mask that overlaps the square, or EMPTY.
  - `to_san`: the square's name, or "" for an illegal square.
  - `from_san`: parses a name. Anything but the 64 names raises `SanError`.
- **Piece.** A (type code, colour code) pair, with two operations:
  - `to_symbol`: the type's letter, upper-case for White, or "" when a code is unknown.
  - `from_symbol`: parses a symbol. It raises `FenError` unless the symbol's lower-case form is a piece letter, and the colour is White when the symbol is upper-case.

The model is pure: every Python object here is an immutable value, so `Square` and `Piece` are datatypes and the operations are functions. A raised error becomes the `Err` case of a `Result`, and it carries the same message text the source builds.

Files:
- `masks.dfy` (module `Masks`): 64-bit masks and the bit-level facts about single-square, rank and file masks.
- `board.dfy` (module `Board`): the tables, the error and result types, and the models of `list.index` and `next(...)`.
- `squares.dfy` (module `Squares`): `Square` and its properties.
- `pieces.dfy` (module `Pieces`): ASCII case conversion, `Piece` and its properties.

## Model

| member | source | states |
|---|---|---|
| Board.IndexOf | chess.py:129 | `list.index`: the result holds `x`, and no earlier entry does |
| Board.IndexOfUnique | chess.py:148 | in a table without repeats, `index` finds the one position holding the value |
| Board.FirstOverlap | chess.py:107 | `next(m for m in masks if mask & m)`: the first overlapping position, with no overlap before it, or the table length when nothing overlaps |
| Board.ConcatAt | chess.py:42 | flattening rows of 8 puts entry i at row i / 8, column i % 8 |
| Board.SquareSanAt | chess.py:42 | SAN entry i is file symbol i % 8 followed by rank symbol i / 8, i.e. the letter 'a' + i % 8 then the digit '1' + i / 8 |
| Board.SquareSanDistinct | chess.py:42 | the 64 SAN strings are pairwise distinct |
| Board.SquaresDistinct | chess.py:32-39 | the 64 square masks `1 << i` are pairwise distinct |
| Board.FileSanAt | chess.py:29 | file symbol f is the letter f places after 'a' |
| Board.RankSanAt | chess.py:16 | rank symbol r is the digit r places after '1' |
| Masks.RankOverlap | chess.py:6-13 | `1 << i` overlaps the rank mask `0xff << 8k` exactly when k = i / 8 |
| Masks.FileOverlap | chess.py:19-26 | `1 << i` overlaps the file mask `0x0101010101010101 << k` exactly when k = i % 8 |
| Masks.BitInjective | chess.py:39 | distinct positions give distinct masks `1 << i` |
| Masks.SingleBitIffPowerOfTwo | chess.py:39 | a mask is some `1 << i` (i < 64) exactly when it is a non-zero power of two |
| Masks.TwoBitsNotOneBit | chess.py:39 | a mask holding two squares is no single-square mask |
| Masks.RanksCoverBoard | chess.py:6-13 | a mask that meets no rank is EMPTY |
| Masks.FilesCoverBoard | chess.py:19-26 | a mask that meets no file is EMPTY |
| Masks.ScanFindsPowerOfTwo | chess.py:39 | a power of two whose lower bits are clear is the bit that the upward scan finds |
| Squares.Square.ToRank | chess.py:100-107 | the result is EMPTY or one of the rank masks |
| Squares.Square.ToFile | chess.py:109-116 | the result is EMPTY or one of the file masks |
| Squares.Square.ToSan | chess.py:118-131 | "" exactly for an illegal square; otherwise a two-character name a-h then 1-8 |
| Squares.Square.FromSan | chess.py:133-150 | success gives a legal square; failure is `SanError("Invalid square '<san>'")` |
| Squares.Square.IsLegal | chess.py:91-98 | membership in SQUARES; legal exactly when the mask is `1 << i` for some i < 64 (see also IsLegalIffPowerOfTwo) |
| Squares.IsLegalIffPowerOfTwo | chess.py:91-98 | legal exactly when exactly one bit is set |
| Squares.EmptyAndTwoBitMasksIllegal | chess.py:91-98 | EMPTY and every two-square mask are illegal |
| Squares.SquareSanNamesIndex | chess.py:42 | SAN entry i is well-formed and names position i |
| Squares.SanTextInTable | chess.py:42 | every well-formed name is the SAN entry at the position it names |
| Squares.ToSanOfBit | chess.py:118-131 | `to_san` of `1 << i` is `FILE_SAN[i % 8] + RANK_SAN[i / 8]` |
| Squares.FromSanAt | chess.py:133-150 | parsing SAN entry i gives the square `1 << i` |
| Squares.FromSanSpec | chess.py:133-150 | parsing succeeds exactly on lower-case file letter + rank digit, giving `1 << (8 * rank + file)` |
| Squares.SanRoundTrip | chess.py:118-150 | every legal square survives `to_san` then `from_san` |
| Squares.FromSanRoundTrip | chess.py:118-150 | every name that parses prints back unchanged |
| Squares.RankAndFileOfBit | chess.py:100-116 | rank and file of `1 << i` are `RANKS[i / 8]` and `FILES[i % 8]` |
| Squares.RankEmptyIffEmpty | chess.py:100-107 | `to_rank` is EMPTY exactly when the mask is EMPTY |
| Squares.FileEmptyIffEmpty | chess.py:109-116 | `to_file` is EMPTY exactly when the mask is EMPTY |
| Squares.RanksDistinct | chess.py:13 | the 8 rank masks are pairwise distinct |
| Squares.FilesDistinct | chess.py:26 | the 8 file masks are pairwise distinct |
| Squares.RankIndexAt | chess.py:13 | rank k is found at position k of the rank table |
| Squares.FileIndexAt | chess.py:26 | file k is found at position k of the file table |
| Squares.SanAgreesWithRankAndFile | chess.py:100-131 | a legal square's name is its file's symbol followed by its rank's symbol |
| Squares.E4Mask | chess.py:35-39 | the table entry E4, `SQUARES[28]`, is `1 << 28`, the mask 0x1000_0000 |
| Squares.SquareSanE4 | chess.py:42 | SAN entry 28 is "e4" |
| Squares.E4FromSan | chess.py:133-150 | "e4" parses to `1 << 28` |
| Squares.E4ToSan | chess.py:118-131 | `1 << 28` prints as "e4" |
| Squares.MalformedSanRejected | chess.py:144-145 | "", "a", "a1e", "i1" and "a9" are errors |
| Squares.UpperCaseSanRejected | chess.py:144-145 | "E4" is an error: parsing is case-sensitive |
| Squares.IllegalSquaresAreLenient | chess.py:100-131 | the default square gives "", no rank and no file; a two-square mask gives "" |
| Pieces.LowerChar | chess.py:207 | ASCII `lower`: an upper-case letter moves 32 code points up to its lower-case form; any other character is kept |
| Pieces.UpperChar | chess.py:192 | ASCII `upper`: a lower-case letter moves to its upper-case form; any other character is kept |
| Pieces.Lower | chess.py:207 | `str.lower` keeps the length and lowers each character |
| Pieces.Upper | chess.py:192 | `str.upper` keeps the length and raises each character |
| Pieces.IsUpper | chess.py:215 | `str.isupper`: some character is an upper-case letter and none is lower-case; equivalently, upper-casing leaves the text unchanged and lower-casing changes it |
| Pieces.UpperFixed | chess.py:192 | `upper` leaves a text unchanged exactly when it holds no lower-case letter |
| Pieces.LowerFixed | chess.py:207 | `lower` leaves a text unchanged exactly when it holds no upper-case letter |
| Pieces.CharCaseRoundTrip | chess.py:192 | lowering then raising an upper-case letter gives it back |
| Pieces.Piece.ToSymbol | chess.py:176-194 | "" exactly when a code is outside its table; otherwise one character, upper-case exactly for White |
| Pieces.Piece.FromSymbol | chess.py:196-217 | success gives codes from the tables; failure is `FenError("Invalid symbol '<symbol>'")` |
| Pieces.TablesAgree | chess.py:45-52 | the piece codes are 1 .. 6, and each symbol is the matching distinct lower-case letter of "pnbrqk" |
| Pieces.ToSymbolSpec | chess.py:176-194 | "" exactly for unknown codes; otherwise letter `"pnbrqk"[p - 1]`, upper-cased for White |
| Pieces.FromSymbolSpec | chess.py:196-217 | succeeds exactly on one character whose lower-case form is a piece letter; the type is that letter's code; White exactly for an upper-case letter |
| Pieces.OneCharUpper | chess.py:215 | `isupper` of one character holds exactly for an upper-case letter |
| Pieces.PieceRoundTrip | chess.py:176-217 | every piece with known codes survives `to_symbol` then `from_symbol` |
| Pieces.SymbolRoundTrip | chess.py:176-217 | every symbol that parses prints back unchanged |
| Pieces.ToSymbolExamples | chess.py:176-194 | (QUEEN, WHITE) gives "Q"; (PAWN, BLACK) gives "p"; unknown codes give "" |
| Pieces.FromSymbolKingExamples | chess.py:196-217 | "K" gives (KING, WHITE) and "k" gives (KING, BLACK) |
| Pieces.FromSymbolRejects | chess.py:207-210 | "x", "" and "Kk" are errors |

## Left out

- `Square.__repr__` and `Piece.__repr__` (chess.py:82-89, 167-174) are left out. They only format text for debugging.
- `BOARD_MASK` is left out, because nothing in the core reads it.
- The exception classes `SanError` and `FenError` are two constructors of one `Error` datatype. Their `ValueError` ancestry is not modelled.
- Masks are 64-bit (`bv64`). A Python mask can be any integer, including a negative one or one wider than 64 bits. Such masks are not modelled; none of them is legal, and none of them is ever built by the module.
- Pieces.Lower, Pieces.Upper and Pieces.IsUpper: cover ASCII only. Python's Unicode case rules are not modelled. For example, the Kelvin sign U+212A lowers to "k", so `from_symbol` accepts it as a king; the model rejects it.
- Piece and colour codes are `int`. A code of another Python type is not modelled. Such a code is tested by equality against the integer tables, so it gives "" unless it compares equal to one of the integer codes: 1.0 and True act as 1, 0.0 and False as 0.
- Squares.Square.ToRank and Squares.Square.ToFile: for a mask holding several squares, the model keeps the source's behaviour, returning the first overlapping rank or file. No lemma characterises the result beyond "EMPTY or a table entry".
- `from_san` is case-sensitive in the code: "E4" is not in `SQUARE_SAN`. A case-insensitive reading of square names would accept it. The model follows the code (see `Squares.UpperCaseSanRejected`).
