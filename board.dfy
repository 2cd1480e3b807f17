/**
 * The constant tables shared by squares and pieces: the masks of the 64
 * squares, the 8 ranks and the 8 files, the parallel tables of their SAN
 * symbols, the piece and colour codes, and the two parse errors.
 */
module Board {
  import opened Masks

  function RankTable(): (t: seq<Mask>)
    ensures |t| == 8
  {
    seq(8, k requires 0 <= k < 8 => RankMask(k))
  }

  function FileTable(): (t: seq<Mask>)
    ensures |t| == 8
  {
    seq(8, k requires 0 <= k < 8 => FileMask(k))
  }

  function SquareTable(): (t: seq<Mask>)
    ensures |t| == 64
  {
    seq(64, i requires 0 <= i < 64 => Bit(i))
  }

  /**
   * The SAN names row by row as the source's comprehension produces them:
   * ranks in the outer loop, files in the inner loop, file symbol + rank symbol.
   */
  function SanRows(): (rows: seq<seq<string>>)
    ensures |rows| == 8 && forall r :: 0 <= r < 8 ==> |rows[r]| == 8
  {
    seq(8, r requires 0 <= r < 8 => seq(8, f requires 0 <= f < 8 => FILE_SAN[f] + RANK_SAN[r]))
  }

  /** Rank masks, rank 1 first. */
  const RANKS: seq<Mask> := RankTable()

  const RANK_SAN: seq<string> := ["1", "2", "3", "4", "5", "6", "7", "8"]

  /** File masks, file a first. */
  const FILES: seq<Mask> := FileTable()

  const FILE_SAN: seq<string> := ["a", "b", "c", "d", "e", "f", "g", "h"]

  /** The 64 single-square masks, a1, b1, ..., h1, a2, ..., h8. */
  const SQUARES: seq<Mask> := SquareTable()

  /** The SAN of each square, in the order of SQUARES. */
  const SQUARE_SAN: seq<string> := Concat(SanRows())

  const PAWN := 1
  const KNIGHT := 2
  const BISHOP := 3
  const ROOK := 4
  const QUEEN := 5
  const KING := 6

  const PIECES: seq<int> := [PAWN, KNIGHT, BISHOP, ROOK, QUEEN, KING]

  const PIECE_SYMBOLS: seq<string> := ["p", "n", "b", "r", "q", "k"]

  const WHITE := 1
  const BLACK := 2

  const COLORS: seq<int> := [WHITE, BLACK]

  /** The two parse failures, each carrying the message the source raises. */
  datatype Error = SanError(message: string) | FenError(message: string)

  /** Outcome of a parse: the parsed value, or the error that was raised. */
  datatype Result<T> = Ok(value: T) | Err(error: Error)

  /** Python's `list.index`: the position of the first occurrence of `x`. */
  function IndexOf<T(==)>(s: seq<T>, x: T): (r: nat)
    requires x in s
    ensures r < |s| && s[r] == x
    ensures forall j :: 0 <= j < r ==> s[j] != x
  {
    if s[0] == x then 0 else 1 + IndexOf(s[1..], x)
  }

  /** In a table without repeats, `IndexOf` is the one position holding `x`. */
  lemma IndexOfUnique<T>(s: seq<T>, i: nat)
    requires i < |s|
    requires forall j, k :: 0 <= j < k < |s| ==> s[j] != s[k]
    ensures IndexOf(s, s[i]) == i
  {
  }

  /**
   * Python's `next(m for m in masks if mask & m)` as a position: the first
   * table entry that overlaps `mask`, or `|masks|` when none does.
   */
  function FirstOverlap(masks: seq<Mask>, mask: Mask): (k: nat)
    ensures k <= |masks|
    ensures forall j :: 0 <= j < k ==> !Overlaps(mask, masks[j])
    ensures k < |masks| ==> Overlaps(mask, masks[k])
  {
    if masks == [] then 0
    else if Overlaps(mask, masks[0]) then 0
    else 1 + FirstOverlap(masks[1..], mask)
  }

  /** Flattening of a list of lists, as a nested comprehension produces it. */
  function Concat<T>(ss: seq<seq<T>>): seq<T>
  {
    if ss == [] then [] else ss[0] + Concat(ss[1..])
  }

  /** Flattening rows of width 8: entry i comes from row i / 8, column i % 8. */
  lemma {:induction false} ConcatAt<T>(ss: seq<seq<T>>, i: nat)
    requires forall k :: 0 <= k < |ss| ==> |ss[k]| == 8
    requires i < 8 * |ss|
    ensures |Concat(ss)| == 8 * |ss|
    ensures Concat(ss)[i] == ss[i / 8][i % 8]
  {
    ConcatLength(ss);
    if i >= 8 {
      ConcatAt(ss[1..], i - 8);
    }
  }

  lemma {:induction false} ConcatLength<T>(ss: seq<seq<T>>)
    requires forall k :: 0 <= k < |ss| ==> |ss[k]| == 8
    ensures |Concat(ss)| == 8 * |ss|
  {
    if ss != [] {
      ConcatLength(ss[1..]);
    }
  }

  /** The square SAN table has one entry per square. */
  lemma SquareSanLength()
    ensures |SQUARE_SAN| == 64
  {
    ConcatLength(SanRows());
  }

  /** The file symbol of file f is the letter f places after 'a'. */
  lemma FileSanAt(f: nat)
    requires f < 8
    ensures FILE_SAN[f] == [(('a' as int) + f) as char]
  {
  }

  /** The rank symbol of rank r is the digit r places after '1'. */
  lemma RankSanAt(r: nat)
    requires r < 8
    ensures RANK_SAN[r] == [(('1' as int) + r) as char]
  {
  }

  /** Entry i of the square table is file i % 8 followed by rank i / 8. */
  lemma SquareSanAt(i: nat)
    requires i < 64
    ensures |SQUARE_SAN| == 64
    ensures SQUARE_SAN[i] == FILE_SAN[i % 8] + RANK_SAN[i / 8]
    ensures SQUARE_SAN[i] == [(('a' as int) + i % 8) as char, (('1' as int) + i / 8) as char]
  {
    SquareSanLength();
    ConcatAt(SanRows(), i);
    FileSanAt(i % 8);
    RankSanAt(i / 8);
  }

  /** The 64 SAN strings are pairwise distinct. */
  lemma SquareSanDistinct()
    ensures |SQUARE_SAN| == 64
    ensures forall i, j :: 0 <= i < j < 64 ==> SQUARE_SAN[i] != SQUARE_SAN[j]
  {
    SquareSanLength();
    forall i, j | 0 <= i < j < 64
      ensures SQUARE_SAN[i] != SQUARE_SAN[j]
    {
      SquareSanAt(i);
      SquareSanAt(j);
      assert SQUARE_SAN[i][0] == SQUARE_SAN[j][0] ==> i % 8 == j % 8;
    }
  }

  /** The 64 square masks are pairwise distinct. */
  lemma SquaresDistinct()
    ensures forall i, j :: 0 <= i < j < 64 ==> SQUARES[i] != SQUARES[j]
  {
    forall i, j | 0 <= i < j < 64
      ensures SQUARES[i] != SQUARES[j]
    {
      if SQUARES[i] == SQUARES[j] {
        BitInjective(i, j);
      }
    }
  }
}
