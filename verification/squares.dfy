/** Squares of the 8x8 board: index arithmetic, the file/rank decomposition
    and algebraic square names ("a8" is square 0, "h1" is square 63). */
module Squares {

  /** A board square, row-major from the top: 0 = a8, 7 = h8, 56 = a1, 63 = h1. */
  type Square = s: int | 0 <= s < 64

  datatype Option<T> = None | Some(value: T)

  predicate OnBoard(s: int) {
    0 <= s < 64
  }

  /** Column 0 (file a) .. 7 (file h). The source's `square & 7`; Dafny's `%`
      by a positive constant agrees with it on every integer, negative ones too. */
  function FileOf(s: int): (f: int)
    ensures 0 <= f < 8
    ensures s == 8 * RankOf(s) + f
  {
    s % 8
  }

  /** Row counted from the top, 0 (rank 8) .. 7 (rank 1). The source's `square >> 3`,
      an arithmetic shift, which is floor division like Dafny's `/` by 8. */
  function RankOf(s: int): (r: int)
    ensures OnBoard(s) ==> 0 <= r < 8
  {
    s / 8
  }

  /** The square with the given column and row. */
  function Sq(f: int, r: int): (s: Square)
    requires 0 <= f < 8 && 0 <= r < 8
    ensures FileOf(s) == f && RankOf(s) == r
  {
    8 * r + f
  }

  /** The larger of two numbers. */
  function Max(x: int, y: int): (m: int)
    ensures m >= x && m >= y && (m == x || m == y)
  {
    if x >= y then x else y
  }

  function Abs(x: int): nat {
    if x < 0 then -x else x
  }

  /** A square is determined by its column and row. */
  lemma SquareCoordinates(s: int, t: int)
    requires FileOf(s) == FileOf(t) && RankOf(s) == RankOf(t)
    ensures s == t
  {
  }

  /** Stepping by `8 * dr + df` from `s` (at most two files and two ranks) lands
      on the board within two files of `s` exactly when the column and row
      shifted by `df` and `dr` stay on the board; a step that leaves the board
      sideways re-enters at the other edge at least six files away. */
  lemma Shift(s: Square, df: int, dr: int)
    requires -2 <= df <= 2 && -2 <= dr <= 2
    ensures var t := s + 8 * dr + df;
      (OnBoard(t) && Abs(FileOf(t) - FileOf(s)) <= 2)
      <==> (0 <= FileOf(s) + df < 8 && 0 <= RankOf(s) + dr < 8)
    ensures var t := s + 8 * dr + df;
      0 <= FileOf(s) + df < 8 ==>
        FileOf(t) == FileOf(s) + df && RankOf(t) == RankOf(s) + dr
    ensures var t := s + 8 * dr + df;
      OnBoard(t) && !(0 <= FileOf(s) + df < 8) ==>
        Abs(FileOf(t) - FileOf(s)) >= 6 && RankOf(t) != RankOf(s) + dr
  {
    var t := s + 8 * dr + df;
    var f, r := FileOf(s), RankOf(s);
    if 0 <= f + df < 8 {
      DivMod(t, r + dr, f + df);
    } else if f + df < 0 {
      DivMod(t, r + dr - 1, f + df + 8);
    } else {
      DivMod(t, r + dr + 1, f + df - 8);
    }
  }

  lemma DivMod(t: int, q: int, m: int)
    requires 0 <= m < 8 && t == 8 * q + m
    ensures FileOf(t) == m && RankOf(t) == q
  {
  }

  // ----- Algebraic square names (FIDE Laws of Chess, Appendix C) -----

  /** The two-character name of a square: file letter then rank digit. */
  function SquareName(s: Square): (name: string)
    ensures |name| == 2
    ensures 'a' <= name[0] <= 'h' && '1' <= name[1] <= '8'
  {
    [('a' as int + FileOf(s)) as char, ('8' as int - RankOf(s)) as char]
  }

  /** The arithmetic of `algebraicToSquare` on the codes of a file and a rank
      character. */
  function SquareOfCodes(file: int, rank: int): int {
    ('8' as int - rank) * 8 + (file - 'a' as int)
  }

  /** The source's `algebraicToSquare`: plain character arithmetic with no
      validation, so any two characters yield some integer, on the board or not. */
  function AlgebraicToSquare(name: string): int
    requires |name| == 2
  {
    SquareOfCodes(name[0] as int, name[1] as int)
  }

  /** A rank read as a negative `char` (a byte of 0x80 or above) puts the
      square past the board, whatever `char` the file is. */
  lemma NegativeRankOffBoard(file: int, rank: int)
    requires -128 <= file < 128 && -128 <= rank < 0
    ensures SquareOfCodes(file, rank) >= 64
  {
  }

  /** Reading back a square's name gives the square. */
  lemma AlgebraicRoundTrip(s: Square)
    ensures AlgebraicToSquare(SquareName(s)) == s
  {
  }

  /** A checked reading of a square name: only "a1" .. "h8" are accepted. */
  function ParseSquare(name: string): (r: Option<Square>)
    requires |name| == 2
    ensures r.Some? <==> 'a' <= name[0] <= 'h' && '1' <= name[1] <= '8'
    ensures r.Some? ==> r.value == AlgebraicToSquare(name)
  {
    if 'a' <= name[0] <= 'h' && '1' <= name[1] <= '8' then
      Some(AlgebraicToSquare(name))
    else
      None
  }

  /** Naming and checked reading are inverse to each other. */
  lemma ParseSquareInverse(s: Square, name: string)
    requires |name| == 2
    ensures ParseSquare(name) == Some(s) <==> name == SquareName(s)
  {
    if ParseSquare(name) == Some(s) {
      var n := SquareName(s);
      assert n[0] == name[0];
      assert n[1] == name[1];
    }
  }

  /** Unchecked reading maps some malformed names onto real squares:
      "i3" (a file past h) reads as a2, the square 48. */
  lemma AlgebraicAliasing()
    ensures AlgebraicToSquare("i3") == AlgebraicToSquare(SquareName(48)) == 48
    ensures ParseSquare("i3") == None
  {
  }
}
