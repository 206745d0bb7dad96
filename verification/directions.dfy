/** The engine's direction tables and the guards that stop a step from
    wrapping between the a-file and the h-file (chess.cpp:103-105, 131-134,
    150, 166, 184, 199-202, 309, 332, 352, 380, 401-404), and the proof that
    each guard accepts exactly the steps that stay on the board. */
module Directions {
  import opened Squares
  import opened Pieces
  import opened Geometry

  const KnightOffsets: seq<int> := [-17, -15, -10, -6, 6, 10, 15, 17]
  const BishopOffsets: seq<int> := [-9, -7, 7, 9]
  const RookOffsets: seq<int> := [-8, -1, 1, 8]
  const KingOffsets: seq<int> := [-9, -8, -7, -1, 1, 7, 8, 9]

  /** A piece leaping by `d` from `s` to `s + d`: rejected when the target is off
      the board or more than `reach` files away (2 for knights, 1 for kings and
      pawn captures). */
  predicate LeapOk(s: int, d: int, reach: int) {
    OnBoard(s + d) && Abs(FileOf(s) - FileOf(s + d)) <= reach
  }

  /** The stopping test of one ray step from `prev` to `t`: off the board, or on
      a diagonal a step that does not change the file by exactly one, or on a
      horizontal a step that changes the rank. */
  predicate StepBlocked(prev: int, t: int, d: int, diagonal: bool) {
    || !OnBoard(t)
    || (if diagonal then Abs(FileOf(prev) - FileOf(t)) != 1
        else (d == -1 || d == 1) && RankOf(prev) != RankOf(t))
  }

  /** The offsets a ray of the given kind walks along. */
  predicate RayOffset(d: int, diagonal: bool) {
    if diagonal then d in BishopOffsets else d in RookOffsets
  }

  /** A ray step is taken exactly when the shifted column and row stay on the
      board, and it then moves one column and row in the offset's direction. */
  lemma RayStep(prev: Square, d: int, diagonal: bool)
    requires RayOffset(d, diagonal)
    ensures !StepBlocked(prev, prev + d, d, diagonal) <==>
      (0 <= FileOf(prev) + DF(d) < 8 && 0 <= RankOf(prev) + DR(d) < 8)
    ensures !StepBlocked(prev, prev + d, d, diagonal) ==>
      FileOf(prev + d) == FileOf(prev) + DF(d) && RankOf(prev + d) == RankOf(prev) + DR(d)
  {
    assert UnitOffset(d);
    UnitOffsetParts(d);
    Shift(prev, DF(d), DR(d));
  }

  /** Leaps of at most two columns and rows: the guard accepts exactly the
      steps whose shifted column and row stay on the board. */
  lemma LeapStep(s: Square, df: int, dr: int, reach: int)
    requires -2 <= df <= 2 && -2 <= dr <= 2 && Abs(df) <= reach <= 2
    ensures LeapOk(s, 8 * dr + df, reach) <==> (0 <= FileOf(s) + df < 8 && 0 <= RankOf(s) + dr < 8)
    ensures LeapOk(s, 8 * dr + df, reach) ==>
      FileOf(s + 8 * dr + df) == FileOf(s) + df && RankOf(s + 8 * dr + df) == RankOf(s) + dr
  {
    Shift(s, df, dr);
  }

  /** The knight table and its two-file guard produce exactly the knight jumps. */
  lemma KnightTable(s: Square, t: Square)
    ensures (t - s in KnightOffsets && LeapOk(s, t - s, 2)) <==> KnightJump(s, t)
  {
    if t - s in KnightOffsets && LeapOk(s, t - s, 2) {
      KnightTableSound(s, t);
    }
    if KnightJump(s, t) {
      KnightTableComplete(s, t);
    }
  }

  /** One accepted leap of one file and two ranks, or two files and one rank,
      is a knight jump. */
  lemma KnightLeap(s: Square, t: Square, df: int, dr: int)
    requires (Abs(df) == 1 && Abs(dr) == 2) || (Abs(df) == 2 && Abs(dr) == 1)
    requires t == s + 8 * dr + df && LeapOk(s, t - s, 2)
    ensures KnightJump(s, t)
  {
    LeapStep(s, df, dr, 2);
  }

  lemma KnightTableSound(s: Square, t: Square)
    requires t - s in KnightOffsets && LeapOk(s, t - s, 2)
    ensures KnightJump(s, t)
  {
    var d := t - s;
    if d == -17 { KnightLeap(s, t, -1, -2); }
    else if d == -15 { KnightLeap(s, t, 1, -2); }
    else if d == -10 { KnightLeap(s, t, -2, -1); }
    else if d == -6 { KnightLeap(s, t, 2, -1); }
    else if d == 6 { KnightLeap(s, t, -2, 1); }
    else if d == 10 { KnightLeap(s, t, 2, 1); }
    else if d == 15 { KnightLeap(s, t, -1, 2); }
    else { KnightLeap(s, t, 1, 2); }
  }

  lemma KnightTableComplete(s: Square, t: Square)
    requires KnightJump(s, t)
    ensures t - s in KnightOffsets && LeapOk(s, t - s, 2)
  {
    var df, dr := FileOf(t) - FileOf(s), RankOf(t) - RankOf(s);
    assert t - s == 8 * dr + df;
    LeapStep(s, df, dr, 2);
  }

  /** The king table and its one-file guard produce exactly the king steps. */
  lemma KingTable(s: Square, t: Square)
    ensures (t - s in KingOffsets && LeapOk(s, t - s, 1)) <==> KingStep(s, t)
  {
    if t - s in KingOffsets && LeapOk(s, t - s, 1) {
      KingTableSound(s, t);
    }
    if KingStep(s, t) {
      KingTableComplete(s, t);
    }
  }

  lemma KingTableSound(s: Square, t: Square)
    requires t - s in KingOffsets && LeapOk(s, t - s, 1)
    ensures KingStep(s, t)
  {
    var d := t - s;
    if d == -9 { LeapStep(s, -1, -1, 1); }
    else if d == -8 { LeapStep(s, 0, -1, 1); }
    else if d == -7 { LeapStep(s, 1, -1, 1); }
    else if d == -1 { LeapStep(s, -1, 0, 1); }
    else if d == 1 { LeapStep(s, 1, 0, 1); }
    else if d == 7 { LeapStep(s, -1, 1, 1); }
    else if d == 8 { LeapStep(s, 0, 1, 1); }
    else { LeapStep(s, 1, 1, 1); }
  }

  lemma KingTableComplete(s: Square, t: Square)
    requires KingStep(s, t)
    ensures t - s in KingOffsets && LeapOk(s, t - s, 1)
  {
    var df, dr := FileOf(t) - FileOf(s), RankOf(t) - RankOf(s);
    assert t - s == 8 * dr + df;
    LeapStep(s, df, dr, 1);
    if df == 0 && dr == 0 {
      SquareCoordinates(s, t);
    }
  }

  /** A pawn-capture step (one rank, one file) is accepted by the one-file guard
      exactly when it does not wrap. */
  lemma PawnDiagonal(s: Square, dr: int, df: int)
    requires (dr == 1 || dr == -1) && (df == 1 || df == -1)
    ensures var t := s + 8 * dr + df;
      (OnBoard(t) && Abs(FileOf(t) - FileOf(s)) == 1) <==>
        (0 <= FileOf(s) + df < 8 && 0 <= RankOf(s) + dr < 8)
    ensures var t := s + 8 * dr + df;
      OnBoard(t) && Abs(FileOf(t) - FileOf(s)) == 1 ==>
        FileOf(t) == FileOf(s) + df && RankOf(t) == RankOf(s) + dr
  {
    Shift(s, df, dr);
  }

  /** The bishop table lists exactly the diagonal unit directions. */
  lemma BishopDirections(d: int)
    ensures d in BishopOffsets <==> UnitOffset(d) && DF(d) != 0 && DR(d) != 0
  {
  }

  /** The rook table lists exactly the orthogonal unit directions. */
  lemma RookDirections(d: int)
    ensures d in RookOffsets <==> UnitOffset(d) && (DF(d) == 0 || DR(d) == 0)
  {
  }
}
