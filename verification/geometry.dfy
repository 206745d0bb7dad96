/** Reference geometry of piece movement, stated on columns and rows rather
    than on index offsets (Article 3 of the FIDE Laws of Chess): knight jumps,
    king steps, diagonal and orthogonal lines, and the squares strictly between
    two squares on a line. The engine's offset-and-guard walks are proved
    against these definitions. */
module Geometry {
  import opened Squares
  import opened Pieces

  function Sign(x: int): int {
    if x < 0 then -1 else if x > 0 then 1 else 0
  }

  /** Two files and one rank, or one file and two ranks. */
  ghost predicate KnightJump(s: Square, t: Square) {
    var df, dr := Abs(FileOf(t) - FileOf(s)), Abs(RankOf(t) - RankOf(s));
    (df == 1 && dr == 2) || (df == 2 && dr == 1)
  }

  /** One square in any direction. */
  ghost predicate KingStep(s: Square, t: Square) {
    s != t && Abs(FileOf(t) - FileOf(s)) <= 1 && Abs(RankOf(t) - RankOf(s)) <= 1
  }

  ghost predicate DiagonalLine(s: Square, t: Square) {
    s != t && Abs(FileOf(t) - FileOf(s)) == Abs(RankOf(t) - RankOf(s))
  }

  ghost predicate OrthogonalLine(s: Square, t: Square) {
    s != t && (FileOf(t) == FileOf(s) || RankOf(t) == RankOf(s))
  }

  /** King-move distance between two squares. */
  function Dist(s: Square, t: Square): nat {
    Max(Abs(FileOf(t) - FileOf(s)), Abs(RankOf(t) - RankOf(s)))
  }

  /** The coordinate `j` steps from `a` towards `b` (stays at `a` when `a == b`). */
  function Toward(a: int, b: int, j: int): int {
    if a < b then a + j else if b < a then a - j else a
  }

  /** The square `j` steps from `s` towards `t` along their common line. */
  function Along(s: Square, t: Square, j: int): int {
    8 * Toward(RankOf(s), RankOf(t), j) + Toward(FileOf(s), FileOf(t), j)
  }

  /** Every square strictly between `s` and `t` is empty. */
  ghost predicate ClearPath(b: Board, s: Square, t: Square) {
    forall j :: 1 <= j < Dist(s, t) ==> OnBoard(Along(s, t, j)) && b[Along(s, t, j)] == Empty
  }

  // ----- Unit directions, written as index offsets -----

  /** The eight offsets of a one-square step. */
  predicate UnitOffset(d: int) {
    d == -9 || d == -8 || d == -7 || d == -1 || d == 1 || d == 7 || d == 8 || d == 9
  }

  /** Column change of a unit offset. */
  function DF(d: int): int {
    if d == -9 || d == -1 || d == 7 then -1
    else if d == -7 || d == 1 || d == 9 then 1
    else 0
  }

  /** Row change of a unit offset. */
  function DR(d: int): int {
    if d < -1 then -1 else if d > 1 then 1 else 0
  }

  lemma UnitOffsetParts(d: int)
    requires UnitOffset(d)
    ensures d == 8 * DR(d) + DF(d)
    ensures DF(d) != 0 || DR(d) != 0
  {
  }

  /** `t` lies on the line leaving `a` in the direction of the unit offset `d`. */
  ghost predicate InDirection(a: Square, t: Square, d: int) {
    var df, dr := FileOf(t) - FileOf(a), RankOf(t) - RankOf(a);
    && UnitOffset(d)
    && Sign(df) == DF(d) && Sign(dr) == DR(d)
    && (DF(d) == 0 || DR(d) == 0 || Abs(df) == Abs(dr))
  }

  /** The unit offset pointing from `s` to `t`. */
  function DirectionOf(s: Square, t: Square): int {
    8 * Sign(RankOf(t) - RankOf(s)) + Sign(FileOf(t) - FileOf(s))
  }

  lemma DiagonalDirection(s: Square, t: Square)
    ensures DiagonalLine(s, t) <==>
      InDirection(s, t, DirectionOf(s, t)) && DF(DirectionOf(s, t)) != 0 && DR(DirectionOf(s, t)) != 0
    ensures forall d :: InDirection(s, t, d) && DF(d) != 0 && DR(d) != 0 ==> d == DirectionOf(s, t)
  {
  }

  lemma OrthogonalDirection(s: Square, t: Square)
    ensures OrthogonalLine(s, t) <==>
      InDirection(s, t, DirectionOf(s, t)) && (DF(DirectionOf(s, t)) == 0 || DR(DirectionOf(s, t)) == 0)
    ensures forall d :: InDirection(s, t, d) && (DF(d) == 0 || DR(d) == 0) ==> d == DirectionOf(s, t)
  {
    if OrthogonalLine(s, t) {
      assert s != t;
      if FileOf(t) == FileOf(s) && RankOf(t) == RankOf(s) {
        SquareCoordinates(s, t);
      }
    }
  }

  /** The first step from `prev` towards a square `t` in direction `d` stays on
      the board and is either `t` itself or a square from which `t` still lies
      in direction `d`, one step closer. */
  lemma StepTowards(prev: Square, t: Square, d: int)
    requires InDirection(prev, t, d)
    ensures 0 <= FileOf(prev) + DF(d) < 8 && 0 <= RankOf(prev) + DR(d) < 8
    ensures var n := prev + d;
      && OnBoard(n) && FileOf(n) == FileOf(prev) + DF(d) && RankOf(n) == RankOf(prev) + DR(d)
      && (n == t <==> Dist(prev, t) == 1)
      && (n != t ==> InDirection(n, t, d) && Dist(n, t) == Dist(prev, t) - 1)
  {
    UnitOffsetParts(d);
    Shift(prev, DF(d), DR(d));
    var n := prev + d;
    if Dist(prev, t) == 1 {
      SquareCoordinates(n, t);
    }
  }

  /** A step whose shifted column and row stay on the board lands one square
      away in direction `d`; anything in direction `d` from there is also in
      direction `d` from the starting square. */
  lemma StepOnward(prev: Square, d: int, u: Square)
    requires UnitOffset(d)
    requires 0 <= FileOf(prev) + DF(d) < 8 && 0 <= RankOf(prev) + DR(d) < 8
    ensures OnBoard(prev + d)
    ensures InDirection(prev, prev + d, d) && Dist(prev, prev + d) == 1
    ensures InDirection(prev + d, u, d) ==> InDirection(prev, u, d)
  {
    UnitOffsetParts(d);
    Shift(prev, DF(d), DR(d));
  }

  /** Past the next square, the squares towards `t` are the ones one step
      further from `prev`. */
  lemma AlongStep(prev: Square, t: Square, d: int, n: int)
    requires InDirection(prev, t, d) && n == prev + d && n != t
    ensures OnBoard(n) && Dist(n, t) == Dist(prev, t) - 1
    ensures Along(prev, t, 1) == n
    ensures forall j :: 1 <= j < Dist(n, t) ==> Along(n, t, j) == Along(prev, t, j + 1)
  {
    StepTowards(prev, t, d);
  }

  /** A clear path from `prev` passes an empty next square and stays clear
      from there. */
  lemma ClearPathOn(b: Board, prev: Square, t: Square, d: int)
    requires InDirection(prev, t, d) && prev + d != t
    requires ClearPath(b, prev, t)
    ensures OnBoard(prev + d) && b[prev + d] == Empty && ClearPath(b, prev + d, t)
  {
    var n := prev + d;
    AlongStep(prev, t, d, n);
    forall j | 1 <= j < Dist(n, t)
      ensures OnBoard(Along(n, t, j)) && b[Along(n, t, j)] == Empty
    {
      assert Along(n, t, j) == Along(prev, t, j + 1);
    }
  }

  /** An empty next square and a clear path on from it make a clear path. */
  lemma ClearPathBack(b: Board, prev: Square, t: Square, d: int)
    requires InDirection(prev, t, d) && prev + d != t
    requires OnBoard(prev + d) && b[prev + d] == Empty && ClearPath(b, prev + d, t)
    ensures ClearPath(b, prev, t)
  {
    var n := prev + d;
    AlongStep(prev, t, d, n);
    forall j | 1 <= j < Dist(prev, t)
      ensures OnBoard(Along(prev, t, j)) && b[Along(prev, t, j)] == Empty
    {
      if j > 1 {
        assert Along(prev, t, j) == Along(n, t, j - 1);
      }
    }
  }

  /** The path from `prev` to `t` is clear exactly when `t` is the next square,
      or the next square is empty and the path on from it is clear. */
  lemma ClearPathStep(b: Board, prev: Square, t: Square, d: int)
    requires InDirection(prev, t, d)
    ensures OnBoard(prev + d)
    ensures ClearPath(b, prev, t) <==>
      (prev + d == t || (b[prev + d] == Empty && ClearPath(b, prev + d, t)))
  {
    StepTowards(prev, t, d);
    if prev + d != t {
      if ClearPath(b, prev, t) {
        ClearPathOn(b, prev, t, d);
      }
      if b[prev + d] == Empty && ClearPath(b, prev + d, t) {
        ClearPathBack(b, prev, t, d);
      }
    }
  }

  /** Every square beyond `prev` in direction `d` with a clear path is the
      next square, or lies beyond an empty next square with a clear path
      from it. */
  lemma Beyond(b: Board, prev: Square, d: int, u: Square)
    requires UnitOffset(d)
    requires 0 <= FileOf(prev) + DF(d) < 8 && 0 <= RankOf(prev) + DR(d) < 8
    ensures OnBoard(prev + d)
    ensures InDirection(prev, u, d) && ClearPath(b, prev, u) <==>
      (u == prev + d || (b[prev + d] == Empty && InDirection(prev + d, u, d) && ClearPath(b, prev + d, u)))
  {
    StepOnward(prev, d, u);
    if InDirection(prev, u, d) {
      ClearPathStep(b, prev, u, d);
      StepTowards(prev, u, d);
    }
  }

  /** A path is clear in one direction exactly when it is clear in the other. */
  lemma ClearPathSymmetric(b: Board, s: Square, t: Square)
    requires DiagonalLine(s, t) || OrthogonalLine(s, t)
    ensures ClearPath(b, s, t) <==> ClearPath(b, t, s)
  {
    var k := Dist(s, t);
    assert Dist(t, s) == k;
    forall j | 1 <= j < k
      ensures Along(t, s, j) == Along(s, t, k - j)
    {
    }
    if ClearPath(b, s, t) {
      forall j | 1 <= j < k
        ensures OnBoard(Along(t, s, j)) && b[Along(t, s, j)] == Empty
      {
        assert Along(t, s, j) == Along(s, t, k - j);
      }
    }
    if ClearPath(b, t, s) {
      forall j | 1 <= j < k
        ensures OnBoard(Along(s, t, j)) && b[Along(s, t, j)] == Empty
      {
        assert Along(s, t, j) == Along(t, s, k - j);
      }
    }
  }
}
