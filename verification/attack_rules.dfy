/** What it means for a square to be attacked, stated on columns and rows, and
    the proof that the engine's `isAttacked` (chess.cpp:124-212) decides exactly
    that: a pawn strikes one rank forward and one file sideways, every other
    piece strikes the squares its movement rule reaches. */
module AttackRules {
  import opened Squares
  import opened Pieces
  import opened Geometry
  import opened Directions
  import opened MoveRules
  import opened Attacks

  /** A pawn of color `c` on `u` strikes the two squares diagonally in front of it. */
  ghost predicate PawnStrikes(c: Color, u: Square, t: Square) {
    var fwd := if c == White then -1 else 1;
    RankOf(t) - RankOf(u) == fwd && Abs(FileOf(t) - FileOf(u)) == 1
  }

  /** The piece on `u` strikes `t`. */
  ghost predicate Strikes(b: Board, u: Square, t: Square) {
    match b[u]
    case Empty => false
    case Occupied(c, k) => if k == Pawn then PawnStrikes(c, u, t) else PieceRule(b, k, u, t)
  }

  /** Some piece of `attacker` strikes `t`. */
  ghost predicate Attacked(b: Board, t: Square, attacker: Color) {
    exists u: Square :: Owns(b[u], attacker) && Strikes(b, u, t)
  }

  // ----- Pawns -----

  /** The squares a pawn can strike `t` from, written as the engine's offsets
      from `t` with its one-file guard. */
  lemma PawnStrikeOffsets(t: Square, c: Color, u: Square)
    ensures var dir := if c == White then 8 else -8;
      PawnStrikes(c, u, t) <==>
        (u == t + dir - 1 || u == t + dir + 1) && Abs(FileOf(u) - FileOf(t)) == 1
  {
    var dr := if c == White then 1 else -1;
    PawnDiagonal(t, dr, -1);
    PawnDiagonal(t, dr, 1);
    if PawnStrikes(c, u, t) {
      var dx := FileOf(u) - FileOf(t);
      assert u == t + 8 * dr + dx;
    }
  }

  /** A pawn found by the pawn test strikes the target. */
  lemma PawnAttackSound(b: Board, t: Square, attacker: Color, d: int)
    requires d == (if attacker == White then 8 else -8) - 1 || d == (if attacker == White then 8 else -8) + 1
    requires PawnAttack(b, t, attacker, d)
    ensures exists u: Square :: b[u] == Occupied(attacker, Pawn) && PawnStrikes(attacker, u, t)
  {
    var u: Square := t + d;
    PawnStrikeOffsets(t, attacker, u);
  }

  /** A pawn that strikes the target is found by the pawn test. */
  lemma PawnAttackComplete(b: Board, t: Square, attacker: Color, u: Square)
    requires b[u] == Occupied(attacker, Pawn) && PawnStrikes(attacker, u, t)
    ensures PawnAttacks(b, t, attacker)
  {
    PawnStrikeOffsets(t, attacker, u);
    assert PawnAttack(b, t, attacker, u - t);
  }

  lemma PawnAttacksIff(b: Board, t: Square, attacker: Color)
    ensures PawnAttacks(b, t, attacker) <==>
      exists u: Square :: b[u] == Occupied(attacker, Pawn) && PawnStrikes(attacker, u, t)
  {
    var dir := if attacker == White then 8 else -8;
    if PawnAttack(b, t, attacker, dir - 1) {
      PawnAttackSound(b, t, attacker, dir - 1);
    } else if PawnAttack(b, t, attacker, dir + 1) {
      PawnAttackSound(b, t, attacker, dir + 1);
    }
    if exists u: Square :: b[u] == Occupied(attacker, Pawn) && PawnStrikes(attacker, u, t) {
      var u: Square :| b[u] == Occupied(attacker, Pawn) && PawnStrikes(attacker, u, t);
      PawnAttackComplete(b, t, attacker, u);
    }
  }

  // ----- Knights and kings -----

  lemma {:induction false} LeapAttacksMembers(b: Board, t: Square, attacker: Color, ds: seq<int>, reach: int, k: Kind)
    ensures LeapAttacks(b, t, attacker, ds, reach, k) <==>
      exists u: Square :: u - t in ds && LeapOk(t, u - t, reach) && b[u] == Occupied(attacker, k)
  {
    if ds != [] {
      LeapAttacksMembers(b, t, attacker, ds[1..], reach, k);
      assert ds == [ds[0]] + ds[1..];
      if LeapOk(t, ds[0], reach) && b[t + ds[0]] == Occupied(attacker, k) {
        var u: Square := t + ds[0];
        assert u - t in ds;
      }
    }
  }

  lemma KnightAttacksIff(b: Board, t: Square, attacker: Color)
    ensures LeapAttacks(b, t, attacker, KnightOffsets, 2, Knight) <==>
      exists u: Square :: b[u] == Occupied(attacker, Knight) && KnightJump(u, t)
  {
    LeapAttacksMembers(b, t, attacker, KnightOffsets, 2, Knight);
    forall u: Square
      ensures (u - t in KnightOffsets && LeapOk(t, u - t, 2)) <==> KnightJump(u, t)
    {
      KnightTable(t, u);
    }
  }

  lemma KingAttacksIff(b: Board, t: Square, attacker: Color)
    ensures LeapAttacks(b, t, attacker, KingOffsets, 1, King) <==>
      exists u: Square :: b[u] == Occupied(attacker, King) && KingStep(u, t)
  {
    LeapAttacksMembers(b, t, attacker, KingOffsets, 1, King);
    forall u: Square
      ensures (u - t in KingOffsets && LeapOk(t, u - t, 1)) <==> KingStep(u, t)
    {
      KingTable(t, u);
    }
  }

  // ----- Sliders -----

  /** `u` is the nearest occupied square beyond `prev` in direction `d`. */
  ghost predicate NearestOnRay(b: Board, prev: Square, d: int, u: Square) {
    InDirection(prev, u, d) && ClearPath(b, prev, u) && b[u] != Empty
  }

  /** A walk whose next step leaves the board finds nothing, and nothing lies
      beyond `prev` in that direction. */
  lemma FirstOnRayBlocked(b: Board, prev: Square, d: int, diagonal: bool, u: Square)
    requires RayOffset(d, diagonal)
    requires StepBlocked(prev, prev + d, d, diagonal)
    ensures FirstOnRay(b, prev, d, diagonal) == Some(u) <==> NearestOnRay(b, prev, d, u)
  {
    RayStep(prev, d, diagonal);
    if InDirection(prev, u, d) {
      StepTowards(prev, u, d);
    }
  }

  /** A walk whose next square is occupied stops there. */
  lemma FirstOnRayStops(b: Board, prev: Square, d: int, diagonal: bool, u: Square)
    requires RayOffset(d, diagonal)
    requires !StepBlocked(prev, prev + d, d, diagonal) && b[prev + d] != Empty
    ensures FirstOnRay(b, prev, d, diagonal) == Some(u) <==> NearestOnRay(b, prev, d, u)
  {
    assert UnitOffset(d);
    RayStep(prev, d, diagonal);
    Beyond(b, prev, d, u);
  }

  /** A walk over an empty square finds what the walk on from it finds. */
  lemma FirstOnRayContinues(b: Board, prev: Square, d: int, diagonal: bool, u: Square)
    requires RayOffset(d, diagonal)
    requires !StepBlocked(prev, prev + d, d, diagonal) && b[prev + d] == Empty
    requires FirstOnRay(b, prev + d, d, diagonal) == Some(u) <==> NearestOnRay(b, prev + d, d, u)
    ensures FirstOnRay(b, prev, d, diagonal) == Some(u) <==> NearestOnRay(b, prev, d, u)
  {
    assert UnitOffset(d);
    RayStep(prev, d, diagonal);
    Beyond(b, prev, d, u);
  }

  /** The ray walk stops at `u` exactly when `u` is the nearest occupied square
      beyond `prev` in direction `d`. */
  lemma {:induction false} FirstOnRayIff(b: Board, prev: Square, d: int, diagonal: bool, u: Square)
    requires RayOffset(d, diagonal)
    ensures FirstOnRay(b, prev, d, diagonal) == Some(u) <==>
      InDirection(prev, u, d) && ClearPath(b, prev, u) && b[u] != Empty
    decreases if d > 0 then 64 - prev else prev
  {
    var t := prev + d;
    if StepBlocked(prev, t, d, diagonal) {
      FirstOnRayBlocked(b, prev, d, diagonal, u);
    } else if b[t] != Empty {
      FirstOnRayStops(b, prev, d, diagonal, u);
    } else {
      RayStep(prev, d, diagonal);
      assert UnitOffset(d);
      FirstOnRayIff(b, t, d, diagonal, u);
      FirstOnRayContinues(b, prev, d, diagonal, u);
    }
  }

  lemma {:induction false} SliderAttacksMembers(b: Board, t: Square, attacker: Color, ds: seq<int>, diagonal: bool)
    requires forall i :: 0 <= i < |ds| ==> RayOffset(ds[i], diagonal)
    ensures SliderAttacks(b, t, attacker, ds, diagonal) <==>
      exists i :: 0 <= i < |ds| && RayHit(b, t, attacker, ds[i], diagonal)
  {
    if ds != [] {
      SliderAttacksMembers(b, t, attacker, ds[1..], diagonal);
      if SliderAttacks(b, t, attacker, ds[1..], diagonal) {
        var i :| 0 <= i < |ds[1..]| && RayHit(b, t, attacker, ds[1..][i], diagonal);
        assert RayHit(b, t, attacker, ds[i + 1], diagonal);
      }
      if exists i :: 0 <= i < |ds| && RayHit(b, t, attacker, ds[i], diagonal) {
        var i :| 0 <= i < |ds| && RayHit(b, t, attacker, ds[i], diagonal);
        if i > 0 {
          assert ds[i] == ds[1..][i - 1];
        }
      }
    }
  }

  lemma DiagonalAttacksIff(b: Board, t: Square, attacker: Color)
    ensures SliderAttacks(b, t, attacker, BishopOffsets, true) <==>
      exists u: Square :: && Owns(b[u], attacker) && (b[u].kind == Bishop || b[u].kind == Queen)
                          && DiagonalLine(u, t) && ClearPath(b, u, t)
  {
    SliderAttacksMembers(b, t, attacker, BishopOffsets, true);
    if SliderAttacks(b, t, attacker, BishopOffsets, true) {
      var i :| 0 <= i < 4 && RayHit(b, t, attacker, BishopOffsets[i], true);
      var u := FirstOnRay(b, t, BishopOffsets[i], true).value;
      FirstOnRayIff(b, t, BishopOffsets[i], true, u);
      BishopDirections(BishopOffsets[i]);
      DiagonalDirection(t, u);
      ClearPathSymmetric(b, t, u);
      assert DiagonalLine(u, t) && ClearPath(b, u, t);
    }
    if exists u: Square :: && Owns(b[u], attacker) && (b[u].kind == Bishop || b[u].kind == Queen)
                          && DiagonalLine(u, t) && ClearPath(b, u, t) {
      var u: Square :| && Owns(b[u], attacker) && (b[u].kind == Bishop || b[u].kind == Queen)
                       && DiagonalLine(u, t) && ClearPath(b, u, t);
      assert DiagonalLine(t, u);
      ClearPathSymmetric(b, t, u);
      var d := DirectionOf(t, u);
      DiagonalDirection(t, u);
      BishopDirections(d);
      FirstOnRayIff(b, t, d, true, u);
      var i :| 0 <= i < 4 && BishopOffsets[i] == d;
      assert RayHit(b, t, attacker, BishopOffsets[i], true);
    }
  }

  lemma OrthogonalAttacksIff(b: Board, t: Square, attacker: Color)
    ensures SliderAttacks(b, t, attacker, RookOffsets, false) <==>
      exists u: Square :: && Owns(b[u], attacker) && (b[u].kind == Rook || b[u].kind == Queen)
                          && OrthogonalLine(u, t) && ClearPath(b, u, t)
  {
    SliderAttacksMembers(b, t, attacker, RookOffsets, false);
    if SliderAttacks(b, t, attacker, RookOffsets, false) {
      var i :| 0 <= i < 4 && RayHit(b, t, attacker, RookOffsets[i], false);
      var u := FirstOnRay(b, t, RookOffsets[i], false).value;
      FirstOnRayIff(b, t, RookOffsets[i], false, u);
      RookDirections(RookOffsets[i]);
      OrthogonalDirection(t, u);
      ClearPathSymmetric(b, t, u);
      assert OrthogonalLine(u, t) && ClearPath(b, u, t);
    }
    if exists u: Square :: && Owns(b[u], attacker) && (b[u].kind == Rook || b[u].kind == Queen)
                          && OrthogonalLine(u, t) && ClearPath(b, u, t) {
      var u: Square :| && Owns(b[u], attacker) && (b[u].kind == Rook || b[u].kind == Queen)
                       && OrthogonalLine(u, t) && ClearPath(b, u, t);
      assert OrthogonalLine(t, u);
      ClearPathSymmetric(b, t, u);
      var d := DirectionOf(t, u);
      OrthogonalDirection(t, u);
      RookDirections(d);
      FirstOnRayIff(b, t, d, false, u);
      var i :| 0 <= i < 4 && RookOffsets[i] == d;
      assert RayHit(b, t, attacker, RookOffsets[i], false);
    }
  }

  // ----- The whole oracle -----

  /** Every attack `isAttacked` reports is a real strike. */
  lemma IsAttackedSound(b: Board, t: Square, attacker: Color)
    requires IsAttacked(b, t, attacker)
    ensures Attacked(b, t, attacker)
  {
    if PawnAttacks(b, t, attacker) {
      PawnAttacksIff(b, t, attacker);
      var u: Square :| b[u] == Occupied(attacker, Pawn) && PawnStrikes(attacker, u, t);
      assert Owns(b[u], attacker) && Strikes(b, u, t);
    } else if LeapAttacks(b, t, attacker, KnightOffsets, 2, Knight) {
      KnightAttacksIff(b, t, attacker);
      var u: Square :| b[u] == Occupied(attacker, Knight) && KnightJump(u, t);
      assert Owns(b[u], attacker) && Strikes(b, u, t);
    } else if SliderAttacks(b, t, attacker, BishopOffsets, true) {
      DiagonalAttacksIff(b, t, attacker);
      var u: Square :| && Owns(b[u], attacker) && (b[u].kind == Bishop || b[u].kind == Queen)
                       && DiagonalLine(u, t) && ClearPath(b, u, t);
      assert Strikes(b, u, t);
    } else if SliderAttacks(b, t, attacker, RookOffsets, false) {
      OrthogonalAttacksIff(b, t, attacker);
      var u: Square :| && Owns(b[u], attacker) && (b[u].kind == Rook || b[u].kind == Queen)
                       && OrthogonalLine(u, t) && ClearPath(b, u, t);
      assert Strikes(b, u, t);
    } else {
      KingAttacksIff(b, t, attacker);
      var u: Square :| b[u] == Occupied(attacker, King) && KingStep(u, t);
      assert Owns(b[u], attacker) && Strikes(b, u, t);
    }
  }

  /** Every strike of a piece of `attacker` is reported by `isAttacked`. */
  lemma IsAttackedComplete(b: Board, t: Square, attacker: Color, u: Square)
    requires Owns(b[u], attacker) && Strikes(b, u, t)
    ensures IsAttacked(b, t, attacker)
  {
    assert b[u] == Occupied(attacker, b[u].kind);
    match b[u].kind
    case Pawn => PawnAttacksIff(b, t, attacker);
    case Knight => KnightAttacksIff(b, t, attacker);
    case Bishop => DiagonalAttacksIff(b, t, attacker);
    case Rook => OrthogonalAttacksIff(b, t, attacker);
    case Queen =>
      if DiagonalLine(u, t) {
        DiagonalAttacksIff(b, t, attacker);
      } else {
        OrthogonalAttacksIff(b, t, attacker);
      }
    case King => KingAttacksIff(b, t, attacker);
  }

  /** `isAttacked` answers exactly whether some piece of `attacker` strikes `t`. */
  lemma IsAttackedIff(b: Board, t: Square, attacker: Color)
    ensures IsAttacked(b, t, attacker) <==> Attacked(b, t, attacker)
  {
    if IsAttacked(b, t, attacker) {
      IsAttackedSound(b, t, attacker);
    }
    if Attacked(b, t, attacker) {
      var u: Square :| Owns(b[u], attacker) && Strikes(b, u, t);
      IsAttackedComplete(b, t, attacker, u);
    }
  }

  /** A side is in check exactly when some enemy piece strikes its king's square. */
  lemma InCheckIff(pos: Position, side: Color)
    requires HasKing(pos.board, side)
    ensures IsInCheck(pos, side) <==>
      exists u: Square :: Owns(pos.board[u], Opponent(side))
                          && Strikes(pos.board, u, KingSquare(pos.board, side))
  {
    IsAttackedIff(pos.board, KingSquare(pos.board, side), Opponent(side));
  }
}
