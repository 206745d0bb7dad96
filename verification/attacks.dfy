/** The attack oracle (chess.cpp:124-230): whether a side attacks a square,
    where a side's king stands, and whether a side is in check. */
module Attacks {
  import opened Squares
  import opened Pieces
  import opened Directions

  /** A pawn of `attacker` on the square `target + d`, one file away (chess.cpp:126-140). */
  predicate PawnAttack(b: Board, target: Square, attacker: Color, d: int) {
    var sq := target + d;
    OnBoard(sq) && Abs(FileOf(sq) - FileOf(target)) == 1 && b[sq] == Occupied(attacker, Pawn)
  }

  /** White pawns attack from one rank below the target, black from one above. */
  predicate PawnAttacks(b: Board, target: Square, attacker: Color) {
    var dir := if attacker == White then 8 else -8;
    PawnAttack(b, target, attacker, dir - 1) || PawnAttack(b, target, attacker, dir + 1)
  }

  /** A piece `Occupied(attacker, k)` one leap `ds[i]` away, within `reach` files
      (knights: chess.cpp:142-160; king: chess.cpp:198-209). */
  predicate LeapAttacks(b: Board, target: Square, attacker: Color, ds: seq<int>, reach: int, k: Kind) {
    && ds != []
    && ((LeapOk(target, ds[0], reach) && b[target + ds[0]] == Occupied(attacker, k))
        || LeapAttacks(b, target, attacker, ds[1..], reach, k))
  }

  /** The first occupied square met walking from `prev` in direction `d`, if any. */
  function FirstOnRay(b: Board, prev: Square, d: int, diagonal: bool): Option<Square>
    requires RayOffset(d, diagonal)
    decreases if d > 0 then 64 - prev else prev
  {
    var t := prev + d;
    if StepBlocked(prev, t, d, diagonal) then None
    else if b[t] == Empty then FirstOnRay(b, t, d, diagonal)
    else Some(t)
  }

  /** The first piece along the ray is a slider of `attacker` that moves this way:
      a bishop or queen on diagonals, a rook or queen on files and ranks
      (chess.cpp:162-196). */
  predicate RayHit(b: Board, target: Square, attacker: Color, d: int, diagonal: bool)
    requires RayOffset(d, diagonal)
  {
    match FirstOnRay(b, target, d, diagonal)
    case None => false
    case Some(u) =>
      Owns(b[u], attacker) && (b[u].kind == Queen || b[u].kind == (if diagonal then Bishop else Rook))
  }

  predicate SliderAttacks(b: Board, target: Square, attacker: Color, ds: seq<int>, diagonal: bool)
    requires forall i :: 0 <= i < |ds| ==> RayOffset(ds[i], diagonal)
  {
    ds != [] && (RayHit(b, target, attacker, ds[0], diagonal) || SliderAttacks(b, target, attacker, ds[1..], diagonal))
  }

  /** The source's `isAttacked`: some piece of `attacker` attacks `target`. */
  predicate IsAttacked(b: Board, target: Square, attacker: Color) {
    || PawnAttacks(b, target, attacker)
    || LeapAttacks(b, target, attacker, KnightOffsets, 2, Knight)
    || SliderAttacks(b, target, attacker, BishopOffsets, true)
    || SliderAttacks(b, target, attacker, RookOffsets, false)
    || LeapAttacks(b, target, attacker, KingOffsets, 1, King)
  }

  function FindKing(b: Board, c: Color, i: nat): (k: Square)
    requires i <= 64
    requires exists j :: i <= j < 64 && b[j] == Occupied(c, King)
    ensures i <= k && b[k] == Occupied(c, King)
    ensures forall j :: i <= j < k ==> b[j] != Occupied(c, King)
    decreases 64 - i
  {
    if b[i] == Occupied(c, King) then i else FindKing(b, c, i + 1)
  }

  /** The source's `kingSquare`: the first square holding the king of `c`.
      The source answers -1 when there is none; here a king is required. */
  function KingSquare(b: Board, c: Color): (k: Square)
    requires HasKing(b, c)
    ensures b[k] == Occupied(c, King)
    ensures forall j :: 0 <= j < k ==> b[j] != Occupied(c, King)
  {
    FindKing(b, c, 0)
  }

  /** The source's `isInCheck`: the king of `side` is attacked by the other side. */
  predicate IsInCheck(pos: Position, side: Color)
    requires HasKing(pos.board, side)
  {
    IsAttacked(pos.board, KingSquare(pos.board, side), Opponent(side))
  }
}
