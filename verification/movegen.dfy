/** Pseudo-legal move generation (chess.cpp:106-118, 263-413): every move of
    the side to move that follows the piece's movement rule, before the test
    for leaving the own king attacked. No castling, no en passant, and a pawn
    reaching the last rank always becomes a queen. Moves come out in the
    source's order: squares 0..63, and per piece its offset table in order. */
module MoveGen {
  import opened Squares
  import opened Pieces
  import opened Directions

  /** A move: squares, the content of the target square before the move, and
      the promotion piece (the source's `promo`, 0 or 'q'). */
  datatype Move = Move(from: Square, to: Square, captured: Cell, promo: Option<Kind>)

  /** The source's `addMove`: records the target's content as the capture and
      drops any move onto a king, of either color. */
  function AddMove(b: Board, from: Square, to: Square, promo: Option<Kind>): seq<Move> {
    if IsKing(b[to]) then [] else [Move(from, to, b[to], promo)]
  }

  /** A pawn move ending on rank 8 or rank 1 promotes to a queen. */
  function PromotionAt(t: Square): Option<Kind> {
    if RankOf(t) == 0 || RankOf(t) == 7 then Some(Queen) else None
  }

  /** One square forward: white pawns move towards rank 8, i.e. lower indices. */
  function PawnDir(c: Color): int {
    if c == White then -8 else 8
  }

  /** The pawn's starting row: rank 2 (row 6) for white, rank 7 (row 1) for black. */
  function PawnHome(c: Color): int {
    if c == White then 6 else 1
  }

  /** Single push onto an empty square, then the double push from the home row
      when the square two ahead is empty as well (chess.cpp:284-303). */
  function PawnPushes(b: Board, s: Square, c: Color): seq<Move> {
    var to := s + PawnDir(c);
    if OnBoard(to) && b[to] == Empty then
      var dbl := s + 2 * PawnDir(c);
      AddMove(b, s, to, PromotionAt(to))
      + (if RankOf(s) == PawnHome(c) && OnBoard(dbl) && b[dbl] == Empty
         then AddMove(b, s, dbl, None) else [])
    else
      []
  }

  /** A diagonal capture by offset `d`, onto an enemy piece, one file over (chess.cpp:306-322). */
  function PawnCapture(b: Board, s: Square, c: Color, d: int): seq<Move> {
    var t := s + d;
    if OnBoard(t) && Abs(FileOf(t) - FileOf(s)) == 1 && b[t].Occupied? && b[t].color != c then
      AddMove(b, s, t, PromotionAt(t))
    else
      []
  }

  function PawnMoves(b: Board, s: Square, c: Color): seq<Move> {
    PawnPushes(b, s, c)
    + PawnCapture(b, s, c, PawnDir(c) - 1)
    + PawnCapture(b, s, c, PawnDir(c) + 1)
  }

  /** One knight or king step by offset `d`, onto an empty or enemy square. */
  function Leap(b: Board, s: Square, c: Color, d: int, reach: int): seq<Move> {
    if !LeapOk(s, d, reach) then []
    else if !Owns(b[s + d], c) then AddMove(b, s, s + d, None)
    else []
  }

  function Leaps(b: Board, s: Square, c: Color, ds: seq<int>, reach: int): seq<Move> {
    if ds == [] then [] else Leap(b, s, c, ds[0], reach) + Leaps(b, s, c, ds[1..], reach)
  }

  /** The ray walk from `prev` onwards in direction `d`: empty squares are
      added and passed, the first occupied square is added when it holds an
      enemy piece and ends the ray (chess.cpp:345-395). */
  function Ray(b: Board, s: Square, c: Color, prev: Square, d: int, diagonal: bool): seq<Move>
    requires RayOffset(d, diagonal)
    decreases if d > 0 then 64 - prev else prev
  {
    var t := prev + d;
    if StepBlocked(prev, t, d, diagonal) then []
    else if b[t] == Empty then AddMove(b, s, t, None) + Ray(b, s, c, t, d, diagonal)
    else if !Owns(b[t], c) then AddMove(b, s, t, None)
    else []
  }

  function Rays(b: Board, s: Square, c: Color, ds: seq<int>, diagonal: bool): seq<Move>
    requires forall i :: 0 <= i < |ds| ==> RayOffset(ds[i], diagonal)
  {
    if ds == [] then [] else Ray(b, s, c, s, ds[0], diagonal) + Rays(b, s, c, ds[1..], diagonal)
  }

  /** All moves of the piece on `s`, if it belongs to the side to move. */
  function PieceMoves(pos: Position, s: Square): seq<Move> {
    var b := pos.board;
    match b[s]
    case Empty => []
    case Occupied(c, k) =>
      if c != pos.side then []
      else
        match k
        case Pawn => PawnMoves(b, s, c)
        case Knight => Leaps(b, s, c, KnightOffsets, 2)
        case Bishop => Rays(b, s, c, BishopOffsets, true)
        case Rook => Rays(b, s, c, RookOffsets, false)
        case Queen => Rays(b, s, c, BishopOffsets, true) + Rays(b, s, c, RookOffsets, false)
        case King => Leaps(b, s, c, KingOffsets, 1)
  }

  function MovesFrom(pos: Position, s: nat): seq<Move>
    requires s <= 64
    decreases 64 - s
  {
    if s == 64 then [] else PieceMoves(pos, s) + MovesFrom(pos, s + 1)
  }

  /** The source's `generateMoves`. */
  function GenerateMoves(pos: Position): seq<Move> {
    MovesFrom(pos, 0)
  }
}
