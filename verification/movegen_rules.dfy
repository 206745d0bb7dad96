/** The movement rules the generator implements, stated on columns and rows,
    and the proof that `GenerateMoves` yields exactly the moves that follow
    them: only pieces of the side to move, never onto an own piece or a king,
    knight jumps and king steps without wrap-around, sliders along clear lines,
    pawns by push, double push from the home row and diagonal capture. */
module MoveRules {
  import opened Squares
  import opened Pieces
  import opened Geometry
  import opened Directions
  import opened MoveGen

  /** A square a piece of color `c` may move to: not holding one of its own
      pieces, and not holding a king of either color. */
  ghost predicate Enterable(b: Board, c: Color, t: Square) {
    !Owns(b[t], c) && !IsKing(b[t])
  }

  /** A pawn move ending on rank 8 or rank 1 becomes a queen, no other does. */
  ghost predicate PromotesAt(t: Square, promo: Option<Kind>) {
    promo == (if RankOf(t) == 0 || RankOf(t) == 7 then Some(Queen) else None)
  }

  /** A pawn of color `c` moves one rank forward onto an empty square, two from
      its home rank over an empty square onto an empty square, or one rank
      forward and one file sideways onto an enemy piece. */
  ghost predicate PawnRule(b: Board, c: Color, s: Square, t: Square, promo: Option<Kind>) {
    var fwd := if c == White then -1 else 1;
    var home := if c == White then 6 else 1;
    var df, dr := FileOf(t) - FileOf(s), RankOf(t) - RankOf(s);
    || (df == 0 && dr == fwd && b[t] == Empty && PromotesAt(t, promo))
    || (df == 0 && dr == 2 * fwd && RankOf(s) == home && ClearPath(b, s, t) && b[t] == Empty
        && promo == None)
    || (Abs(df) == 1 && dr == fwd && b[t].Occupied? && b[t].color != c && PromotesAt(t, promo))
  }

  /** How the other pieces move. */
  ghost predicate PieceRule(b: Board, k: Kind, s: Square, t: Square) {
    match k
    case Pawn => false
    case Knight => KnightJump(s, t)
    case Bishop => DiagonalLine(s, t) && ClearPath(b, s, t)
    case Rook => OrthogonalLine(s, t) && ClearPath(b, s, t)
    case Queen => (DiagonalLine(s, t) || OrthogonalLine(s, t)) && ClearPath(b, s, t)
    case King => KingStep(s, t)
  }

  /** A pseudo-legal move: a piece of the side to move goes by its rule to an
      enterable square, recording what stood there. */
  ghost predicate PseudoLegal(pos: Position, m: Move) {
    var b, c := pos.board, pos.side;
    && Owns(b[m.from], c)
    && m.captured == b[m.to]
    && Enterable(b, c, m.to)
    && if b[m.from].kind == Pawn then PawnRule(b, c, m.from, m.to, m.promo)
       else m.promo == None && PieceRule(b, b[m.from].kind, m.from, m.to)
  }

  // ----- Leaping pieces -----

  /** One leap yields the unpromoted move to its square when the leap is
      accepted and the square enterable, and nothing else. */
  lemma LeapMembers(b: Board, s: Square, c: Color, d: int, reach: int, m: Move)
    ensures m in Leap(b, s, c, d, reach) <==>
      && m == Move(s, m.to, b[m.to], None)
      && m.to - s == d && LeapOk(s, d, reach) && Enterable(b, c, m.to)
  {
  }

  lemma {:induction false} LeapsMembers(b: Board, s: Square, c: Color, ds: seq<int>, reach: int, m: Move)
    ensures m in Leaps(b, s, c, ds, reach) <==>
      && m == Move(s, m.to, b[m.to], None)
      && m.to - s in ds && LeapOk(s, m.to - s, reach) && Enterable(b, c, m.to)
  {
    if ds != [] {
      LeapMembers(b, s, c, ds[0], reach, m);
      LeapsMembers(b, s, c, ds[1..], reach, m);
      assert m in Leaps(b, s, c, ds, reach) <==>
        m in Leap(b, s, c, ds[0], reach) || m in Leaps(b, s, c, ds[1..], reach);
      assert m.to - s in ds <==> m.to - s == ds[0] || m.to - s in ds[1..];
    }
  }

  // ----- Sliding pieces -----

  /** What a walk from `prev` in direction `d` should yield: the moves to
      enterable squares beyond `prev` in that direction with nothing between. */
  ghost predicate RayTarget(b: Board, s: Square, c: Color, prev: Square, d: int, m: Move) {
    && m == Move(s, m.to, b[m.to], None)
    && InDirection(prev, m.to, d) && ClearPath(b, prev, m.to) && Enterable(b, c, m.to)
  }

  /** A walk whose next step leaves the board yields nothing, and nothing
      lies beyond `prev` in that direction. */
  lemma RayBlocked(b: Board, s: Square, c: Color, prev: Square, d: int, diagonal: bool, m: Move)
    requires RayOffset(d, diagonal)
    requires StepBlocked(prev, prev + d, d, diagonal)
    ensures m in Ray(b, s, c, prev, d, diagonal) <==> RayTarget(b, s, c, prev, d, m)
  {
    RayStep(prev, d, diagonal);
    if InDirection(prev, m.to, d) {
      StepTowards(prev, m.to, d);
    }
  }

  /** A walk that reaches an occupied square stops there, taking it if it
      holds an enemy piece. */
  lemma RayStops(b: Board, s: Square, c: Color, prev: Square, d: int, diagonal: bool, m: Move)
    requires RayOffset(d, diagonal)
    requires !StepBlocked(prev, prev + d, d, diagonal) && b[prev + d] != Empty
    ensures m in Ray(b, s, c, prev, d, diagonal) <==> RayTarget(b, s, c, prev, d, m)
  {
    assert UnitOffset(d);
    RayStep(prev, d, diagonal);
    Beyond(b, prev, d, m.to);
  }

  /** A walk over an empty square yields the move there and the walk on
      from it. */
  lemma RayContinues(b: Board, s: Square, c: Color, prev: Square, d: int, diagonal: bool, m: Move)
    requires RayOffset(d, diagonal)
    requires !StepBlocked(prev, prev + d, d, diagonal) && b[prev + d] == Empty
    requires m in Ray(b, s, c, prev + d, d, diagonal) <==> RayTarget(b, s, c, prev + d, d, m)
    ensures m in Ray(b, s, c, prev, d, diagonal) <==> RayTarget(b, s, c, prev, d, m)
  {
    assert UnitOffset(d);
    RayStep(prev, d, diagonal);
    Beyond(b, prev, d, m.to);
  }

  /** The walk from `prev` in direction `d` yields exactly the moves to
      enterable squares beyond `prev` in that direction with nothing between. */
  lemma {:induction false} RayMembers(b: Board, s: Square, c: Color, prev: Square, d: int, diagonal: bool, m: Move)
    requires RayOffset(d, diagonal)
    ensures m in Ray(b, s, c, prev, d, diagonal) <==>
      && m == Move(s, m.to, b[m.to], None)
      && InDirection(prev, m.to, d) && ClearPath(b, prev, m.to) && Enterable(b, c, m.to)
    decreases if d > 0 then 64 - prev else prev
  {
    var t := prev + d;
    if StepBlocked(prev, t, d, diagonal) {
      RayBlocked(b, s, c, prev, d, diagonal, m);
    } else if b[t] != Empty {
      RayStops(b, s, c, prev, d, diagonal, m);
    } else {
      RayStep(prev, d, diagonal);
      assert UnitOffset(d);
      RayMembers(b, s, c, t, d, diagonal, m);
      RayContinues(b, s, c, prev, d, diagonal, m);
    }
  }

  lemma {:induction false} RaysMembers(b: Board, s: Square, c: Color, ds: seq<int>, diagonal: bool, m: Move)
    requires forall i :: 0 <= i < |ds| ==> RayOffset(ds[i], diagonal)
    ensures m in Rays(b, s, c, ds, diagonal) <==>
      exists i :: 0 <= i < |ds| && m in Ray(b, s, c, s, ds[i], diagonal)
  {
    if ds != [] {
      RaysMembers(b, s, c, ds[1..], diagonal, m);
      if m in Rays(b, s, c, ds[1..], diagonal) {
        var i :| 0 <= i < |ds[1..]| && m in Ray(b, s, c, s, ds[1..][i], diagonal);
        assert m in Ray(b, s, c, s, ds[i + 1], diagonal);
      }
      if exists i :: 0 <= i < |ds| && m in Ray(b, s, c, s, ds[i], diagonal) {
        var i :| 0 <= i < |ds| && m in Ray(b, s, c, s, ds[i], diagonal);
        if i > 0 {
          assert ds[i] == ds[1..][i - 1];
        }
      }
    }
  }

  /** The four diagonal walks yield exactly the moves along clear diagonals. */
  lemma DiagonalMembers(b: Board, s: Square, c: Color, m: Move)
    ensures m in Rays(b, s, c, BishopOffsets, true) <==>
      && m == Move(s, m.to, b[m.to], None)
      && DiagonalLine(s, m.to) && ClearPath(b, s, m.to) && Enterable(b, c, m.to)
  {
    RaysMembers(b, s, c, BishopOffsets, true, m);
    DiagonalDirection(s, m.to);
    if m in Rays(b, s, c, BishopOffsets, true) {
      var i :| 0 <= i < 4 && m in Ray(b, s, c, s, BishopOffsets[i], true);
      RayMembers(b, s, c, s, BishopOffsets[i], true, m);
      BishopDirections(BishopOffsets[i]);
    }
    if m == Move(s, m.to, b[m.to], None) && DiagonalLine(s, m.to) && ClearPath(b, s, m.to)
       && Enterable(b, c, m.to) {
      var d := DirectionOf(s, m.to);
      BishopDirections(d);
      var i :| 0 <= i < 4 && BishopOffsets[i] == d;
      RayMembers(b, s, c, s, d, true, m);
    }
  }

  /** The four orthogonal walks yield exactly the moves along clear files and ranks. */
  lemma OrthogonalMembers(b: Board, s: Square, c: Color, m: Move)
    ensures m in Rays(b, s, c, RookOffsets, false) <==>
      && m == Move(s, m.to, b[m.to], None)
      && OrthogonalLine(s, m.to) && ClearPath(b, s, m.to) && Enterable(b, c, m.to)
  {
    RaysMembers(b, s, c, RookOffsets, false, m);
    OrthogonalDirection(s, m.to);
    if m in Rays(b, s, c, RookOffsets, false) {
      var i :| 0 <= i < 4 && m in Ray(b, s, c, s, RookOffsets[i], false);
      RayMembers(b, s, c, s, RookOffsets[i], false, m);
      RookDirections(RookOffsets[i]);
    }
    if m == Move(s, m.to, b[m.to], None) && OrthogonalLine(s, m.to) && ClearPath(b, s, m.to)
       && Enterable(b, c, m.to) {
      var d := DirectionOf(s, m.to);
      RookDirections(d);
      var i :| 0 <= i < 4 && RookOffsets[i] == d;
      RayMembers(b, s, c, s, d, false, m);
    }
  }

  // ----- Pawns -----

  lemma PawnPushMembers(b: Board, s: Square, c: Color, m: Move)
    ensures m in PawnPushes(b, s, c) <==>
      var fwd := if c == White then -1 else 1;
      var df, dr := FileOf(m.to) - FileOf(s), RankOf(m.to) - RankOf(s);
      && m == Move(s, m.to, b[m.to], m.promo) && Enterable(b, c, m.to)
      && ((df == 0 && dr == fwd && b[m.to] == Empty && PromotesAt(m.to, m.promo))
          || (df == 0 && dr == 2 * fwd && RankOf(s) == (if c == White then 6 else 1)
              && ClearPath(b, s, m.to) && b[m.to] == Empty && m.promo == None))
  {
    var fwd := if c == White then -1 else 1;
    assert PawnDir(c) == 8 * fwd;
    Shift(s, 0, fwd);
    Shift(s, 0, 2 * fwd);
    var to, dbl := s + PawnDir(c), s + 2 * PawnDir(c);
    if OnBoard(dbl) {
      assert Dist(s, dbl) == 2;
      assert Along(s, dbl, 1) == to;
      assert ClearPath(b, s, dbl) <==> b[to] == Empty;
    }
    var df, dr := FileOf(m.to) - FileOf(s), RankOf(m.to) - RankOf(s);
    if df == 0 && dr == fwd {
      assert m.to == to;
    }
    if df == 0 && dr == 2 * fwd {
      assert m.to == dbl;
      if RankOf(s) == (if c == White then 6 else 1) && ClearPath(b, s, m.to) {
        assert Along(s, m.to, 1) == to;
      }
    }
  }

  lemma PawnCaptureMembers(b: Board, s: Square, c: Color, dx: int, m: Move)
    requires dx == -1 || dx == 1
    ensures m in PawnCapture(b, s, c, PawnDir(c) + dx) <==>
      var fwd := if c == White then -1 else 1;
      && m == Move(s, m.to, b[m.to], m.promo) && Enterable(b, c, m.to)
      && FileOf(m.to) - FileOf(s) == dx && RankOf(m.to) - RankOf(s) == fwd
      && b[m.to].Occupied? && b[m.to].color != c && PromotesAt(m.to, m.promo)
  {
    var fwd := if c == White then -1 else 1;
    assert PawnDir(c) + dx == 8 * fwd + dx;
    PawnDiagonal(s, fwd, dx);
    Shift(s, dx, fwd);
    if FileOf(m.to) - FileOf(s) == dx && RankOf(m.to) - RankOf(s) == fwd {
      assert m.to == s + PawnDir(c) + dx;
    }
  }

  /** The pawn generator yields exactly the moves of the pawn rule. */
  lemma PawnMembers(b: Board, s: Square, c: Color, m: Move)
    ensures m in PawnMoves(b, s, c) <==>
      m == Move(s, m.to, b[m.to], m.promo) && Enterable(b, c, m.to) && PawnRule(b, c, s, m.to, m.promo)
  {
    PawnPushMembers(b, s, c, m);
    PawnCaptureMembers(b, s, c, -1, m);
    PawnCaptureMembers(b, s, c, 1, m);
  }

  // ----- Whole board -----

  /** The moves generated for one square are exactly the pseudo-legal moves from it. */
  lemma PieceMovesMembers(pos: Position, s: Square, m: Move)
    ensures m in PieceMoves(pos, s) <==> m.from == s && PseudoLegal(pos, m)
  {
    var b := pos.board;
    if b[s].Occupied? && b[s].color == pos.side {
      var c := pos.side;
      match b[s].kind
      case Pawn => PawnMembers(b, s, c, m);
      case Knight => LeapsMembers(b, s, c, KnightOffsets, 2, m); KnightTable(s, m.to);
      case Bishop => DiagonalMembers(b, s, c, m);
      case Rook => OrthogonalMembers(b, s, c, m);
      case Queen => DiagonalMembers(b, s, c, m); OrthogonalMembers(b, s, c, m);
      case King => LeapsMembers(b, s, c, KingOffsets, 1, m); KingTable(s, m.to);
    }
  }

  lemma {:induction false} MovesFromMembers(pos: Position, s: nat, m: Move)
    requires s <= 64
    ensures m in MovesFrom(pos, s) <==> s <= m.from && PseudoLegal(pos, m)
    decreases 64 - s
  {
    if s < 64 {
      PieceMovesMembers(pos, s, m);
      MovesFromMembers(pos, s + 1, m);
    }
  }

  /** The generator yields exactly the pseudo-legal moves. */
  lemma GenerateMovesIff(pos: Position, m: Move)
    ensures m in GenerateMoves(pos) <==> PseudoLegal(pos, m)
  {
    MovesFromMembers(pos, 0, m);
  }

  /** What every generated move carries: a piece of the side to move, the true
      content of the target, which is neither an own piece nor a king, and a
      queen promotion only on a pawn move. */
  lemma GeneratedMove(pos: Position, m: Move)
    requires m in GenerateMoves(pos)
    ensures Owns(pos.board[m.from], pos.side)
    ensures m.captured == pos.board[m.to] && !IsKing(m.captured) && !Owns(m.captured, pos.side)
    ensures m.from != m.to
    ensures m.promo.Some? ==> m.promo == Some(Queen) && pos.board[m.from].kind == Pawn
  {
    GenerateMovesIff(pos, m);
  }
}
