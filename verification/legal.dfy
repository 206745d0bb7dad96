/** Legal move generation (chess.cpp:234-257): the pseudo-legal moves after
    which the mover's own king is not attacked. The test places the piece
    without promoting it; a pawn and a queen of the mover block the same
    lines, so the answer is the one the promoted position would give. */
module Legality {
  import opened Squares
  import opened Pieces
  import opened Geometry
  import opened MoveGen
  import opened MoveRules
  import opened Attacks
  import opened AttackRules
  import opened MakeUndo

  /** The source's test on one move: with the piece placed, the mover's king
      stands unattacked. A mover without a king passes no move. */
  predicate Safe(pos: Position, m: Move) {
    var after := Placed(pos, m);
    HasKing(after.board, pos.side) && !IsInCheck(after, pos.side)
  }

  /** The safe moves of `ms`, in their order. */
  function KeepSafe(pos: Position, ms: seq<Move>): (r: seq<Move>)
    ensures |r| <= |ms|
    ensures forall m :: m in r <==> m in ms && Safe(pos, m)
    decreases |ms|
  {
    if ms == [] then []
    else
      var last := ms[|ms| - 1];
      assert forall m :: m in ms <==> m in ms[..|ms| - 1] || m == last;
      KeepSafe(pos, ms[..|ms| - 1]) + (if Safe(pos, last) then [last] else [])
  }

  lemma KeepSafeSnoc(pos: Position, ms: seq<Move>, m: Move)
    ensures KeepSafe(pos, ms + [m]) == KeepSafe(pos, ms) + (if Safe(pos, m) then [m] else [])
  {
    assert (ms + [m])[..|ms|] == ms;
  }

  /** The legal moves, in generation order. */
  function LegalMoves(pos: Position): seq<Move> {
    KeepSafe(pos, GenerateMoves(pos))
  }

  // ----- The position after a move, with and without promotion -----

  /** Two boards that agree on which squares are empty and on every piece of
      `attacker` give `attacker` the same attacks. */
  lemma AttackedFrame(b1: Board, b2: Board, t: Square, attacker: Color)
    requires forall i :: 0 <= i < 64 ==> (b1[i] == Empty <==> b2[i] == Empty)
    requires forall i :: 0 <= i < 64 ==> (Owns(b1[i], attacker) || Owns(b2[i], attacker) ==> b1[i] == b2[i])
    ensures Attacked(b1, t, attacker) <==> Attacked(b2, t, attacker)
  {
    forall u: Square
      ensures ClearPath(b1, u, t) <==> ClearPath(b2, u, t)
    {
    }
    if Attacked(b1, t, attacker) {
      var u: Square :| Owns(b1[u], attacker) && Strikes(b1, u, t);
      assert Owns(b2[u], attacker) && Strikes(b2, u, t);
    }
    if Attacked(b2, t, attacker) {
      var u: Square :| Owns(b2[u], attacker) && Strikes(b2, u, t);
      assert Owns(b1[u], attacker) && Strikes(b1, u, t);
    }
  }

  /** Boards with the same king squares of color `c` find the same one first. */
  lemma KingSquareFrame(b1: Board, b2: Board, c: Color)
    requires HasKing(b1, c)
    requires forall i :: 0 <= i < 64 ==> (b1[i] == Occupied(c, King) <==> b2[i] == Occupied(c, King))
    ensures HasKing(b2, c) && KingSquare(b1, c) == KingSquare(b2, c)
  {
    var k := KingSquare(b1, c);
    assert b2[k] == Occupied(c, King);
  }

  /** Promoting the moved pawn does not change whether the mover is in check. */
  lemma PromotionIrrelevant(pos: Position, m: Move)
    requires m in GenerateMoves(pos)
    requires HasKing(pos.board, pos.side)
    ensures HasKing(MakeMove(pos, m).board, pos.side) && HasKing(Placed(pos, m).board, pos.side)
    ensures IsInCheck(MakeMove(pos, m), pos.side) <==> IsInCheck(Placed(pos, m), pos.side)
  {
    GeneratedMove(pos, m);
    MoveKeepsKings(pos, m, pos.side);
    var b1, b2 := MakeMove(pos, m).board, Placed(pos, m).board;
    var c := pos.side;
    forall i | 0 <= i < 64
      ensures (b1[i] == Empty <==> b2[i] == Empty)
      ensures (Owns(b1[i], Opponent(c)) || Owns(b2[i], Opponent(c)) ==> b1[i] == b2[i])
      ensures (b1[i] == Occupied(c, King) <==> b2[i] == Occupied(c, King))
    {
      if i == m.to {
        assert Owns(b1[i], c) && Owns(b2[i], c);
      }
    }
    KingSquareFrame(b1, b2, c);
    var k := KingSquare(b1, c);
    AttackedFrame(b1, b2, k, Opponent(c));
    IsAttackedIff(b1, k, Opponent(c));
    IsAttackedIff(b2, k, Opponent(c));
  }

  /** A move is legal exactly when it is pseudo-legal and, once made with its
      promotion, leaves the mover's king on the board and unattacked. */
  lemma LegalMovesIff(pos: Position, m: Move)
    requires HasKing(pos.board, pos.side)
    ensures m in LegalMoves(pos) <==>
      && PseudoLegal(pos, m)
      && HasKing(MakeMove(pos, m).board, pos.side)
      && !IsInCheck(MakeMove(pos, m), pos.side)
  {
    GenerateMovesIff(pos, m);
    if m in GenerateMoves(pos) {
      PromotionIrrelevant(pos, m);
    }
  }

  /** The whole legal list, move by move. */
  lemma LegalListIff(pos: Position)
    requires HasKing(pos.board, pos.side)
    ensures forall m :: m in LegalMoves(pos) <==>
      PseudoLegal(pos, m) && HasKing(MakeMove(pos, m).board, pos.side) && !IsInCheck(MakeMove(pos, m), pos.side)
  {
    forall m
      ensures m in LegalMoves(pos) <==>
        PseudoLegal(pos, m) && HasKing(MakeMove(pos, m).board, pos.side) && !IsInCheck(MakeMove(pos, m), pos.side)
    {
      LegalMovesIff(pos, m);
    }
  }

  lemma RecordsCaptures(pos: Position)
    ensures forall j :: 0 <= j < |GenerateMoves(pos)| ==>
      GenerateMoves(pos)[j].captured == pos.board[GenerateMoves(pos)[j].to]
  {
    forall j | 0 <= j < |GenerateMoves(pos)|
      ensures GenerateMoves(pos)[j].captured == pos.board[GenerateMoves(pos)[j].to]
    {
      GeneratedMove(pos, GenerateMoves(pos)[j]);
    }
  }

  /** One pass of the source's loop body: make the move in place, test, take
      it back. */
  method TryMove(p: Position, mv: Move, legal: seq<Move>) returns (p': Position, legal': seq<Move>)
    requires mv.captured == p.board[mv.to]
    ensures p' == p
    ensures legal' == legal + (if Safe(p, mv) then [mv] else [])
  {
    UndoMakeIff(p, mv.(promo := None));
    var side := p.side;
    p' := Position(p.board[mv.to := p.board[mv.from]][mv.from := Empty], Opponent(p.side));
    assert p' == Placed(p, mv);
    legal' := legal;
    if HasKing(p'.board, side) && !IsInCheck(p', side) {
      legal' := legal + [mv];
    }
    p' := Position(p'.board[mv.from := p'.board[mv.to]][mv.to := mv.captured], Opponent(p'.side));
    assert p' == UndoMove(Placed(p, mv), mv.(promo := None));
  }

  /** The source's loop over the pseudo-legal moves `raw` of `pos`: each is
      made in place, the mover's king tested, and the move taken back. */
  method FilterInPlace(pos: Position, raw: seq<Move>) returns (legal: seq<Move>)
    requires forall j :: 0 <= j < |raw| ==> raw[j].captured == pos.board[raw[j].to]
    ensures legal == KeepSafe(pos, raw)
  {
    var p := pos;
    legal := [];
    var i := 0;
    while i < |raw|
      invariant 0 <= i <= |raw|
      invariant p == pos
      invariant legal == KeepSafe(pos, raw[..i])
    {
      p, legal := TryMove(p, raw[i], legal);
      KeepSafeSnoc(pos, raw[..i], raw[i]);
      assert raw[..i + 1] == raw[..i] + [raw[i]];
      i := i + 1;
    }
    assert raw[..|raw|] == raw;
  }

  /** The source's `generateLegalMoves`. */
  method GenerateLegalMoves(pos: Position) returns (legal: seq<Move>)
    ensures legal == LegalMoves(pos)
    ensures HasKing(pos.board, pos.side) ==> forall m :: m in legal <==>
      PseudoLegal(pos, m) && HasKing(MakeMove(pos, m).board, pos.side) && !IsInCheck(MakeMove(pos, m), pos.side)
  {
    RecordsCaptures(pos);
    legal := FilterInPlace(pos, GenerateMoves(pos));
    if HasKing(pos.board, pos.side) {
      LegalListIff(pos);
    }
  }
}
