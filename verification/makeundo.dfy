/** Making and taking back a move (chess.cpp:415-432). The move carries the
    captured cell, so taking it back needs nothing else; a promoted piece is
    turned back into a pawn of its own color. */
module MakeUndo {
  import opened Squares
  import opened Pieces
  import opened MoveGen
  import opened MoveRules

  /** What lands on the target square: the promotion piece in the mover's
      color (white for a white mover, black for anything else), or the moving
      piece itself. */
  function Landing(pc: Cell, promo: Option<Kind>): (r: Cell)
    ensures promo.None? ==> r == pc
    ensures promo.Some? ==> r.Occupied? && r.kind == promo.value && (IsWhite(r) <==> IsWhite(pc))
  {
    match promo
    case None => pc
    case Some(k) => Occupied(if IsWhite(pc) then White else Black, k)
  }

  /** The source's `makeMove`: the piece leaves its square, lands (possibly
      promoted) on the target, and the other side is to move. */
  function MakeMove(pos: Position, m: Move): (r: Position)
    ensures r.side == Opponent(pos.side)
    ensures r.board[m.from] == Empty
    ensures m.from != m.to ==> r.board[m.to] == Landing(pos.board[m.from], m.promo)
    ensures forall i :: 0 <= i < 64 && i != m.from && i != m.to ==> r.board[i] == pos.board[i]
  {
    Position(pos.board[m.to := Landing(pos.board[m.from], m.promo)][m.from := Empty], Opponent(pos.side))
  }

  /** The source's `undoMove`: the piece on the target goes back (as a pawn of
      its color if the move promoted) and the captured cell is restored. */
  function UndoMove(pos: Position, m: Move): (r: Position)
    ensures r.side == Opponent(pos.side)
    ensures r.board[m.to] == m.captured
    ensures m.from != m.to ==> (r.board[m.from] ==
      if m.promo.Some? then Occupied(if IsWhite(pos.board[m.to]) then White else Black, Pawn)
      else pos.board[m.to])
    ensures forall i :: 0 <= i < 64 && i != m.from && i != m.to ==> r.board[i] == pos.board[i]
  {
    var b := pos.board;
    var back := if m.promo.Some? then Occupied(if IsWhite(b[m.to]) then White else Black, Pawn) else b[m.to];
    Position(b[m.from := back][m.to := m.captured], Opponent(pos.side))
  }

  /** The source's in-place trial move in `generateLegalMoves`
      (chess.cpp:243-245): the piece is moved without promoting. */
  function Placed(pos: Position, m: Move): Position {
    MakeMove(pos, m.(promo := None))
  }

  /** The move records the true content of its target and, if it promotes,
      moves a pawn. */
  predicate Reversible(pos: Position, m: Move) {
    && m.captured == pos.board[m.to]
    && (m.from != m.to && m.promo.Some? ==> pos.board[m.from].Occupied? && pos.board[m.from].kind == Pawn)
  }

  /** Taking a move back restores the position exactly when the move is
      reversible. */
  lemma UndoMakeIff(pos: Position, m: Move)
    ensures UndoMove(MakeMove(pos, m), m) == pos <==> Reversible(pos, m)
  {
    var r := UndoMove(MakeMove(pos, m), m);
    var pc := pos.board[m.from];
    if m.captured == pos.board[m.to]
       && (m.from != m.to && m.promo.Some? ==> pc.Occupied? && pc.kind == Pawn) {
      assert r.board == pos.board by {
        forall i | 0 <= i < 64
          ensures r.board[i] == pos.board[i]
        {
        }
      }
    }
    if r == pos && m.from != m.to && m.promo.Some? {
      assert r.board[m.from] == pc;
    }
  }

  /** Every generated move can be taken back. */
  lemma UndoMakeGenerated(pos: Position, m: Move)
    requires m in GenerateMoves(pos)
    ensures Reversible(pos, m)
    ensures UndoMove(MakeMove(pos, m), m) == pos
    ensures UndoMove(Placed(pos, m), m.(promo := None)) == pos
  {
    GeneratedMove(pos, m);
    UndoMakeIff(pos, m);
    UndoMakeIff(pos, m.(promo := None));
  }

  /** A generated move never removes a king: the target holds none, and a
      king that moves lands unpromoted on its target. */
  lemma MoveKeepsKings(pos: Position, m: Move, c: Color)
    requires m in GenerateMoves(pos)
    requires HasKing(pos.board, c)
    ensures HasKing(MakeMove(pos, m).board, c)
    ensures HasKing(Placed(pos, m).board, c)
  {
    GeneratedMove(pos, m);
    var k :| 0 <= k < 64 && pos.board[k] == Occupied(c, King);
    var after, placed := MakeMove(pos, m).board, Placed(pos, m).board;
    if k == m.from {
      assert after[m.to] == Occupied(c, King) && placed[m.to] == Occupied(c, King);
    } else {
      assert after[k] == Occupied(c, King) && placed[k] == Occupied(c, King);
    }
  }
}
