/** Static evaluation (chess.cpp:70-89, 434-445): white material minus black
    material, seen from the side to move. */
module Evaluation {
  import opened Squares
  import opened Pieces
  import opened MoveGen
  import opened MoveRules
  import opened MakeUndo

  /** A cell's contribution to the white-minus-black sum. */
  function SignedValue(c: Cell): (v: int)
    ensures c.Empty? ==> v == 0
    ensures Owns(c, White) ==> v == PieceValue(c)
    ensures Owns(c, Black) ==> v == -PieceValue(c)
  {
    if IsWhite(c) then PieceValue(c) else -PieceValue(c)
  }

  /** White material minus black material over the cells from index `i` on. */
  function MaterialFrom(cells: seq<Cell>, i: nat): (sum: int)
    requires i <= |cells|
    ensures -20000 * (|cells| - i) <= sum <= 20000 * (|cells| - i)
    decreases |cells| - i
  {
    if i == |cells| then 0 else SignedValue(cells[i]) + MaterialFrom(cells, i + 1)
  }

  /** White material minus black material over the cells. */
  function Material(cells: seq<Cell>): (sum: int)
    ensures -20000 * |cells| <= sum <= 20000 * |cells|
  {
    MaterialFrom(cells, 0)
  }

  /** The source's `evaluate`: the material balance for the side to move. */
  function Evaluate(pos: Position): (score: int)
    ensures -1280000 <= score <= 1280000
  {
    if pos.side == White then Material(pos.board) else -Material(pos.board)
  }

  /** The same board with the other side to move scores the negation. */
  lemma EvaluateSideFlip(b: Board, side: Color)
    ensures Evaluate(Position(b, Opponent(side))) == -Evaluate(Position(b, side))
  {
  }

  /** Every piece with its color swapped. */
  function SwapColors(cells: seq<Cell>): (r: seq<Cell>)
    ensures |r| == |cells|
    ensures forall i :: 0 <= i < |cells| ==> r[i] == (if cells[i].Empty? then Empty
      else Occupied(Opponent(cells[i].color), cells[i].kind))
  {
    seq(|cells|, i requires 0 <= i < |cells| =>
      if cells[i].Empty? then Empty else Occupied(Opponent(cells[i].color), cells[i].kind))
  }

  lemma {:induction false} MaterialSwap(cells: seq<Cell>, i: nat)
    requires i <= |cells|
    ensures MaterialFrom(SwapColors(cells), i) == -MaterialFrom(cells, i)
    decreases |cells| - i
  {
    if i < |cells| {
      MaterialSwap(cells, i + 1);
    }
  }

  /** Swapping every piece's color and the side to move leaves the score unchanged. */
  lemma EvaluateColorSwap(b: Board, side: Color)
    ensures Evaluate(Position(SwapColors(b), Opponent(side))) == Evaluate(Position(b, side))
  {
    MaterialSwap(b, 0);
  }

  /** Replacing one cell changes the sum by the difference of the two values. */
  lemma {:induction false} MaterialUpdate(cells: seq<Cell>, j: nat, i: nat, x: Cell)
    requires j <= |cells| && i < |cells|
    ensures MaterialFrom(cells[i := x], j) ==
      MaterialFrom(cells, j) + (if j <= i then SignedValue(x) - SignedValue(cells[i]) else 0)
    decreases |cells| - j
  {
    if j < |cells| {
      MaterialUpdate(cells, j + 1, i, x);
    }
  }

  /** Moving a cell from `from` to `to` (landing as `landed`) changes the
      material by the landed value minus the two cells it replaces. */
  lemma MaterialMove(b: Board, from: Square, to: Square, landed: Cell)
    requires from != to
    ensures Material(b[to := landed][from := Empty]) ==
      Material(b) + SignedValue(landed) - SignedValue(b[to]) - SignedValue(b[from])
  {
    MaterialUpdate(b, 0, to, landed);
    MaterialUpdate(b[to := landed], 0, from, Empty);
  }

  /** A generated move's effect on the material seen from the mover: the
      captured piece and, for a promotion, a queen in place of a pawn. */
  lemma MoverGain(pos: Position, m: Move)
    requires Owns(pos.board[m.from], pos.side)
    requires m.captured == pos.board[m.to] && !Owns(m.captured, pos.side)
    requires m.promo.Some? ==> m.promo == Some(Queen) && pos.board[m.from].kind == Pawn
    ensures var landed := Landing(pos.board[m.from], m.promo);
      (if pos.side == White then 1 else -1) * (SignedValue(landed) - SignedValue(pos.board[m.to]) - SignedValue(pos.board[m.from]))
        == PieceValue(m.captured) + (if m.promo.Some? then 800 else 0)
  {
  }

  /** Seen from the mover, a generated move gains the captured piece's value,
      and a promotion the difference between a queen and a pawn. */
  lemma MoveGain(pos: Position, m: Move)
    requires m in GenerateMoves(pos)
    ensures Evaluate(MakeMove(pos, m)) ==
      -(Evaluate(pos) + PieceValue(m.captured) + (if m.promo.Some? then 800 else 0))
  {
    GeneratedMove(pos, m);
    var b := pos.board;
    var landed := Landing(b[m.from], m.promo);
    MaterialMove(b, m.from, m.to, landed);
    MoverGain(pos, m);
    assert MakeMove(pos, m).board == b[m.to := landed][m.from := Empty];
  }
}
