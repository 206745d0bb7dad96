/** Pieces, board cells, positions and the character form of the board
    used by the engine's callers (`board64`). */
module Pieces {
  import opened Squares

  datatype Color = White | Black

  datatype Kind = Pawn | Knight | Bishop | Rook | Queen | King

  /** One board cell. The source stores a `char`: 0 for empty, upper case for
      white, lower case for black. */
  datatype Cell = Empty | Occupied(color: Color, kind: Kind)

  type Board = b: seq<Cell> | |b| == 64 witness seq(64, i => Empty)

  /** The side to move, and the pieces. */
  datatype Position = Position(board: Board, side: Color)

  function Opponent(c: Color): (o: Color)
    ensures o != c
  {
    if c == White then Black else White
  }

  predicate IsKing(c: Cell) {
    c.Occupied? && c.kind == King
  }

  /** The source's `isWhitePiece`: true of upper-case letters only. */
  predicate IsWhite(c: Cell) {
    c.Occupied? && c.color == White
  }

  /** A cell holding a piece of color `c`. */
  predicate Owns(cell: Cell, c: Color) {
    cell.Occupied? && cell.color == c
  }

  /** Material value of a piece in centipawns; 0 for an empty cell. */
  function PieceValue(c: Cell): (v: int)
    ensures c.Empty? <==> v == 0
    ensures 100 <= v <= 20000 || v == 0
    ensures c.Occupied? && c.kind != King ==> v <= 900
    ensures c.Occupied? && c.kind == King ==> v == 20000
  {
    match c
    case Empty => 0
    case Occupied(_, k) =>
      match k
      case Pawn => 100
      case Knight => 320
      case Bishop => 330
      case Rook => 500
      case Queen => 900
      case King => 20000
  }

  /** The value of a kind: pawn < knight < bishop < rook < queen < king. */
  lemma ValueOrder(c: Color)
    ensures PieceValue(Occupied(c, Pawn)) < PieceValue(Occupied(c, Knight))
            < PieceValue(Occupied(c, Bishop)) < PieceValue(Occupied(c, Rook))
            < PieceValue(Occupied(c, Queen)) < PieceValue(Occupied(c, King))
  {
  }

  /** Both sides have a king somewhere: what the check test needs to find one. */
  predicate HasKing(b: Board, c: Color) {
    exists i :: 0 <= i < 64 && b[i] == Occupied(c, King)
  }

  predicate HasKings(b: Board) {
    HasKing(b, White) && HasKing(b, Black)
  }

  lemma SideKing(b: Board, c: Color)
    requires HasKings(b)
    ensures HasKing(b, c)
  {
  }

  // ----- Character form -----

  function KindIndex(k: Kind): (i: nat)
    ensures i < 6
  {
    match k
    case Pawn => 0
    case Knight => 1
    case Bishop => 2
    case Rook => 3
    case Queen => 4
    case King => 5
  }

  /** The source's character for a cell. */
  function CellChar(c: Cell): char {
    match c
    case Empty => 0 as char
    case Occupied(White, k) => "PNBRQK"[KindIndex(k)]
    case Occupied(Black, k) => "pnbrqk"[KindIndex(k)]
  }

  /** Reads a board character; anything outside the piece alphabet reads as empty. */
  function CharCell(ch: char): Cell {
    match ch
    case 'P' => Occupied(White, Pawn)
    case 'N' => Occupied(White, Knight)
    case 'B' => Occupied(White, Bishop)
    case 'R' => Occupied(White, Rook)
    case 'Q' => Occupied(White, Queen)
    case 'K' => Occupied(White, King)
    case 'p' => Occupied(Black, Pawn)
    case 'n' => Occupied(Black, Knight)
    case 'b' => Occupied(Black, Bishop)
    case 'r' => Occupied(Black, Rook)
    case 'q' => Occupied(Black, Queen)
    case 'k' => Occupied(Black, King)
    case _ => Empty
  }

  lemma CellCharRoundTrip(c: Cell)
    ensures CharCell(CellChar(c)) == c
  {
  }

  /** Distinct cells have distinct characters. */
  lemma CellCharInjective(c: Cell, d: Cell)
    ensures CellChar(c) == CellChar(d) <==> c == d
  {
    CellCharRoundTrip(c);
    CellCharRoundTrip(d);
  }

  /** The source's `board64`: the 64 characters, rank 8 to rank 1, file a to h. */
  function Board64(b: Board): (text: string)
    ensures |text| == 64
    ensures forall i :: 0 <= i < 64 ==> CharCell(text[i]) == b[i]
  {
    seq(64, i requires 0 <= i < 64 => CellChar(b[i]))
  }

  /** The board can be read back from its character form. */
  lemma Board64Inverse(b: Board, b': Board)
    ensures Board64(b) == Board64(b') <==> b == b'
  {
    if Board64(b) == Board64(b') {
      forall i | 0 <= i < 64 ensures b[i] == b'[i] {
        assert CharCell(Board64(b)[i]) == b[i];
      }
    }
  }

  /** The standard starting position, white to move. */
  function StartPosition(): (p: Position)
    ensures p.side == White
    ensures HasKings(p.board)
    ensures p.board[60] == Occupied(White, King) && p.board[4] == Occupied(Black, King)
  {
    var back := [Rook, Knight, Bishop, Queen, King, Bishop, Knight, Rook];
    var b := seq(64, i requires 0 <= i < 64 =>
      if i < 8 then Occupied(Black, back[i])
      else if i < 16 then Occupied(Black, Pawn)
      else if i < 48 then Empty
      else if i < 56 then Occupied(White, Pawn)
      else Occupied(White, back[i - 56]));
    assert b[60] == Occupied(White, King) && b[4] == Occupied(Black, King);
    Position(b, White)
  }
}
