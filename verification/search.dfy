/** The engine's search (chess.cpp:449-543): negamax with alpha-beta
    pruning, mate and stalemate scores, MVV-LVA move ordering and a
    transposition table. The table is a map passed in and handed back. The
    position is a value: the source makes each move in place and takes it
    back after the child search, which gives the node's position back
    exactly (`TakenBack`), so the loop goes on from the same position. */
module TreeSearch {
  import opened Squares
  import opened Pieces
  import opened MoveGen
  import opened Attacks
  import opened MakeUndo
  import opened Legality
  import opened Evaluation
  import opened Ordering
  import opened GameTree

  /** The score of being mated, before the depth bonus. */
  const MateScore: int := 100000

  /** What the source's table key encodes: board, side to move and depth. */
  datatype Key = Key(board: Board, side: Color, depth: int)
  datatype Entry = Entry(depth: int, score: int)
  type Table = map<Key, Entry>

  /** The result of a search call: the score and the table after it. */
  datatype Outcome = Outcome(score: int, table: Table)

  function KeyOf(pos: Position, depth: int): Key {
    Key(pos.board, pos.side, depth)
  }

  /** Every entry is as the search writes it: stored under its own depth,
      which is at least 1, with a score inside the window bounds. */
  ghost predicate WellFormed(tt: Table) {
    forall k :: k in tt ==> tt[k].depth == k.depth && k.depth >= 1 && -Infinity <= tt[k].score <= Infinity
  }

  ghost predicate InWindow(alpha: int, beta: int) {
    -Infinity <= alpha <= beta <= Infinity
  }

  /** The table answers for this node: an entry at least as deep. */
  predicate Hit(tt: Table, key: Key) {
    key in tt && tt[key].depth >= key.depth
  }

  /** The score of a position without legal moves: mated, with the
      remaining depth added, or stalemate. Since `depth` counts the plies
      still to search, a mate nearer the root scores higher for the mated
      side and so lower for the side that mates (see MateSoonerScoresLower).
      A side without a king (a position no game reaches) counts as not in
      check. */
  function NoMovesScore(pos: Position, depth: int): (v: int)
    ensures 0 <= depth < MateScore ==>
      -MateScore <= v <= 0 && (v < 0 <==> HasKing(pos.board, pos.side) && IsInCheck(pos, pos.side))
  {
    if HasKing(pos.board, pos.side) && IsInCheck(pos, pos.side) then -MateScore + depth else 0
  }

  /** The moves of a node in search order. */
  function OrderedMoves(pos: Position): (ms: seq<Move>)
    ensures forall m :: m in ms <==> m in LegalMoves(pos)
  {
    SortMovesMembersAll(pos.board, LegalMoves(pos));
    SortMoves(pos.board, LegalMoves(pos))
  }

  lemma SortMovesMembersAll(b: Board, ms: seq<Move>)
    ensures forall m :: m in SortMoves(b, ms) <==> m in ms
  {
    forall m
      ensures m in SortMoves(b, ms) <==> m in ms
    {
      SortMovesMembers(b, ms, m);
    }
  }

  /** Every legal move keeps both kings on the board, so a game that starts
      with both kings keeps them. */
  lemma LegalKeepsKings(pos: Position)
    requires HasKings(pos.board)
    ensures forall m :: m in LegalMoves(pos) ==> HasKings(MakeMove(pos, m).board)
  {
    forall m | m in LegalMoves(pos)
      ensures HasKings(MakeMove(pos, m).board)
    {
      MoveKeepsKings(pos, m, White);
      MoveKeepsKings(pos, m, Black);
    }
  }

  /** Taking each of the search's moves back after its child search gives the
      node's position back exactly, so the loop goes on from the same
      position. */
  lemma TakenBack(pos: Position)
    ensures forall m :: m in OrderedMoves(pos) ==> UndoMove(MakeMove(pos, m), m) == pos
  {
    forall m | m in OrderedMoves(pos)
      ensures UndoMove(MakeMove(pos, m), m) == pos
    {
      UndoMakeGenerated(pos, m);
    }
  }

  /** The source's `alphaBetaSearch`: a table entry at least as deep
      answers at once; depth 0 returns the static evaluation, uncached. */
  function Search(pos: Position, depth: nat, alpha: int, beta: int, tt: Table): (r: Outcome)
    ensures Hit(tt, KeyOf(pos, depth)) ==> r.score == tt[KeyOf(pos, depth)].score && r.table == tt
    ensures !Hit(tt, KeyOf(pos, depth)) && depth == 0 ==> r.table == tt
    ensures !Hit(tt, KeyOf(pos, depth)) && depth > 0 ==>
      KeyOf(pos, depth) in r.table && r.table[KeyOf(pos, depth)] == Entry(depth, r.score)
    ensures WellFormed(tt) && InWindow(alpha, beta) && depth < MateScore ==>
      WellFormed(r.table) && -Infinity <= r.score <= Infinity
    decreases depth, 2, 0
  {
    var key := KeyOf(pos, depth);
    if Hit(tt, key) then Outcome(tt[key].score, tt)
    else if depth == 0 then Outcome(Evaluate(pos), tt)
    else SearchNode(pos, depth, alpha, beta, tt)
  }

  /** A node the table does not answer, above the leaves: mate or stalemate
      when there is no legal move, else the loop over the ordered moves. */
  function SearchNode(pos: Position, depth: nat, alpha: int, beta: int, tt: Table): (r: Outcome)
    requires depth >= 1
    ensures KeyOf(pos, depth) in r.table && r.table[KeyOf(pos, depth)] == Entry(depth, r.score)
    ensures WellFormed(tt) && InWindow(alpha, beta) && depth < MateScore ==>
      WellFormed(r.table) && -Infinity <= r.score <= Infinity
    decreases depth, 1, 0
  {
    var key := KeyOf(pos, depth);
    if LegalMoves(pos) == [] then
      var v := NoMovesScore(pos, depth);
      Outcome(v, tt[key := Entry(depth, v)])
    else SearchMoves(pos, depth, alpha, beta, OrderedMoves(pos), -Infinity, tt)
  }

  /** The loop over the ordered moves of a node at `depth`: each child is
      searched with the negated window; a score reaching `beta` stores and
      returns `beta`; otherwise the best score is stored and returned. */
  function SearchMoves(pos: Position, depth: nat, alpha: int, beta: int, ms: seq<Move>, best: int, tt: Table): (r: Outcome)
    requires depth >= 1
    ensures KeyOf(pos, depth) in r.table && r.table[KeyOf(pos, depth)] == Entry(depth, r.score)
    ensures best <= beta ==> best <= r.score <= beta
    ensures WellFormed(tt) && InWindow(alpha, beta) && -Infinity <= best <= Infinity && depth < MateScore ==>
      WellFormed(r.table) && -Infinity <= r.score <= Infinity
    decreases depth, 0, |ms|
  {
    var key := KeyOf(pos, depth);
    if ms == [] then Outcome(best, tt[key := Entry(depth, best)])
    else
      var sub := Search(MakeMove(pos, ms[0]), depth - 1, -beta, -alpha, tt);
      var score := -sub.score;
      if score >= beta then Outcome(beta, sub.table[key := Entry(depth, beta)])
      else SearchMoves(pos, depth, Max(alpha, score), beta, ms[1..], Max(best, score), sub.table)
  }

  // ----- What a search returns -----

  /** One turn of the loop: the first child is searched with the negated
      window, and the loop stops at `beta` or goes on with the child's table. */
  lemma SearchMovesStep(pos: Position, depth: nat, alpha: int, beta: int, ms: seq<Move>, best: int, tt: Table)
    requires depth >= 1 && ms != []
    ensures var sub := Search(MakeMove(pos, ms[0]), depth - 1, -beta, -alpha, tt);
      var score := -sub.score;
      SearchMoves(pos, depth, alpha, beta, ms, best, tt) ==
        if score >= beta then Outcome(beta, sub.table[KeyOf(pos, depth) := Entry(depth, beta)])
        else SearchMoves(pos, depth, Max(alpha, score), beta, ms[1..], Max(best, score), sub.table)
  {
  }

  /** A child reaching `beta` cuts the loop off: the node returns exactly
      `beta` and stores it under its key, whatever the remaining moves. */
  lemma SearchMovesFailHigh(pos: Position, depth: nat, alpha: int, beta: int, ms: seq<Move>, best: int, tt: Table)
    requires depth >= 1 && ms != []
    requires -Search(MakeMove(pos, ms[0]), depth - 1, -beta, -alpha, tt).score >= beta
    ensures SearchMoves(pos, depth, alpha, beta, ms, best, tt).score == beta
    ensures SearchMoves(pos, depth, alpha, beta, ms, best, tt).table[KeyOf(pos, depth)] == Entry(depth, beta)
  {
  }

  /** A search the table does not answer at depth 0 returns the evaluation. */
  lemma SearchLeaf(pos: Position, alpha: int, beta: int, tt: Table)
    requires !Hit(tt, KeyOf(pos, 0))
    ensures Search(pos, 0, alpha, beta, tt).score == Evaluate(pos)
  {
  }

  /** Without a legal move a search the table does not answer scores a mate,
      `depth - 100000`, when the side to move is in check, and a draw
      otherwise. */
  lemma SearchNoMoves(pos: Position, depth: nat, alpha: int, beta: int, tt: Table)
    requires HasKings(pos.board)
    requires depth > 0 && !Hit(tt, KeyOf(pos, depth)) && LegalMoves(pos) == []
    ensures HasKing(pos.board, pos.side)
    ensures Search(pos, depth, alpha, beta, tt).score == (if IsInCheck(pos, pos.side) then depth - MateScore else 0)
  {
    SideKing(pos.board, pos.side);
  }

  /** As written, a mate nearer the root is worth less to the side that
      mates: a mated position searched with more plies left (reached
      sooner) scores higher for the mated side than the same mate with
      fewer plies left, so the root prefers the slower mate. */
  lemma MateSoonerScoresLower(pos: Position, near: nat, far: nat, alpha: int, beta: int, tt: Table)
    requires HasKing(pos.board, pos.side) && IsInCheck(pos, pos.side) && LegalMoves(pos) == []
    requires 0 < far < near
    requires !Hit(tt, KeyOf(pos, near)) && !Hit(tt, KeyOf(pos, far))
    ensures -Search(pos, near, alpha, beta, tt).score < -Search(pos, far, alpha, beta, tt).score
  {
  }

  /** The mate score the source's comment intends: the plies still to search
      are subtracted, so that a mate nearer the root is a heavier loss for
      the mated side and worth more to the side that mates. */
  function NoMovesScoreCorrected(pos: Position, depth: int): (v: int)
    ensures 0 <= depth < MateScore ==>
      -2 * MateScore < v <= 0 && (v < 0 <==> HasKing(pos.board, pos.side) && IsInCheck(pos, pos.side))
    ensures depth >= 0 && v < 0 ==> v <= -MateScore
  {
    if HasKing(pos.board, pos.side) && IsInCheck(pos, pos.side) then -MateScore - depth else 0
  }

  /** With the corrected score the sooner mate is the better one for the
      side that mates, and every mate scores below every stalemate. */
  lemma MateSoonerScoresHigher(pos: Position, near: nat, far: nat)
    requires HasKing(pos.board, pos.side) && IsInCheck(pos, pos.side)
    requires far < near < MateScore
    ensures -NoMovesScoreCorrected(pos, near) > -NoMovesScoreCorrected(pos, far) > 0
  {
  }

  /** With legal moves and a window inside the bounds, a search the table
      does not answer never scores above `beta`; a first child reaching
      `beta` makes the node return `beta` itself and store it under the
      node's key. */
  lemma SearchFailHard(pos: Position, depth: nat, alpha: int, beta: int, tt: Table)
    requires depth > 0 && !Hit(tt, KeyOf(pos, depth)) && LegalMoves(pos) != []
    requires InWindow(alpha, beta)
    ensures Search(pos, depth, alpha, beta, tt).score <= beta
    ensures OrderedMoves(pos) != []
    ensures var r := Search(pos, depth, alpha, beta, tt);
      -Search(MakeMove(pos, OrderedMoves(pos)[0]), depth - 1, -beta, -alpha, tt).score >= beta ==>
        r.score == beta && r.table[KeyOf(pos, depth)] == Entry(depth, beta)
  {
    assert LegalMoves(pos)[0] in OrderedMoves(pos);
    var ms := OrderedMoves(pos);
    if -Search(MakeMove(pos, ms[0]), depth - 1, -beta, -alpha, tt).score >= beta {
      SearchMovesFailHigh(pos, depth, alpha, beta, ms, -Infinity, tt);
    }
  }
}
