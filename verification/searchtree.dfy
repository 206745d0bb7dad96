/** The tree the search walks from a position: at depth 0 the evaluation, a
    position without legal moves its mate or stalemate score, otherwise one
    child per legal move in search order (chess.cpp:472-523 without the
    table). The results about alpha-beta on trees carry over to it. */
module SearchTree {
  import opened Squares
  import opened Pieces
  import opened MoveGen
  import opened Attacks
  import opened MakeUndo
  import opened Legality
  import opened Evaluation
  import opened Ordering
  import opened TreeSearch
  import opened GameTree

  /** The search tree of `pos` to `depth` plies. */
  function Expand(pos: Position, depth: nat): (t: Tree)
    ensures depth < MateScore ==> Bounded(t)
    decreases depth, 1
  {
    if depth == 0 then Leaf(Evaluate(pos))
    else if LegalMoves(pos) == [] then Leaf(NoMovesScore(pos, depth))
    else Node(ExpandAll(pos, depth, OrderedMoves(pos)))
  }

  /** The subtrees of the moves `ms`, in order. */
  function ExpandAll(pos: Position, depth: nat, ms: seq<Move>): (kids: seq<Tree>)
    requires depth >= 1
    ensures |kids| == |ms|
    ensures depth < MateScore ==> forall k :: k in kids ==> Bounded(k)
    decreases depth, 0, |ms|
  {
    if ms == [] then []
    else [Expand(MakeMove(pos, ms[0]), depth - 1)] + ExpandAll(pos, depth, ms[1..])
  }

  /** The tree has a node exactly where the search loops over moves, with
      one child per legal move. */
  lemma ExpandShape(pos: Position, depth: nat)
    ensures Expand(pos, depth).Node? <==> depth > 0 && LegalMoves(pos) != []
    ensures Expand(pos, depth).Node? ==> |Expand(pos, depth).kids| == |LegalMoves(pos)|
  {
    SortMovesMembers(pos.board, LegalMoves(pos), Move(0, 0, Empty, None));
  }

  /** Searched with the full window, alpha-beta without the table finds the
      negamax value of every position, at every depth below the mate score. */
  lemma ExpandFullWindow(pos: Position, depth: nat)
    requires depth < MateScore
    ensures AlphaBeta(Expand(pos, depth), -Infinity, Infinity) == Negamax(Expand(pos, depth))
  {
    NegamaxBounded(Expand(pos, depth));
    AlphaBetaFullWindow(Expand(pos, depth));
  }

  /** The subtrees are exactly the trees of the positions after the moves. */
  lemma {:induction false} ExpandAllMembers(pos: Position, depth: nat, ms: seq<Move>, k: Tree)
    requires depth >= 1
    ensures k in ExpandAll(pos, depth, ms) <==>
      exists m :: m in ms && k == Expand(MakeMove(pos, m), depth - 1)
    decreases |ms|
  {
    if ms != [] {
      ExpandAllMembers(pos, depth, ms[1..], k);
      assert forall m :: m in ms <==> m == ms[0] || m in ms[1..];
    }
  }

  /** The MVV-LVA order does not change the negamax value: the children in
      generation order give the same maximum. */
  lemma OrderingKeepsValue(pos: Position, depth: nat, best: int)
    requires depth >= 1
    ensures NegamaxAll(ExpandAll(pos, depth, OrderedMoves(pos)), best) ==
            NegamaxAll(ExpandAll(pos, depth, LegalMoves(pos)), best)
  {
    var sorted, plain := ExpandAll(pos, depth, OrderedMoves(pos)), ExpandAll(pos, depth, LegalMoves(pos));
    forall k
      ensures k in sorted <==> k in plain
    {
      ExpandAllMembers(pos, depth, OrderedMoves(pos), k);
      ExpandAllMembers(pos, depth, LegalMoves(pos), k);
    }
    NegamaxOrderFree(sorted, plain, best);
  }

  // ----- The table search one ply deep -----

  /** The table holds no depth-0 entry; the search never writes one. */
  ghost predicate NoLeafEntries(tt: Table) {
    forall k :: k in tt ==> k.depth != 0
  }

  /** One step of the loop one ply deep: the child is a leaf the table does
      not answer, so it scores its evaluation and leaves the table alone. */
  lemma SearchMovesLeafStep(pos: Position, alpha: int, beta: int, ms: seq<Move>, best: int, tt: Table)
    requires ms != []
    requires NoLeafEntries(tt)
    ensures var score := -Evaluate(MakeMove(pos, ms[0]));
      score >= beta ==> SearchMoves(pos, 1, alpha, beta, ms, best, tt).score == beta
    ensures var score := -Evaluate(MakeMove(pos, ms[0]));
      score < beta ==> (SearchMoves(pos, 1, alpha, beta, ms, best, tt) ==
                         SearchMoves(pos, 1, Max(alpha, score), beta, ms[1..], Max(best, score), tt))
  {
    var child := MakeMove(pos, ms[0]);
    assert !Hit(tt, KeyOf(child, 0));
    SearchLeaf(child, -beta, -alpha, tt);
    assert Search(child, 0, -beta, -alpha, tt) == Outcome(Evaluate(child), tt);
    SearchMovesStep(pos, 1, alpha, beta, ms, best, tt);
  }

  /** The same step on the tree: the first child is the leaf of the position
      after the first move. */
  lemma ExpandAllLeafStep(pos: Position, alpha: int, beta: int, ms: seq<Move>, best: int)
    requires ms != []
    ensures var score := -Evaluate(MakeMove(pos, ms[0]));
      AlphaBetaAll(ExpandAll(pos, 1, ms), alpha, beta, best) ==
        if score >= beta then beta
        else AlphaBetaAll(ExpandAll(pos, 1, ms[1..]), Max(alpha, score), beta, Max(best, score))
  {
    var kids := ExpandAll(pos, 1, ms);
    assert kids[0] == Expand(MakeMove(pos, ms[0]), 0);
    assert kids[1..] == ExpandAll(pos, 1, ms[1..]);
  }

  /** One ply deep the table is never consulted for the children and never
      written by them, so the loop gives the table-free result. */
  lemma {:induction false} SearchMovesOnePly(pos: Position, alpha: int, beta: int, ms: seq<Move>, best: int, tt: Table)
    requires NoLeafEntries(tt)
    ensures SearchMoves(pos, 1, alpha, beta, ms, best, tt).score == AlphaBetaAll(ExpandAll(pos, 1, ms), alpha, beta, best)
    decreases |ms|
  {
    if ms != [] {
      SearchMovesLeafStep(pos, alpha, beta, ms, best, tt);
      ExpandAllLeafStep(pos, alpha, beta, ms, best);
      var score := -Evaluate(MakeMove(pos, ms[0]));
      if score < beta {
        SearchMovesOnePly(pos, Max(alpha, score), beta, ms[1..], Max(best, score), tt);
      }
    }
  }

  /** A one-ply search that the table does not answer scores as alpha-beta
      on the position's tree. */
  lemma SearchOnePly(pos: Position, alpha: int, beta: int, tt: Table)
    requires NoLeafEntries(tt)
    requires !Hit(tt, KeyOf(pos, 1))
    ensures Search(pos, 1, alpha, beta, tt).score == AlphaBeta(Expand(pos, 1), alpha, beta)
  {
    if LegalMoves(pos) != [] {
      SearchMovesOnePly(pos, alpha, beta, OrderedMoves(pos), -Infinity, tt);
    }
  }
}
