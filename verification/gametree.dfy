/** Alpha-beta against plain negamax, without the transposition table
    (chess.cpp:460-543 with the table lookup and store taken out). A search
    tree holds what the search sees: a leaf carries a score the search returns
    without looking further (depth 0, mate, stalemate), a node its children in
    the order the search visits them. */
module GameTree {
  import opened Squares

  /** The search's starting best score and the bound of its window. */
  const Infinity: int := 1000000000

  datatype Tree = Leaf(score: int) | Node(kids: seq<Tree>)

  /** The reference value: a leaf's score, or the largest of the children's
      values negated (`-Infinity` for a node without children). */
  function Negamax(t: Tree): int
    decreases t, 1
  {
    match t
    case Leaf(v) => v
    case Node(kids) => NegamaxAll(kids, -Infinity)
  }

  /** The largest of `best` and the children's values negated. */
  function NegamaxAll(kids: seq<Tree>, best: int): (v: int)
    ensures v >= best
    decreases kids, 0
  {
    if kids == [] then best
    else NegamaxAll(kids[1..], Max(best, -Negamax(kids[0])))
  }

  /** The source's fail-hard loop without the table: the children are searched
      with the negated window; a child scoring at least `beta` ends the loop
      with `beta`; otherwise the best score is returned. */
  function AlphaBeta(t: Tree, alpha: int, beta: int): int
    decreases t, 1
  {
    match t
    case Leaf(v) => v
    case Node(kids) => AlphaBetaAll(kids, alpha, beta, -Infinity)
  }

  function AlphaBetaAll(kids: seq<Tree>, alpha: int, beta: int, best: int): int
    decreases kids, 0
  {
    if kids == [] then best
    else
      var score := -AlphaBeta(kids[0], -beta, -alpha);
      if score >= beta then beta
      else AlphaBetaAll(kids[1..], Max(alpha, score), beta, Max(best, score))
  }

  /** Every leaf score lies within the bounds. */
  ghost predicate Bounded(t: Tree)
    decreases t
  {
    match t
    case Leaf(v) => -Infinity <= v <= Infinity
    case Node(kids) => forall k :: k in kids ==> Bounded(k)
  }

  /** Taking the larger with `x` first or last gives the same maximum. */
  lemma {:induction false} NegamaxAllMax(kids: seq<Tree>, x: int, y: int)
    ensures NegamaxAll(kids, Max(x, y)) == Max(x, NegamaxAll(kids, y))
    decreases kids
  {
    if kids != [] {
      var u := -Negamax(kids[0]);
      NegamaxAllMax(kids[1..], x, Max(y, u));
      assert Max(Max(x, y), u) == Max(x, Max(y, u));
    }
  }

  /** The value of a list of children is the largest candidate: no smaller
      than any of them, and equal to `best` or to one of them. */
  lemma {:induction false} NegamaxAllIsMax(kids: seq<Tree>, best: int)
    ensures forall k :: k in kids ==> NegamaxAll(kids, best) >= -Negamax(k)
    ensures NegamaxAll(kids, best) == best || exists k :: k in kids && NegamaxAll(kids, best) == -Negamax(k)
    decreases kids
  {
    if kids != [] {
      var u := -Negamax(kids[0]);
      NegamaxAllIsMax(kids[1..], Max(best, u));
      assert forall k :: k in kids ==> k == kids[0] || k in kids[1..];
      var v := NegamaxAll(kids, best);
      if v != best {
        if v == u {
          assert kids[0] in kids;
        } else {
          var k :| k in kids[1..] && v == -Negamax(k);
          assert k in kids;
        }
      }
    }
  }

  /** The order in which the children are visited does not change the value:
      sorting the moves leaves the negamax score alone. */
  lemma NegamaxOrderFree(kids1: seq<Tree>, kids2: seq<Tree>, best: int)
    requires forall k :: k in kids1 <==> k in kids2
    ensures NegamaxAll(kids1, best) == NegamaxAll(kids2, best)
  {
    NegamaxAllIsMax(kids1, best);
    NegamaxAllIsMax(kids2, best);
  }

  /** The window property of the loop. Started with `best <= alpha < beta`,
      it returns the true value when that lies strictly inside the window,
      a bound at most `alpha` when the true value is, and exactly `beta` when
      the true value reaches `beta`; the result never falls below `best` nor
      exceeds `beta`. */
  lemma {:induction false} AlphaBetaAllWindow(kids: seq<Tree>, alpha: int, beta: int, best: int)
    requires -Infinity <= best <= alpha < beta <= Infinity
    ensures var v, r := NegamaxAll(kids, best), AlphaBetaAll(kids, alpha, beta, best);
      && best <= r <= beta
      && (alpha < v < beta ==> r == v)
      && (v <= alpha ==> r <= alpha)
      && (v >= beta ==> r == beta)
    decreases kids, 0
  {
    if kids != [] {
      var k, rest := kids[0], kids[1..];
      var u := -Negamax(k);
      var score := -AlphaBeta(k, -beta, -alpha);
      AlphaBetaWindow(k, -beta, -alpha);
      var v := NegamaxAll(kids, best);
      assert v == NegamaxAll(rest, Max(best, u));
      NegamaxAllMax(rest, u, best);
      if score < beta {
        var alpha', best' := Max(alpha, score), Max(best, score);
        AlphaBetaAllWindow(rest, alpha', beta, best');
        NegamaxAllMax(rest, score, best);
      }
    }
  }

  /** The window property of a whole tree: for a window inside the bounds,
      the search returns the negamax value when it lies strictly inside, a
      value at most `alpha` when the value does, and at least `beta` when the
      value does; a node's result lies between `-Infinity` and `beta`. */
  lemma {:induction false} AlphaBetaWindow(t: Tree, alpha: int, beta: int)
    requires -Infinity <= alpha < beta <= Infinity
    ensures var v, r := Negamax(t), AlphaBeta(t, alpha, beta);
      && (t.Node? ==> -Infinity <= r <= beta)
      && (alpha < v < beta ==> r == v)
      && (v <= alpha ==> r <= alpha)
      && (v >= beta ==> r >= beta)
    decreases t, 1
  {
    if t.Node? {
      AlphaBetaAllWindow(t.kids, alpha, beta, -Infinity);
    }
  }

  /** Searched with the full window, alpha-beta finds the negamax value of
      any tree whose value does not exceed the bound. */
  lemma AlphaBetaFullWindow(t: Tree)
    requires Negamax(t) <= Infinity
    ensures AlphaBeta(t, -Infinity, Infinity) == Negamax(t)
  {
    AlphaBetaWindow(t, -Infinity, Infinity);
    if t.Node? {
      assert Negamax(t) >= -Infinity;
    }
  }

  /** The value of a tree with bounded leaves is bounded. */
  lemma {:induction false} NegamaxBounded(t: Tree)
    requires Bounded(t)
    ensures -Infinity <= Negamax(t) <= Infinity
    decreases t
  {
    if t.Node? {
      NegamaxAllIsMax(t.kids, -Infinity);
      if Negamax(t) != -Infinity {
        var k :| k in t.kids && Negamax(t) == -Negamax(k);
        NegamaxBounded(k);
      }
    }
  }
}
