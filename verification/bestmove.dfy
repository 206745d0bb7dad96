/** The engine's top-level move choice (chess.cpp:547-599): every legal move
    of the root, in MVV-LVA order, is searched with the full window one ply
    less deep, and the first move with the highest score wins. At random the
    engine instead plays the move it is about to search (a deliberate
    blunder). The random draws are a parameter: `draws[i]` is the number the
    source draws before searching the `i`-th ordered move. */
module BestMove {
  import opened Squares
  import opened Pieces
  import opened MoveGen
  import opened MakeUndo
  import opened Legality
  import opened TreeSearch
  import opened GameTree

  /** The source draws a number only when the probability is positive, and
      plays the move at once when the number falls below it. */
  predicate Blunders(randProb: real, draw: real) {
    randProb > 0.0 && draw < randProb
  }

  /** The index of the first move played as a blunder, or `n` if none is. */
  function FirstBlunder(randProb: real, draws: seq<real>, n: nat): (i: nat)
    requires n <= |draws|
    ensures i <= n
    ensures forall j :: 0 <= j < i ==> !Blunders(randProb, draws[j])
    ensures i < n ==> Blunders(randProb, draws[i])
  {
    if n == 0 then 0
    else
      var i := FirstBlunder(randProb, draws, n - 1);
      if i < n - 1 then i
      else if Blunders(randProb, draws[n - 1]) then n - 1
      else n
  }

  /** At probability zero the engine never blunders: every move is searched. */
  lemma NeverBlunders(draws: seq<real>, n: nat)
    requires n <= |draws|
    ensures FirstBlunder(0.0, draws, n) == n
  {
  }

  /** One root search: searching the position after `m` with the full window
      one ply less deep and the table `tin` scores `-score` and leaves the
      table `tout`. */
  ghost predicate RootStep(pos: Position, depth: nat, m: Move, tin: Table, score: int, tout: Table)
    requires depth >= 1
  {
    var sub := Search(MakeMove(pos, m), depth - 1, -Infinity, Infinity, tin);
    score == -sub.score && tout == sub.table
  }

  /** `scores` and `tables` record the root's first `|scores|` searches: the
      `j`-th ordered move is searched with the table `tables[j]`, which the
      search turns into `tables[j + 1]`. */
  ghost predicate Searched(pos: Position, depth: nat, ms: seq<Move>, tt: Table, scores: seq<int>, tables: seq<Table>)
    requires depth >= 1
    decreases |scores|
  {
    && |scores| <= |ms|
    && |tables| == |scores| + 1
    && if scores == [] then tables[0] == tt
       else
         var n := |scores| - 1;
         && Searched(pos, depth, ms, tt, scores[..n], tables[..n + 1])
         && RootStep(pos, depth, ms[n], tables[n], scores[n], tables[n + 1])
  }

  /** One more search extends the record. */
  lemma SearchedSnoc(pos: Position, depth: nat, ms: seq<Move>, tt: Table, scores: seq<int>, tables: seq<Table>, score: int, t: Table)
    requires depth >= 1
    requires Searched(pos, depth, ms, tt, scores, tables)
    requires |scores| < |ms|
    requires var sub := Search(MakeMove(pos, ms[|scores|]), depth - 1, -Infinity, Infinity, tables[|scores|]);
      score == -sub.score && t == sub.table
    ensures Searched(pos, depth, ms, tt, scores + [score], tables + [t])
  {
    var n := |scores|;
    assert (scores + [score])[..n] == scores && (tables + [t])[..n + 1] == tables;
  }

  /** Root searches from a well-formed table leave well-formed tables, and
      every root score stays within the window bounds of ±1e9. */
  lemma {:induction false} SearchedWellFormed(pos: Position, depth: nat, ms: seq<Move>, tt: Table, scores: seq<int>, tables: seq<Table>)
    requires 1 <= depth <= MateScore
    requires WellFormed(tt) && Searched(pos, depth, ms, tt, scores, tables)
    ensures forall j :: 0 <= j < |tables| ==> WellFormed(tables[j])
    ensures forall j :: 0 <= j < |scores| ==> -Infinity <= scores[j] <= Infinity
    decreases |scores|
  {
    if scores != [] {
      var n := |scores| - 1;
      var s, t := scores[..n], tables[..n + 1];
      SearchedWellFormed(pos, depth, ms, tt, s, t);
      assert tables[n] == t[n];
      forall j | 0 <= j < |tables|
        ensures WellFormed(tables[j])
      {
        if j <= n {
          assert tables[j] == t[j];
        }
      }
      forall j | 0 <= j < |scores|
        ensures -Infinity <= scores[j] <= Infinity
      {
        if j < n {
          assert scores[j] == s[j];
        }
      }
    }
  }

  /** `k` is the first index with the highest score, and that score beats the
      starting best of `-Infinity`. */
  ghost predicate FirstBest(scores: seq<int>, k: int) {
    && 0 <= k < |scores|
    && scores[k] > -Infinity
    && (forall j :: 0 <= j < k ==> scores[j] < scores[k])
    && (forall j :: k < j < |scores| ==> scores[j] <= scores[k])
  }

  /** No score beats the starting best. */
  ghost predicate NoneBetter(scores: seq<int>) {
    forall j :: 0 <= j < |scores| ==> scores[j] <= -Infinity
  }

  /** The move the loop settles on after the scores `s`: the first move with
      the highest score, or `first` when no score beats `-Infinity`. */
  ghost predicate Chosen(s: seq<int>, ms: seq<Move>, first: Move, best: Move) {
    || (exists k :: FirstBest(s, k) && k < |ms| && best == ms[k])
    || (NoneBetter(s) && best == first)
  }

  /** The loop's best move and score after the scores `s`. */
  ghost predicate Tracks(s: seq<int>, ms: seq<Move>, first: Move, best: Move, bestScore: int) {
    || (exists k :: FirstBest(s, k) && k < |ms| && best == ms[k] && bestScore == s[k])
    || (NoneBetter(s) && best == first && bestScore == -Infinity)
  }

  /** One more score keeps the loop's best move and score right: a strictly
      higher score takes over, an equal or lower one changes nothing. */
  lemma TracksStep(s: seq<int>, ms: seq<Move>, first: Move, best: Move, bestScore: int, score: int)
    requires |s| < |ms|
    requires Tracks(s, ms, first, best, bestScore)
    ensures score > bestScore ==> Tracks(s + [score], ms, first, ms[|s|], score)
    ensures score <= bestScore ==> Tracks(s + [score], ms, first, best, bestScore)
  {
    var s' := s + [score];
    if score > bestScore {
      assert FirstBest(s', |s|);
    } else if k :| FirstBest(s, k) && k < |ms| && best == ms[k] && bestScore == s[k] {
      assert FirstBest(s', k);
    }
  }

  /** One turn of the root loop: the next move is searched with the table
      the earlier searches left, and takes over as the best move when its
      score is strictly higher. */
  method SearchNext(pos: Position, depth: nat, ms: seq<Move>, first: Move, ghost tt: Table,
                    i: nat, table: Table, bestScore: int, best: Move, ghost scores: seq<int>, ghost tables: seq<Table>)
      returns (table': Table, bestScore': int, best': Move, ghost scores': seq<int>, ghost tables': seq<Table>)
    requires depth >= 1
    requires Searched(pos, depth, ms, tt, scores, tables) && table == tables[|scores|]
    requires i == |scores| < |ms|
    requires Tracks(scores, ms, first, best, bestScore)
    ensures table' == Search(MakeMove(pos, ms[i]), depth - 1, -Infinity, Infinity, table).table
    ensures best' == best || best' == ms[i]
    ensures |scores'| == |scores| + 1 && scores'[..|scores|] == scores
    ensures Searched(pos, depth, ms, tt, scores', tables') && table' == tables'[|scores'|]
    ensures Tracks(scores', ms, first, best', bestScore')
  {
    var sub := Search(MakeMove(pos, ms[i]), depth - 1, -Infinity, Infinity, table);
    var score := -sub.score;
    TracksStep(scores, ms, first, best, bestScore, score);
    SearchedSnoc(pos, depth, ms, tt, scores, tables, score, sub.table);
    scores', tables' := scores + [score], tables + [sub.table];
    table' := sub.table;
    if score > bestScore {
      bestScore', best' := score, ms[i];
    } else {
      bestScore', best' := bestScore, best;
    }
  }

  /** The loop of `searchBestMove` over the ordered moves `ms`, starting from
      the best move `first` and the best score `-Infinity`: it searches the
      moves up to the first blunder, plays the blunder if there is one, and
      otherwise the move `Chosen` names. */
  method SearchRoot(pos: Position, depth: nat, ms: seq<Move>, first: Move, randProb: real, draws: seq<real>, tt: Table)
      returns (best: Move, table: Table, ghost scores: seq<int>, ghost tables: seq<Table>)
    requires depth >= 1
    requires |draws| >= |ms|
    ensures best == first || best in ms
    ensures Searched(pos, depth, ms, tt, scores, tables) && table == tables[|scores|]
    ensures |scores| == FirstBlunder(randProb, draws, |ms|)
    ensures |scores| < |ms| ==> best == ms[|scores|]
    ensures |scores| == |ms| ==> Chosen(scores, ms, first, best)
  {
    best := first;
    var bestScore := -Infinity;
    table := tt;
    scores, tables := [], [tt];
    var i := 0;
    while i < |ms|
      invariant 0 <= i <= |ms| && |scores| == i
      invariant FirstBlunder(randProb, draws, i) == i
      invariant Searched(pos, depth, ms, tt, scores, tables) && table == tables[i]
      invariant Tracks(scores, ms, first, best, bestScore)
    {
      if Blunders(randProb, draws[i]) {
        assert ms[i] in ms;
        return ms[i], table, scores, tables;
      }
      table, bestScore, best, scores, tables := SearchNext(pos, depth, ms, first, tt, i, table, bestScore, best, scores, tables);
      i := i + 1;
    }
    if k :| FirstBest(scores, k) && k < |ms| && best == ms[k] {
      assert ms[k] in ms;
    }
  }

  /** What `searchBestMove` promises: the ordered moves are searched up to
      the first blunder, recorded in `scores` and `tables`, and the move played
      is the blunder if there is one, else the first move with the highest
      score, else the first legal move in generation order. */
  ghost predicate RootPlayed(pos: Position, depth: nat, randProb: real, draws: seq<real>, tt: Table,
                             best: Move, table: Table, scores: seq<int>, tables: seq<Table>)
    requires depth >= 1
  {
    var ms := OrderedMoves(pos);
    && |draws| >= |ms|
    && Searched(pos, depth, ms, tt, scores, tables) && table == tables[|scores|]
    && |scores| == FirstBlunder(randProb, draws, |ms|)
    && (|scores| < |ms| ==> best == ms[|scores|])
    && (|scores| == |ms| ==> LegalMoves(pos) != [] && Chosen(scores, ms, LegalMoves(pos)[0], best))
  }

  /** The source's `searchBestMove`: the loop over the moves in search order,
      with the first legal move in generation order as the fallback. The
      move played is legal. */
  method SearchBestMove(pos: Position, depth: nat, randProb: real, draws: seq<real>, tt: Table)
      returns (best: Move, table: Table, ghost scores: seq<int>, ghost tables: seq<Table>)
    requires depth >= 1
    requires LegalMoves(pos) != []
    requires |draws| >= |LegalMoves(pos)|
    ensures best in LegalMoves(pos)
    ensures RootPlayed(pos, depth, randProb, draws, tt, best, table, scores, tables)
  {
    var ms := OrderedMoves(pos);
    Ordering.SortMovesMembers(pos.board, LegalMoves(pos), LegalMoves(pos)[0]);
    best, table, scores, tables := SearchRoot(pos, depth, ms, LegalMoves(pos)[0], randProb, draws, tt);
  }
}
