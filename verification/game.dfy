/** The game the engine exposes (chess.cpp:603-739): the position, the pieces
    each side has taken, the level, the last move played as text and the
    transposition table, which the source keeps in a global and which lives
    here in the game. Each operation returns the game after it. */
module ChessGame {
  import opened Squares
  import opened Pieces
  import opened MoveGen
  import opened MoveRules
  import opened MakeUndo
  import opened Attacks
  import opened Legality
  import opened Evaluation
  import opened TreeSearch
  import opened BestMove
  import opened GameTree
  import opened Utf8
  import opened Geometry
  import opened AttackRules

  datatype Game = Game(pos: Position, whiteCaps: seq<Cell>, blackCaps: seq<Cell>,
                       levelDepth: int, randomProbability: real, lastMove: string, table: Table)

  /** What every game keeps: both kings on the board, a search depth one
      of the levels sets and a table whose entries are as the search writes
      them. */
  ghost predicate Valid(g: Game) {
    && HasKings(g.pos.board)
    && (g.levelDepth == 2 || g.levelDepth == 4 || g.levelDepth == 6)
    && WellFormed(g.table)
  }

  // ----- Levels -----

  /** The source's `setLevel`: level 1 searches 2 plies and blunders with
      probability 0.35, level 2 searches 4 plies, every other level 6; the
      table is cleared and nothing else changes. */
  function SetLevel(g: Game, lvl: int): (r: Game)
    ensures r == g.(levelDepth := r.levelDepth, randomProbability := r.randomProbability, table := map[])
    ensures r.levelDepth == 2 || r.levelDepth == 4 || r.levelDepth == 6
    ensures r.randomProbability > 0.0 <==> lvl == 1
  {
    if lvl == 1 then g.(levelDepth := 2, randomProbability := 0.35, table := map[])
    else if lvl == 2 then g.(levelDepth := 4, randomProbability := 0.0, table := map[])
    else g.(levelDepth := 6, randomProbability := 0.0, table := map[])
  }

  /** Setting a level twice is setting the second one; setting the same one
      twice changes nothing more. */
  lemma SetLevelLastWins(g: Game, l1: int, l2: int)
    ensures SetLevel(SetLevel(g, l1), l2) == SetLevel(g, l2)
    ensures SetLevel(SetLevel(g, l1), l1) == SetLevel(g, l1)
  {
  }

  /** From level 1 upwards a higher level searches at least as deep and
      blunders no more often. */
  lemma LevelOrder(g: Game, l1: int, l2: int)
    requires 1 <= l1 <= l2
    ensures SetLevel(g, l1).levelDepth <= SetLevel(g, l2).levelDepth
    ensures SetLevel(g, l1).randomProbability >= SetLevel(g, l2).randomProbability
  {
  }

  /** The source's constructor: the initial position with White to move, no
      captures, no last move, and the level set. */
  function NewGame(level: int): (r: Game)
    ensures Valid(r)
    ensures r.pos == StartPosition() && r.whiteCaps == [] && r.blackCaps == [] && r.lastMove == []
    ensures r.table == map[]
  {
    SetLevel(Game(StartPosition(), [], [], 0, 0.0, [], map[]), level)
  }

  // ----- Moves as text -----

  /** A move as the engine prints it: origin square then target square. */
  function MoveName(m: Move): (name: string)
    ensures |name| == 4
  {
    SquareName(m.from) + SquareName(m.to)
  }

  /** The checked reading of a move name gives back its squares. */
  lemma MoveNameParse(m: Move)
    ensures ParseSquare(MoveName(m)[..2]) == Some(m.from)
    ensures ParseSquare(MoveName(m)[2..]) == Some(m.to)
  {
    var name := MoveName(m);
    assert name[..2] == SquareName(m.from) && name[2..] == SquareName(m.to);
    ParseSquareInverse(m.from, name[..2]);
    ParseSquareInverse(m.to, name[2..]);
  }

  /** The names of the moves `ms`, in order. */
  function Names(ms: seq<Move>): (names: seq<string>)
    ensures |names| == |ms|
    ensures forall i :: 0 <= i < |names| ==> names[i] == MoveName(ms[i])
  {
    seq(|ms|, i requires 0 <= i < |ms| => MoveName(ms[i]))
  }

  /** A name is listed exactly when a move of `ms` bears it. */
  lemma NamesIff(ms: seq<Move>, s: string)
    ensures s in Names(ms) <==> exists m :: m in ms && MoveName(m) == s
  {
    var names := Names(ms);
    if s in names {
      var i :| 0 <= i < |names| && names[i] == s;
      assert ms[i] in ms;
    }
    if m :| m in ms && MoveName(m) == s {
      var i :| 0 <= i < |ms| && ms[i] == m;
      assert names[i] == s;
    }
  }

  /** The source's `legalMoves`: the names of the legal moves, in generation
      order. */
  function LegalMoveNames(g: Game): (names: seq<string>)
    ensures |names| == |LegalMoves(g.pos)|
    ensures forall i :: 0 <= i < |names| ==> names[i] == MoveName(LegalMoves(g.pos)[i])
  {
    Names(LegalMoves(g.pos))
  }

  /** A name is listed exactly when a legal move bears it. */
  lemma LegalMoveNamesIff(g: Game, s: string)
    ensures s in LegalMoveNames(g) <==> exists m :: m in LegalMoves(g.pos) && MoveName(m) == s
  {
    NamesIff(LegalMoves(g.pos), s);
  }

  // ----- The player's move -----

  /** No move of `ms` before index `i` goes from `f` to `t`. */
  ghost predicate FirstFrom(ms: seq<Move>, i: int, f: int, t: int)
    requires 0 <= i <= |ms|
  {
    forall j :: 0 <= j < i ==> !(ms[j].from == f && ms[j].to == t)
  }

  /** The first move of `ms` from `f` to `t`, if there is one. */
  function FindMove(ms: seq<Move>, f: int, t: int): (r: Option<Move>)
    ensures r.None? <==> forall m :: m in ms ==> !(m.from == f && m.to == t)
    ensures r.Some? ==> r.value in ms && r.value.from == f && r.value.to == t
    ensures r.Some? ==> exists i :: 0 <= i < |ms| && ms[i] == r.value && FirstFrom(ms, i, f, t)
  {
    if ms == [] then None
    else if ms[0].from == f && ms[0].to == t then Some(ms[0])
    else
      var r := FindMove(ms[1..], f, t);
      assert forall m :: m in ms ==> m == ms[0] || m in ms[1..];
      if r.Some? then
        assert exists i :: 0 <= i < |ms| && ms[i] == r.value && FirstFrom(ms, i, f, t) by {
          var i :| 0 <= i < |ms[1..]| && ms[1..][i] == r.value && FirstFrom(ms[1..], i, f, t);
          assert ms[i + 1] == r.value;
          forall j | 0 <= j < i + 1
            ensures !(ms[j].from == f && ms[j].to == t)
          {
            if j > 0 {
              assert ms[j] == ms[1..][j - 1];
            }
          }
        }
        r
      else r
  }

  /** The outcome of a move typed by the player: accepted or not, and the
      game after it. */
  datatype Played = Played(ok: bool, game: Game)

  /** The player's move `m`, typed as `s`, on the board: the piece taken goes
      to the player's captures and the last move reads "You: e2-e4". */
  function Play(g: Game, m: Move, s: string): (r: Game)
    requires |s| == 4
    ensures r.pos == MakeMove(g.pos, m)
    ensures m.captured.Empty? ==> r.whiteCaps == g.whiteCaps
    ensures m.captured.Occupied? ==> r.whiteCaps == g.whiteCaps + [m.captured]
    ensures r.blackCaps == g.blackCaps && r.levelDepth == g.levelDepth && r.table == g.table
    ensures r.randomProbability == g.randomProbability && r.lastMove == "You: " + s[..2] + "-" + s[2..]
  {
    g.(pos := MakeMove(g.pos, m),
       whiteCaps := if m.captured.Occupied? then g.whiteCaps + [m.captured] else g.whiteCaps,
       lastMove := "You: " + s[..2] + "-" + s[2..])
  }

  /** The source's `playerMove` as written: a name of four bytes is read with
      the unchecked `algebraicToSquare`, and the first legal move between the
      two squares is played. Four characters are four bytes only when all of
      them are ASCII; `PlayerMoveBytes` shows that refusing every other name
      is what the byte reading does. */
  function PlayerMoveAsWritten(g: Game, s: string): (r: Played)
    ensures !r.ok ==> r.game == g
    ensures r.ok <==> (|s| == 4 && Ascii(s) &&
      exists m :: m in LegalMoves(g.pos) && m.from == AlgebraicToSquare(s[..2]) && m.to == AlgebraicToSquare(s[2..]))
  {
    if |s| != 4 || !Ascii(s) then Played(false, g)
    else
      match FindMove(LegalMoves(g.pos), AlgebraicToSquare(s[..2]), AlgebraicToSquare(s[2..]))
      case None => Played(false, g)
      case Some(m) => Played(true, Play(g, m, s))
  }

  /** `playerMove` on the bytes it receives: four bytes, each half read by
      `algebraicToSquare` as signed chars, and a legal move between the two
      squares. */
  predicate AcceptsBytes(g: Game, bs: seq<int>) {
    |bs| == 4 && FindMove(LegalMoves(g.pos), SquareOfCodes(bs[0], bs[1]), SquareOfCodes(bs[2], bs[3])).Some?
  }

  /** Reading the name's characters and refusing any beyond ASCII accepts
      exactly the names whose UTF-8 bytes the source accepts: any other name
      is not four bytes long, or has a negative byte in a rank place, which
      reads as a square past the board. */
  lemma PlayerMoveBytes(g: Game, s: string)
    ensures AcceptsBytes(g, Encode(s)) <==> PlayerMoveAsWritten(g, s).ok
  {
    var bs := Encode(s);
    if |bs| == 4 {
      if bs[1] >= 0 && bs[3] >= 0 {
        FourBytes(s);
        assert s[..2] == [s[0], s[1]] && s[2..] == [s[2], s[3]];
      } else {
        assert PairedAt(bs, 0) && PairedAt(bs, 1) && PairedAt(bs, 2) && PairedAt(bs, 3);
        if bs[1] < 0 {
          NegativeRankOffBoard(bs[0], bs[1]);
        } else {
          NegativeRankOffBoard(bs[2], bs[3]);
        }
      }
    }
  }

  /** The player's move with the squares read by `ParseSquare`: a name that
      does not spell two squares is refused. */
  function PlayerMove(g: Game, s: string): (r: Played)
    ensures !r.ok ==> r.game == g
    ensures r.ok ==> exists m :: m in LegalMoves(g.pos) && MoveName(m) == s && r.game == Play(g, m, s)
  {
    if |s| != 4 then Played(false, g)
    else
      match (ParseSquare(s[..2]), ParseSquare(s[2..]))
      case (Some(f), Some(t)) =>
        (match FindMove(LegalMoves(g.pos), f, t)
         case None => Played(false, g)
         case Some(m) =>
           ParseSquareInverse(f, s[..2]);
           ParseSquareInverse(t, s[2..]);
           assert s == s[..2] + s[2..];
           Played(true, Play(g, m, s)))
      case _ => Played(false, g)
  }

  /** The player's move is accepted exactly when the game lists its name. */
  lemma PlayerMoveIff(g: Game, s: string)
    ensures PlayerMove(g, s).ok <==> s in LegalMoveNames(g)
  {
    LegalMoveNamesIff(g, s);
    if m :| m in LegalMoves(g.pos) && MoveName(m) == s {
      MoveNameParse(m);
    }
  }

  /** The source's reading refuses a name with a rank past 8, a move that
      stays on its square and a name that is not four characters long. */
  lemma RejectsMalformed(g: Game)
    ensures !PlayerMoveAsWritten(g, "e1e9").ok
    ensures !PlayerMoveAsWritten(g, "a1a1").ok
    ensures !PlayerMoveAsWritten(g, "e2-e4").ok
  {
    var s1, s2 := "e1e9", "a1a1";
    assert s1[..2] == "e1" && s1[2..] == "e9" && AlgebraicToSquare("e9") == -4;
    assert s2[..2] == "a1" && s2[2..] == "a1";
    if m :| m in LegalMoves(g.pos) && m.from == m.to {
      GeneratedMove(g.pos, m);
    }
  }

  /** A played move keeps both kings on the board and the level. */
  lemma PlayerMoveValid(g: Game, s: string)
    requires Valid(g)
    ensures Valid(PlayerMove(g, s).game)
  {
    LegalKeepsKings(g.pos);
  }

  /** The source's own reading keeps a valid game valid as well, whatever
      string it is given. */
  lemma PlayerMoveAsWrittenValid(g: Game, s: string)
    requires Valid(g)
    ensures Valid(PlayerMoveAsWritten(g, s).game)
  {
    if |s| == 4 && Ascii(s) {
      var found := FindMove(LegalMoves(g.pos), AlgebraicToSquare(s[..2]), AlgebraicToSquare(s[2..]));
      if found.Some? {
        LegalKeepsKings(g.pos);
        assert HasKings(MakeMove(g.pos, found.value).board);
      }
    }
  }

  /** On names that spell two squares the source's reading and the checked
      one agree. */
  lemma PlayerMoveAgrees(g: Game, s: string)
    requires |s| == 4
    requires ParseSquare(s[..2]).Some? && ParseSquare(s[2..]).Some?
    ensures PlayerMoveAsWritten(g, s) == PlayerMove(g, s)
  {
    assert s[..2] == [s[0], s[1]] && s[2..] == [s[2], s[3]];
    assert Ascii(s);
  }

  /** The pawn's double step a2-a4 of the starting position. */
  function DoubleStepA2(): Move {
    Move(48, 32, Empty, None)
  }

  /** a2-a4 is pseudo-legal at the start: a white pawn on its home rank
      steps two squares over an empty a3 onto an empty a4. */
  lemma DoubleStepPseudoLegal()
    ensures PseudoLegal(StartPosition(), DoubleStepA2())
  {
    var b := StartPosition().board;
    assert Dist(48, 32) == 2 && Along(48, 32, 1) == 40 && b[40] == Empty;
    assert ClearPath(b, 48, 32);
  }

  /** After a2-a4 no black piece strikes e1, where the white king stands. */
  lemma DoubleStepSafe()
    ensures HasKing(MakeMove(StartPosition(), DoubleStepA2()).board, White)
    ensures !IsInCheck(MakeMove(StartPosition(), DoubleStepA2()), White)
  {
    var after := MakeMove(StartPosition(), DoubleStepA2());
    assert after.board[60] == Occupied(White, King);
    assert KingSquare(after.board, White) == 60;
    DoubleStepNoStrike();
    InCheckIff(after, White);
  }

  /** Every black piece stands on rank 8 or 7 after a2-a4, too far from e1
      for any of them to strike it. */
  lemma DoubleStepNoStrike()
    ensures var b := MakeMove(StartPosition(), DoubleStepA2()).board;
      forall u: Square :: Owns(b[u], Black) ==> !Strikes(b, u, 60)
  {
    var b := MakeMove(StartPosition(), DoubleStepA2()).board;
    forall u: Square | Owns(b[u], Black)
      ensures !Strikes(b, u, 60)
    {
      assert u < 16 && RankOf(u) <= 1;
    }
  }

  /** "i3a4" is four ASCII characters whose halves read as a2 and a4. */
  lemma AliasedName()
    ensures var s := "i3a4";
      |s| == 4 && Ascii(s) && AlgebraicToSquare(s[..2]) == 48 && AlgebraicToSquare(s[2..]) == 32
  {
    var s := "i3a4";
    assert s[..2] == "i3" && s[2..] == "a4";
  }

  /** The Findings input: in the starting position the source plays "i3a4"
      as the pawn's double step a2-a4, a name the game never lists. */
  lemma AliasingWitness(level: int)
    ensures PlayerMoveAsWritten(NewGame(level), "i3a4").ok
    ensures "i3a4" !in LegalMoveNames(NewGame(level))
  {
    var g, m, s := NewGame(level), DoubleStepA2(), "i3a4";
    DoubleStepPseudoLegal();
    DoubleStepSafe();
    LegalMovesIff(StartPosition(), m);
    assert m in LegalMoves(g.pos);
    AliasedName();
    PlayerMoveAliasing(g, "a4");
  }

  /** The unchecked reading accepts a name that is not a move: "i3" reads as
      a2, so "i3" followed by any target is played as the move from a2 to it,
      while the game's move list never contains it. */
  lemma PlayerMoveAliasing(g: Game, t: string)
    requires |t| == 2
    ensures PlayerMoveAsWritten(g, "i3" + t).ok == PlayerMoveAsWritten(g, "a2" + t).ok
    ensures PlayerMoveAsWritten(g, "i3" + t).ok ==> "i3" + t !in LegalMoveNames(g)
    ensures !PlayerMove(g, "i3" + t).ok
  {
    var s, s' := "i3" + t, "a2" + t;
    assert s[..2] == "i3" && s'[..2] == "a2" && s[2..] == t && s'[2..] == t;
    assert Ascii("i3") && Ascii("a2");
    AsciiAppend("i3", t);
    AsciiAppend("a2", t);
    AlgebraicAliasing();
    PlayerMoveIff(g, s);
  }

  // ----- The engine's move -----

  /** The depth the engine searches: two plies more when the evaluation is
      more than 1500 from even, roughly a queen and a rook. */
  function AiDepth(g: Game): (d: nat)
    requires Valid(g)
    ensures d >= g.levelDepth >= 2
    ensures d == g.levelDepth || d == g.levelDepth + 2
    ensures d > g.levelDepth <==> Abs(Evaluate(g.pos)) > 1500
  {
    g.levelDepth + (if Abs(Evaluate(g.pos)) > 1500 then 2 else 0)
  }

  /** The engine's move `m`, named `name`, on the board: the piece taken goes
      to the engine's captures, the table is the one the search left, which
      must be well-formed, and the game stays valid. */
  function AiPlay(g: Game, m: Move, name: string, table: Table): (r: Game)
    requires Valid(g) && m in LegalMoves(g.pos) && WellFormed(table)
    ensures Valid(r) && r.pos == MakeMove(g.pos, m) && r.table == table
    ensures r.blackCaps == g.blackCaps + (if m.captured.Occupied? then [m.captured] else [])
    ensures r.whiteCaps == g.whiteCaps && r.levelDepth == g.levelDepth && r.lastMove == "AI: " + name
  {
    LegalKeepsKings(g.pos);
    g.(pos := MakeMove(g.pos, m),
       blackCaps := if m.captured.Occupied? then g.blackCaps + [m.captured] else g.blackCaps,
       lastMove := "AI: " + name,
       table := table)
  }

  /** The source's `aiMove`: the move `searchBestMove` picks at `AiDepth`
      is played, the piece it takes goes to the engine's captures, and its
      name is returned and recorded as "AI: e7e5". */
  method AiMove(g: Game, draws: seq<real>) returns (name: string, r: Game, ghost m: Move, ghost scores: seq<int>, ghost tables: seq<Table>)
    requires Valid(g)
    requires LegalMoves(g.pos) != []
    requires |draws| >= |LegalMoves(g.pos)|
    ensures Valid(r)
    ensures m in LegalMoves(g.pos) && name == MoveName(m) && r.pos == MakeMove(g.pos, m)
    ensures r.blackCaps == g.blackCaps + (if m.captured.Occupied? then [m.captured] else [])
    ensures r.whiteCaps == g.whiteCaps && r.levelDepth == g.levelDepth && r.lastMove == "AI: " + name
    ensures RootPlayed(g.pos, AiDepth(g), g.randomProbability, draws, g.table, m, r.table, scores, tables)
    ensures forall j :: 0 <= j < |scores| ==> -Infinity <= scores[j] <= Infinity
  {
    var depth := AiDepth(g);
    var best, table;
    best, table, scores, tables := SearchBestMove(g.pos, depth, g.randomProbability, draws, g.table);
    SearchedWellFormed(g.pos, depth, OrderedMoves(g.pos), g.table, scores, tables);
    m := best;
    name := MoveName(best);
    r := AiPlay(g, best, name, table);
  }

  // ----- Game status -----

  /** The source's `inCheck`: the side to move is attacked on its king. */
  predicate InCheck(g: Game)
    requires HasKings(g.pos.board)
  {
    SideKing(g.pos.board, g.pos.side);
    IsInCheck(g.pos, g.pos.side)
  }

  /** The source's `isCheckmate`: in check and without a legal move. */
  predicate IsCheckmate(g: Game)
    requires HasKings(g.pos.board)
  {
    InCheck(g) && LegalMoves(g.pos) == []
  }

  /** The source's `isStalemate`: not in check and without a legal move. */
  predicate IsStalemate(g: Game)
    requires HasKings(g.pos.board)
  {
    !InCheck(g) && LegalMoves(g.pos) == []
  }

  /** A game without legal moves is over in exactly one way. */
  lemma GameOverKinds(g: Game)
    requires HasKings(g.pos.board)
    ensures !(IsCheckmate(g) && IsStalemate(g))
    ensures LegalMoves(g.pos) == [] <==> IsCheckmate(g) || IsStalemate(g)
  {
  }

  /** The search scores what the game reports: a checkmate as a loss of
      `depth - 100000`, a stalemate as a draw. */
  lemma GameOverScores(g: Game, depth: nat, alpha: int, beta: int)
    requires HasKings(g.pos.board)
    requires 0 < depth < MateScore && !Hit(g.table, KeyOf(g.pos, depth))
    ensures IsCheckmate(g) ==> Search(g.pos, depth, alpha, beta, g.table).score == depth - MateScore < 0
    ensures IsStalemate(g) ==> Search(g.pos, depth, alpha, beta, g.table).score == 0
  {
    if LegalMoves(g.pos) == [] {
      SearchNoMoves(g.pos, depth, alpha, beta, g.table);
    }
  }

  /** The source's `board64`: one character per square, a8 first. */
  function GameBoard64(g: Game): (text: string)
    ensures |text| == 64
    ensures forall i :: 0 <= i < 64 ==> CharCell(text[i]) == g.pos.board[i]
  {
    Board64(g.pos.board)
  }
}
