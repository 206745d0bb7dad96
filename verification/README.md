# A verified model of a small chess engine

This project models the engine core in `chess.cpp` in Dafny and proves what
the engine promises.

The board is 64 cells, with index 0 = a8 and 63 = h1, plus the side to move.
The engine:
- generates pseudo-legal moves by offset tables with guards against
  wrapping from the a-file to the h-file, with no castling and no en passant;
  promotion is always to a queen;
- filters the legal moves with an attack oracle;
- makes and takes back moves, and evaluates material;
- searches with negamax and fail-hard alpha-beta, with mate and stalemate
  scores, MVV-LVA move ordering and a transposition table;
- picks the root move, with an optional deliberate blunder;
- wraps all of this in a `Game` object with levels, move names, a player's
  move and the engine's move.

Each engine function is a pure Dafny function or method. Its reference is
written separately on columns and rows, following the movement rules of
Article 3 of the FIDE Laws of Chess. Lemmas connect the two:
- the generator yields exactly the pseudo-legal moves;
- the attack oracle answers exactly whether some piece strikes a square;
- the legal list is exactly the pseudo-legal moves that leave the mover's
  king unattacked;
- taking a move back restores the position;
- the sort is a permutation with non-increasing keys;
- alpha-beta on a search tree meets the window property against plain
  negamax.

Where the source mutates the position and takes the change back, the model
passes positions as values. Lemmas show that the source's in-place round
trip gives the position back: `Legality.TryMove`, `MakeUndo.UndoMakeGenerated`
and `TreeSearch.TakenBack`.

The transposition table, a global `unordered_map` in the source, is a Dafny
`map` passed into each search and handed back. It lives in the game.

The random number generator of `searchBestMove` is a parameter. `draws[i]` is
the number drawn before the `i`-th move in search order.

Modules, one file each:
- `Squares` (squares.dfy)
- `Utf8` (utf8.dfy)
- `Pieces` (pieces.dfy)
- `Geometry` (geometry.dfy)
- `Directions` (directions.dfy)
- `MoveGen` (movegen.dfy)
- `MoveRules` (movegen_rules.dfy)
- `Attacks` (attacks.dfy)
- `AttackRules` (attack_rules.dfy)
- `MakeUndo` (makeundo.dfy)
- `Legality` (legal.dfy)
- `Evaluation` (eval.dfy)
- `Ordering` (ordering.dfy)
- `GameTree` (gametree.dfy)
- `TreeSearch` (search.dfy)
- `SearchTree` (searchtree.dfy)
- `BestMove` (bestmove.dfy)
- `ChessGame` (game.dfy)

## Model

| member | source | states |
|---|---|---|
| Squares.FileOf | chess.cpp:46-49 | the file is in 0..7 and, with the rank, recomposes the square (`square & 7`, also for negative arguments) |
| Squares.RankOf | chess.cpp:51-54 | the rank of an on-board square is in 0..7 (`square >> 3`, floor division) |
| Squares.Sq | chess.cpp:46-54 | a file and a rank in range name a square whose file and rank are those |
| Squares.SquareName | chess.cpp:603-606 | a square's name is two characters, a file letter a..h and a rank digit 1..8 |
| Squares.AlgebraicRoundTrip | chess.cpp:603-611 | reading back a square's name with `algebraicToSquare` gives the square |
| Squares.ParseSquare | chess.cpp:608-611 | the checked reading accepts exactly "a1".."h8", and where it accepts it agrees with `algebraicToSquare` |
| Squares.ParseSquareInverse | chess.cpp:603-611 | checked reading and naming are inverse: a name reads as `s` exactly when it is `s`'s name |
| Squares.AlgebraicAliasing | chess.cpp:608-611 | the unchecked reading maps the malformed name "i3" onto a2, which the checked reading refuses |
| Squares.NegativeRankOffBoard | chess.cpp:608-611 | a rank byte of 0x80 or above, read as a negative `char`, puts the square past the board whatever the file byte |
| Utf8.Encode | chess.cpp:671-673 | the bytes of a name are at least as many as its characters, exactly as many and equal to the codes for an ASCII name, with a negative byte otherwise, and no negative byte stands alone |
| Utf8.FourBytes | chess.cpp:673-676 | four bytes whose second and fourth bytes are not negative are four ASCII characters |
| Pieces.PieceValue | chess.cpp:70-89 | zero exactly for an empty cell, 100..900 for a piece other than a king, 20000 for a king |
| Pieces.ValueOrder | chess.cpp:70-89 | pawn < knight < bishop < rook < queen < king in value |
| Pieces.CellCharInjective | chess.cpp:33-37 | distinct cells are stored as distinct characters |
| Pieces.Board64 | chess.cpp:735-738 | 64 characters, each reading back as the cell on its square |
| Pieces.Board64Inverse | chess.cpp:735-738 | two boards have the same character form exactly when they are equal |
| Pieces.StartPosition | chess.cpp:626-635 | White to move, both kings on the board, the white king on e1 and the black king on e8 |
| Directions.RayStep | chess.cpp:345-395 | a ray step's guard lets it through exactly when the shifted file and rank stay on the board, and it then moves one file and rank in the offset's direction |
| Directions.LeapStep | chess.cpp:329-333 | a leap's file guard accepts exactly the leaps whose shifted file and rank stay on the board |
| Directions.KnightTable | chess.cpp:329-333 | the knight offsets with the two-file guard produce exactly the knight jumps (one file and two ranks, or two files and one rank) |
| Directions.KnightTableSound | chess.cpp:329-333 | every knight step the guard accepts is a true knight jump |
| Directions.KnightTableComplete | chess.cpp:329-333 | every knight jump is an accepted table step |
| Directions.KingTable | chess.cpp:401-405 | the king offsets with the one-file guard produce exactly the one-square steps |
| Directions.PawnDiagonal | chess.cpp:306-309 | a pawn's diagonal step passes the one-file guard exactly when it does not wrap, and then it moves one file and one rank |
| Directions.BishopDirections | chess.cpp:104 | the bishop table lists exactly the diagonal unit directions |
| Directions.RookDirections | chess.cpp:105 | the rook table lists exactly the orthogonal unit directions |
| Geometry.ClearPathStep | chess.cpp:345-366 | a path is clear exactly when the target is the next square, or the next square is empty and the path on from it is clear |
| Geometry.ClearPathSymmetric | chess.cpp:162-196 | a line is clear in one direction exactly when it is clear in the other |
| MoveRules.LeapsMembers | chess.cpp:326-340 | a knight or king walk over its table yields exactly the unpromoted moves to enterable squares one accepted offset away, recording the target |
| MoveRules.LeapMembers | chess.cpp:330-337 | one offset yields the unpromoted move to its square exactly when the offset passes the file guard and the square is enterable |
| MoveRules.RayMembers | chess.cpp:345-366 | a ray yields exactly the moves to enterable squares beyond the start in its direction with nothing between |
| MoveRules.DiagonalMembers | chess.cpp:342-368 | the four diagonal rays yield exactly the moves along clear diagonals to enterable squares |
| MoveRules.OrthogonalMembers | chess.cpp:370-396 | the four orthogonal rays yield exactly the moves along clear files and ranks to enterable squares |
| MoveRules.PawnPushMembers | chess.cpp:284-303 | pushes are exactly a step onto an empty square, promoting on the last rank, or a double step from the home rank over and onto empty squares |
| MoveRules.PawnCaptureMembers | chess.cpp:305-322 | a capture is exactly one rank forward and the given file sideways onto an enemy piece other than a king, promoting on the last rank |
| MoveRules.PawnMembers | chess.cpp:278-324 | pawn moves are exactly the moves of the pawn rule to enterable squares |
| MoveRules.PieceMovesMembers | chess.cpp:268-411 | the moves generated from a square are exactly the pseudo-legal moves from it |
| MoveRules.GenerateMovesIff | chess.cpp:263-413 | `generateMoves` yields exactly the pseudo-legal moves |
| MoveRules.GeneratedMove | chess.cpp:106-118 | a generated move moves a piece of the side to move and records the target's true content, which is neither its own piece nor a king; it changes squares, and only a pawn promotes, always to a queen |
| MoveGen.AddMove | chess.cpp:106-118 | `addMove`: drops a move onto a king and records the target's content; MoveRules.GeneratedMove states this of every generated move |
| MoveGen.GenerateMoves | chess.cpp:263-413 | `generateMoves` over the 64 squares; MoveRules.GenerateMovesIff proves it yields exactly the pseudo-legal moves |
| Attacks.KingSquare | chess.cpp:214-224 | the result holds the king of that color and no earlier square does |
| Attacks.IsAttacked | chess.cpp:124-212 | the five tests of `isAttacked`; AttackRules.IsAttackedIff proves they hold exactly when some piece of the attacker strikes the square |
| Attacks.IsInCheck | chess.cpp:226-230 | the king's square attacked by the other side; AttackRules.InCheckIff characterises it |
| AttackRules.PawnStrikeOffsets | chess.cpp:126-140 | the two offsets with the one-file guard are exactly the squares a pawn strikes the target from |
| AttackRules.PawnAttacksIff | chess.cpp:126-140 | the pawn test holds exactly when a pawn of the attacker strikes the target |
| AttackRules.LeapAttacksMembers | chess.cpp:142-209 | a table scan finds the piece exactly when it stands one accepted offset away |
| AttackRules.KnightAttacksIff | chess.cpp:142-160 | the knight test holds exactly when a knight of the attacker is a knight jump away |
| AttackRules.KingAttacksIff | chess.cpp:198-209 | the king test holds exactly when the attacker's king is one step away |
| AttackRules.FirstOnRayIff | chess.cpp:162-196 | the ray walk stops at a square exactly when it is the nearest occupied square in that direction |
| AttackRules.SliderAttacksMembers | chess.cpp:162-196 | the slider test holds exactly when one of the rays hits |
| AttackRules.DiagonalAttacksIff | chess.cpp:162-178 | the diagonal test holds exactly when a bishop or queen of the attacker sees the target along a clear diagonal |
| AttackRules.OrthogonalAttacksIff | chess.cpp:180-196 | the orthogonal test holds exactly when a rook or queen of the attacker sees the target along a clear file or rank |
| AttackRules.IsAttackedIff | chess.cpp:124-212 | `isAttacked` holds exactly when some piece of the attacker strikes the square by its movement rule (pawns diagonally forward) |
| AttackRules.InCheckIff | chess.cpp:226-230 | a side is in check exactly when an enemy piece strikes its king's square |
| MakeUndo.Landing | chess.cpp:421 | without promotion the moving piece lands; with promotion a piece of the promoted kind whose color is white exactly when the mover is white |
| MakeUndo.MakeMove | chess.cpp:417-424 | the other side is to move, the origin is empty, the target holds the landed piece, and every other square is unchanged |
| MakeUndo.UndoMove | chess.cpp:426-432 | the side flips back, the target gets the captured cell, the origin gets the piece back (as a pawn of its color after a promotion), and nothing else changes |
| MakeUndo.UndoMakeIff | chess.cpp:417-432 | undo after make restores the position exactly when the move records the target's content and promotes only a pawn |
| MakeUndo.UndoMakeGenerated | chess.cpp:417-432 | every generated move is taken back exactly, both by `undoMove` and by the unpromoted trial move of the legality test |
| MakeUndo.MoveKeepsKings | chess.cpp:106-118 | a generated move keeps every king on the board, made with or without its promotion |
| Legality.KeepSafe | chess.cpp:239-256 | the kept moves are exactly those of the list after which the mover's king is on the board and not attacked |
| Legality.Safe | chess.cpp:241-248 | the per-move test of `generateLegalMoves`: after the move the mover's king is on the board and not attacked |
| Legality.LegalMoves | chess.cpp:234-257 | the safe moves of `generateMoves`, in order; Legality.LegalMovesIff characterises them |
| Legality.KeepSafeSnoc | chess.cpp:239-256 | one more move is appended to the kept list exactly when it is safe |
| Legality.PromotionIrrelevant | chess.cpp:243-245 | testing a move without its promotion gives the same answer as with it, so the trial move's missing promotion is harmless |
| Legality.LegalMovesIff | chess.cpp:234-257 | a move is legal exactly when it is pseudo-legal and, made with its promotion, leaves the mover's king on the board and unattacked |
| Legality.LegalListIff | chess.cpp:234-257 | the same, for every move of the legal list at once |
| Legality.RecordsCaptures | chess.cpp:111-117 | every generated move carries the content of its target square |
| Legality.TryMove | chess.cpp:241-255 | the in-place make, test and take-back leaves the position as it was, and appends the move exactly when it is safe |
| Legality.FilterInPlace | chess.cpp:239-256 | the loop over the raw moves yields the safe ones in generation order |
| Legality.GenerateLegalMoves | chess.cpp:234-257 | `generateLegalMoves` yields the legal list, which holds exactly the pseudo-legal moves that leave the mover's king unattacked |
| Evaluation.MaterialFrom | chess.cpp:436-443 | the material sum over the remaining cells is within 20000 per cell |
| Evaluation.Material | chess.cpp:436-443 | the white-minus-black sum of `evaluate` over all 64 cells lies within 20000 per cell; Evaluation.MaterialSwap and Evaluation.MaterialMove relate it to colour swaps and moves |
| Evaluation.Evaluate | chess.cpp:434-445 | the score lies within ±1,280,000, so it cannot overflow a 32-bit `int` |
| Evaluation.EvaluateSideFlip | chess.cpp:444 | the same board with the other side to move scores the negation |
| Evaluation.EvaluateColorSwap | chess.cpp:434-445 | swapping every piece's color and the side to move leaves the score unchanged |
| Evaluation.MaterialSwap | chess.cpp:436-443 | swapping every piece's color negates the material sum |
| Evaluation.MaterialUpdate | chess.cpp:436-443 | replacing one cell changes the sum by the new value minus the old one |
| Evaluation.MaterialMove | chess.cpp:420-422 | moving a piece changes the material by the landed value minus the values of the two cells it replaces |
| Evaluation.MoverGain | chess.cpp:417-424 | seen from the mover, a move gains the captured piece's value, plus 800 for a queen promotion |
| Evaluation.MoveGain | chess.cpp:417-445 | after a generated move the opponent's score is minus the mover's score plus the captured value (and 800 for a promotion) |
| Ordering.CaptureKey | chess.cpp:498-513 | the key is 0 for a quiet move, positive exactly for a capture of a more valuable piece, and within ±20000 |
| Ordering.Insert | chess.cpp:497-514 | inserting into a list with non-increasing keys keeps the keys non-increasing and adds exactly that move to the multiset |
| Ordering.PrependHead | chess.cpp:497-514 | the head of a sorted list stays in front when a lower-keyed move is inserted behind it |
| Ordering.SortMoves | chess.cpp:497-514 | the MVV-LVA sort returns a permutation of its input with non-increasing keys |
| Ordering.SortMovesMembers | chess.cpp:497-514 | the sorted list holds the same moves and has the same length |
| GameTree.NegamaxAll | chess.cpp:516-542 | the best score over the children is never below the starting best |
| GameTree.NegamaxAllMax | chess.cpp:531-534 | taking the larger with a score first or last gives the same maximum |
| GameTree.NegamaxAllIsMax | chess.cpp:516-542 | the best score is at least every child's negated value, and equals the start or one of them |
| GameTree.NegamaxOrderFree | chess.cpp:497-514 | visiting the same children in another order gives the same negamax value |
| GameTree.AlphaBetaAllWindow | chess.cpp:516-542 | the fail-hard loop returns the negamax value when it lies strictly inside the window, at most alpha when the value is, exactly beta when the value reaches beta, and never less than its starting best |
| GameTree.AlphaBetaWindow | chess.cpp:460-543 | the same window property for a whole tree |
| GameTree.AlphaBetaFullWindow | chess.cpp:588 | with the full window the search finds the negamax value |
| GameTree.NegamaxBounded | chess.cpp:516-542 | a tree whose leaves lie within the bounds has a value within them |
| TreeSearch.NoMovesScore | chess.cpp:480-494 | without moves the score is negative (a mate, between -100000 and 0) exactly when the side to move is in check, else 0 |
| TreeSearch.OrderedMoves | chess.cpp:496-514 | the search order holds exactly the legal moves |
| TreeSearch.LegalKeepsKings | chess.cpp:234-257 | every legal move keeps both kings on the board |
| TreeSearch.TakenBack | chess.cpp:518-523 | taking each searched move back after its child search gives the node's position back exactly |
| TreeSearch.Search | chess.cpp:460-475 | a table entry at least as deep answers at once with the table unchanged; depth 0 leaves the table alone; otherwise the node's entry is stored under its depth with the returned score; from a well-formed table and window below mate depth, the table stays well-formed and the score stays within ±1e9 |
| TreeSearch.SearchNode | chess.cpp:477-494 | the node's entry holds its depth and the returned score, and bounds and table shape are kept |
| TreeSearch.SearchMoves | chess.cpp:516-542 | the result stores its own score under the node's key and lies between the starting best and beta, and bounds and table shape are kept |
| TreeSearch.SearchMovesFailHigh | chess.cpp:525-530 | a child scoring at least beta ends the loop: the node returns exactly beta and stores `Entry(depth, beta)` under its key |
| TreeSearch.SearchLeaf | chess.cpp:472-475 | a depth-0 search the table does not answer returns the static evaluation |
| TreeSearch.SearchNoMoves | chess.cpp:480-494 | without legal moves a search the table does not answer scores `depth - 100000` in check and 0 otherwise |
| TreeSearch.MateSoonerScoresLower | chess.cpp:483-487 | the score as written: a mate searched with more plies left, that is nearer the root, is worth less to the side that mates than the same mate further down |
| TreeSearch.NoMovesScoreCorrected | chess.cpp:485-486 | the corrected mate score: negative exactly when the side to move is in check, and every mate at or below -100000 |
| TreeSearch.MateSoonerScoresHigher | chess.cpp:485 | with the corrected score a mate nearer the root is worth more to the side that mates, as the source's comment intends |
| TreeSearch.SearchFailHard | chess.cpp:516-530 | with legal moves and a window inside the bounds, the search never scores above beta, and when the first move in search order reaches beta it returns exactly beta and stores it under the node's key |
| SearchTree.Expand | chess.cpp:472-494 | the search tree of a position has bounded leaves below mate depth |
| SearchTree.ExpandAll | chess.cpp:518-523 | one subtree per move, each bounded |
| SearchTree.ExpandShape | chess.cpp:477-494 | the tree has a node exactly when depth > 0 and there are legal moves, with one child per legal move |
| SearchTree.ExpandFullWindow | chess.cpp:588 | alpha-beta with the full window, without the table, finds the negamax value of every position |
| SearchTree.ExpandAllMembers | chess.cpp:518-523 | the subtrees are exactly the trees of the positions after the moves |
| SearchTree.OrderingKeepsValue | chess.cpp:497-514 | the MVV-LVA order does not change the negamax value |
| SearchTree.SearchMovesLeafStep | chess.cpp:518-538 | one ply deep a child is a leaf the table does not answer, so it scores its evaluation and leaves the table alone |
| SearchTree.ExpandAllLeafStep | chess.cpp:518-538 | the same loop step on the tree |
| SearchTree.SearchMovesOnePly | chess.cpp:516-542 | the one-ply loop with the table scores exactly as alpha-beta on the tree |
| SearchTree.SearchOnePly | chess.cpp:460-543 | a one-ply search the table does not answer scores exactly as alpha-beta on the position's tree |
| BestMove.FirstBlunder | chess.cpp:579-584 | the first index whose draw falls below a positive probability, or the number of moves if none does |
| BestMove.NeverBlunders | chess.cpp:581 | at probability zero every move is searched |
| BestMove.SearchedWellFormed | chess.cpp:586-589 | root searches from a well-formed table leave well-formed tables and scores within ±1e9 |
| BestMove.SearchedSnoc | chess.cpp:586-589 | one more full-window root search extends the record of scores and tables |
| BestMove.TracksStep | chess.cpp:591-595 | a strictly higher score takes over as the best, an equal or lower one changes nothing, so the best stays the first move with the highest score |
| BestMove.SearchNext | chess.cpp:586-595 | one loop turn searches the next move with the table the earlier searches left and keeps the best move right |
| BestMove.SearchRoot | chess.cpp:579-598 | the moves are searched up to the first blunder; the blunder is played if there is one, else the first move with the highest score, else the fallback |
| BestMove.SearchBestMove | chess.cpp:547-599 | the move played is legal, and is the blunder, or the first best move in search order, or the first legal move in generation order when no score beats -1e9 |
| ChessGame.SetLevel | chess.cpp:639-657 | only the depth, the probability and the table change; the depth is 2, 4 or 6; the probability is positive exactly at level 1; the table is cleared |
| ChessGame.SetLevelLastWins | chess.cpp:639-657 | setting a level twice is setting the last one |
| ChessGame.LevelOrder | chess.cpp:639-657 | from level 1 upwards a higher level searches no shallower and blunders no more often |
| ChessGame.NewGame | chess.cpp:624-637 | the starting position, White to move, no captures, no last move, an empty table, a valid game |
| ChessGame.MoveName | chess.cpp:666 | a move's name is four characters |
| ChessGame.MoveNameParse | chess.cpp:603-611 | a move's name reads back as its two squares |
| ChessGame.Names | chess.cpp:663-668 | one name per move, in order |
| ChessGame.NamesIff | chess.cpp:663-668 | a name is listed exactly when a move bears it |
| ChessGame.LegalMoveNames | chess.cpp:659-669 | the names of the legal moves in generation order |
| ChessGame.LegalMoveNamesIff | chess.cpp:659-669 | a name is listed exactly when a legal move bears it |
| ChessGame.FindMove | chess.cpp:679-690 | no result exactly when no move joins the two squares; otherwise the first move of the list that does |
| ChessGame.Play | chess.cpp:683-688 | the move is made, the captured piece is appended to the player's captures, "You: e2-e4" is recorded, and nothing else changes |
| ChessGame.PlayerMoveAsWritten | chess.cpp:671-692 | accepted exactly when the name is four ASCII characters and a legal move joins the two squares `algebraicToSquare` reads; a refused move leaves the game unchanged |
| ChessGame.PlayerMoveBytes | chess.cpp:671-676 | on the UTF-8 bytes of any name, read as signed `char`s, the source's byte count and square arithmetic accept exactly the names `PlayerMoveAsWritten` accepts |
| ChessGame.AliasingWitness | chess.cpp:671-692 | in a new game the source accepts "i3a4", which `legalMoves()` does not list |
| ChessGame.DoubleStepPseudoLegal | chess.cpp:284-302 | in the starting position a2-a4 is a pawn's double step from its home rank over an empty a3 |
| ChessGame.DoubleStepSafe | chess.cpp:241-248 | after a2-a4 the white king is on e1 and not in check, so the move is legal |
| ChessGame.PlayerMove | chess.cpp:671-692 | the corrected `playerMove` of the Findings row, which reads squares only from "a1".."h8": a refused move leaves the game unchanged; an accepted one plays a legal move named by the string |
| ChessGame.PlayerMoveIff | chess.cpp:659-692 | the player's move is accepted exactly when `legalMoves()` lists its name |
| ChessGame.RejectsMalformed | chess.cpp:671-692 | "e1e9", "a1a1" and "e2-e4" are refused in every game |
| ChessGame.PlayerMoveValid | chess.cpp:671-692 | a played move keeps both kings, a valid level and a well-formed table |
| ChessGame.PlayerMoveAsWrittenValid | chess.cpp:671-692 | the source's own `playerMove` keeps a valid game valid, whatever string it is given |
| ChessGame.PlayerMoveAgrees | chess.cpp:675-676 | on names that spell two squares the unchecked and the checked reading give the same outcome |
| ChessGame.PlayerMoveAliasing | chess.cpp:675-676 | the source accepts "i3" + t exactly when it accepts "a2" + t, and such a name is never listed; the checked reading refuses it |
| ChessGame.AiDepth | chess.cpp:696-700 | the search depth is the level's or exactly 2 more, and 2 more exactly when the evaluation is more than 1500 from even |
| ChessGame.AiPlay | chess.cpp:701-706 | the engine's move is made, its capture appended to the engine's captures, "AI: " and the name recorded, the search's table kept, and the game stays valid |
| ChessGame.AiMove | chess.cpp:694-708 | the engine plays a legal move chosen by `searchBestMove` at `AiDepth`, returns its name, keeps the game valid with the table the search left, and every root score lies within ±1e9 |
| ChessGame.InCheck | chess.cpp:710-713 | `inCheck`: the side to move's king is attacked |
| ChessGame.IsCheckmate | chess.cpp:715-723 | `isCheckmate`: in check and without a legal move; ChessGame.GameOverKinds relates it to stalemate |
| ChessGame.IsStalemate | chess.cpp:725-733 | `isStalemate`: not in check and without a legal move |
| ChessGame.GameOverKinds | chess.cpp:715-733 | checkmate and stalemate never hold together, and one of them holds exactly when there is no legal move |
| ChessGame.GameOverScores | chess.cpp:480-494 | the search scores a checkmate as a negative mate score and a stalemate as 0 |
| ChessGame.GameBoard64 | chess.cpp:735-738 | 64 characters, each reading back as the board's cell |

## Left out

- `clearScreen` (chess.cpp:61-68) shells out to the terminal. The GUI in `gui.py` and the Python binding in `engine.cpp` are outside the engine core.
- Random numbers: the `random_device`, `mt19937` and uniform draw of `searchBestMove` become the input sequence `draws` of real numbers, one per move in search order. The source draws only when the probability is positive; the model ignores the draws then, which is the same.
- Move names reach `playerMove` through the Python binding, which `engine.cpp` implements and which is not part of this model. `Utf8.Encode` takes the bytes to be the name's UTF-8 encoding, which is how a Python `str` becomes a `std::string`. A surrogate code point cannot occur in a Dafny `char`.
- `randomProbability` is a `real` rather than a `double`. Only comparisons with it are modelled.
- Board characters become the datatype `Cell`. `std::tolower`/`isupper` are read over the fixed alphabet of piece letters. A character outside it reads as an empty square (`Pieces.CharCell`).
- The table key is the datatype `Key` holding board, side and depth, not the concatenated string; the key strings are distinct exactly when the three parts differ. Hashing and memory growth of the `unordered_map` are not modelled.
- The table is global in the source and persists across calls of `aiMove`; here it is a field of the game, cleared by `setLevel` as the source clears it.
- Attacks.KingSquare requires a king; the source returns -1 when there is none (chess.cpp:223), and `isInCheck` then asks about the off-board square -1.
- Legality.Safe treats a mover without a king as having no legal move, and TreeSearch.NoMovesScore treats it as not in check. Games keep both kings, so neither case is reached: NewGame starts with both, and PlayerMoveAsWrittenValid, PlayerMoveValid and AiMove keep them.
- BestMove.SearchBestMove requires a non-empty legal list, because the source reads `moves[0]` (chess.cpp:556).
- Ordering.SortMoves is a stable insertion sort. `std::sort` leaves the order of equal keys open. The model fixes one admissible order. OrderingKeepsValue shows that the order does not change the negamax value. The root's tie-break among equal scores does depend on it.
- TreeSearch.Search is connected to alpha-beta on the search tree only one ply deep (SearchTree.SearchOnePly). A fail-high stores `beta` as if it were an exact score (chess.cpp:528), and a later hit at that depth returns it. With the table, the search is not the table-free alpha-beta in general. The window and negamax results are proved on the table-free tree (GameTree, SearchTree.ExpandFullWindow).
- BestMove.SearchRoot records each root score as what the table search returned (BestMove.Searched). It does not relate those scores to negamax values, for the reason above.
- No integer wrap-around is modelled. Evaluations stay within ±1,280,000 and depths are small. Search scores stay within ±1e9 for every search from a well-formed table: every valid game holds one (ChessGame.Valid), and the engine's root searches keep it (BestMove.SearchedWellFormed). So every value fits the source's 32-bit `int`.
- Performance of the search (depths 6 to 8) and the table's effect on speed are not modelled.

## Findings

| source | as written | input that shows it | evidently intended | confidence | as-written member | corrected member |
|---|---|---|---|---|---|---|
| chess.cpp:608-611 | `algebraicToSquare` computes `('8' - s[1]) * 8 + (s[0] - 'a')` without checking that the name is a file letter a..h and a rank digit 1..8, and `playerMove` (chess.cpp:675-676) uses it unchecked | in the starting position "i3a4" reads as a2 to a4 and is played, though `legalMoves()` never lists "i3a4" | a move is accepted exactly when `legalMoves()` lists its name | not executed | ChessGame.AliasingWitness | ChessGame.PlayerMoveIff |
| chess.cpp:483-487 | a mated node scores `-100000 + depth`, where `depth` counts the plies still to search, so a mate nearer the root scores higher for the mated side | `aiMove` at depth 4: a mate in 1 leaves a mated node at depth 3, scored -99997, worth 99997 at the root; a forced mate in 2 ends at depth 1, scored -99999, worth 99999; the slower mate wins | a mate nearer the root outranks a later one, as the comment at chess.cpp:485 says, that is `-100000 - depth` | not executed | TreeSearch.MateSoonerScoresLower | TreeSearch.MateSoonerScoresHigher |

The second row's corrected score, TreeSearch.NoMovesScoreCorrected, stands beside the search and is not used by it. TreeSearch.Search keeps the score as written, because it models the move the engine actually plays.
