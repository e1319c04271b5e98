# Connect-N game logic in Dafny

This project models the game logic of a Connect-N game (a Connect Four that
lets the player choose the board side and the connect length), separated from
its pygame front end. The model covers:

- the square board and its queries: row and column reads, column validity,
  the next open row, the list of playable columns, and the two diagonal
  window walks;
- the adjacency graph the board is built from, and the neighbour test the
  graph walks use;
- win detection: the run of a player's pieces along each of four axes
  through the piece just played;
- the hard AI's scoring heuristic: window evaluation, the four scans over the
  board, the position score, and the choice of the best column, plus the easy
  AI's pick;
- one move of a game: the board, game-over flag and winner after a player
  picks a column, and the hand-over of the turn.

The board is a value, `seq<seq<int>>`, with row 0 at the top. Gravity pulls
pieces towards the last row. A cell holds `Empty` (0), `Player1` (1) or
`Player2` (2). The connect length `n` is a parameter of every operation,
because the start-up dialog overwrites the module constant. The board's
representation invariant gives side >= n. The source's graph of `Node`
objects is replaced by index arithmetic. The `Adjacency` module proves that
the graph links every cell to exactly the in-board cells among its eight
surrounding cells, and that the neighbour test picks exactly one fixed unit
step in each direction. With that, every graph walk is a walk by a unit step
(`Geometry.At`).

Modules, in dependency order: `Wrappers` (Option), `Constants`, `Geometry`,
`Board`, `Adjacency`, `Sequence` (win detection), `Heuristic`, `Ai` and
`Game`.

Where the code's docstrings and its behaviour differ, and where the code does
something a reader might not expect, the model follows the code:

- **The score is not symmetric.** `evaluate_window` always counts the
  opponent as Player 1, and its docstring limits `piece` to Player 2. Called
  for Player 1, it punishes Player 1's own pieces as a threat, so swapping
  the players does not negate the score. `Heuristic.ScoreNotSymmetric`
  exhibits a window where it does not.
- **Diagonal windows can be short.** The diagonal scans start their walks
  where the walk runs off the board early: the rising scan begins at row 0,
  the falling scan at row r + n - 1 walking down. Many diagonal windows are
  therefore shorter than `n`, although the docstring of `evaluate_window`
  requires a window of length n. The model accepts windows of any length.
  `Heuristic.RisingWindowOnTopRowIsOneCell` shows the extreme case.
- **Finished games are not guarded.** `process_player_input` does not check
  whether the game is already over, and the event loop hands the turn over
  even after an unplayable click. `Game.ProcessPlayerInput` therefore leaves
  `turn` alone and accepts moves on a finished game.
- **The win bonus is 1000.** The docstring of `evaluate_window` speaks of
  1000000, but the code adds 1000.

## Model

| member | source | states |
|---|---|---|
| Board.RowFill | components.py:105-110 | the row read is row r of the board, left to right: side many fills, element i being the fill of (r, i) |
| Board.ColumnFill | components.py:98-103 | the column read has side many fills, bottom-up: element i is the fill of (side - 1 - i, c) |
| Board.IsValidColumn | components.py:163-168 | is_valid_column: a column is playable exactly when it is on the board and its top cell is empty; a click outside every column is not playable |
| Board.NextOpenRow | components.py:170-175 | a found row lies on the board, is empty, and every row below it in the column is filled (so it is the largest empty row); None exactly when the column has no empty cell |
| Board.ValidLocations | components.py:112-119 | strictly increasing, and a column is listed exactly when it is on the board and passes is_valid_column |
| Board.ValidColumnIffOpenRow | components.py:163-175 | a valid column (top cell empty) always has an open row; on a gravity-stacked board, validity and having an open row coincide |
| Board.NoValidLocationsIffTopRowFull | components.py:112-119 | no column is playable exactly when every top-row cell is filled |
| Board.Walk | components.py:132-140 | the walk shared by both diagonal reads: start cell first, one unit step per element, and as many elements as the budget and the board edge allow |
| Board.PositiveDiagonal | components.py:121-140 | element i is the fill of (row - i, col + i); the length is the least of n, row + 1 and side - col; exactly n when the far end (row - n + 1, col + n - 1) is on the board |
| Board.NegativeDiagonal | components.py:142-161 | element i is the fill of (row + i, col + i); the length is the least of n, side - row and side - col; exactly n when (row + n - 1, col + n - 1) is on the board |
| Board.SetCell | player.py:154-160 | make_move without display: the board stays a board of the same side, (r, c) holds the player's name, and every other cell is unchanged |
| Board.Drop | game.py:91-93 | a piece dropped into a playable column lands on the next open row, which was empty; nothing else changes, and a stacked board stays stacked |
| Board.DropKeepsStacked | game.py:91-93 | filling the next open row of a column keeps every piece resting on a piece or on the bottom row |
| Adjacency.NeighboursAreSurroundingCells | components.py:68-84 | the edges the constructor's loops add link two cells exactly when they are distinct in-board cells at most one row and one column apart |
| Adjacency.NeighbourInvariants | components.py:319-321 | no node is its own neighbour, and the neighbour relation is symmetric |
| Adjacency.NodesAreCells | components.py:68-84 | the graph's nodes are exactly the board's cells when the side is at least two |
| Adjacency.SingleCellBoardHasNoNodes | components.py:68-84 | a board of side one gets no edges and therefore no nodes |
| Adjacency.IsDirectionNeighbour | components.py:369-400 | is_direction_neighbour: with the fill check, the node holds the player's name and lies in the same column, the same row, or on the rising or falling diagonal, as the direction asks; without it, the fill is ignored and the node lies in the same column or row, or up-right, down-left, up-left or down-right of the cell, as the direction asks |
| Adjacency.AxisNeighbourIsAxisStep | components.py:374-386 | with the fill check, a neighbour counts for an axis exactly when it holds the player's name and lies one axis step away on either side |
| Adjacency.WalkNeighbourIsStep | components.py:387-400 | without the fill check, the upper-right neighbour is the cell one step (-1, +1) away and the lower-right neighbour the cell one step (+1, +1) away |
| Sequence.Run | components.py:361-367 | the cells gathered on one side along an axis are consecutive unit steps away, on the board and holding the player's name, and the next cell is not |
| Sequence.RunIsLongest | components.py:361-367 | the run is the longest stretch of the player's cells right after the start cell: that many are filled, one more is not |
| Sequence.FindSequence | components.py:356-367 | find_sequence: the played cell followed by the player's cells reached from it in both senses along the axis; the played cell comes first |
| Sequence.FindSequenceCells | components.py:356-367 | the sequence's cells are distinct; all after the first lie on the axis line through it and hold the player's name |
| Sequence.IsWinningMove | player.py:57-67 | is_winning_move: one of the four axis sequences through the cell has at least n cells |
| Sequence.SequenceLengthIffLine | components.py:356-400 | the sequence along an axis has at least n cells exactly when the played cell lies in n consecutive player cells along that axis |
| Sequence.WinningMoveIffLine | player.py:57-67 | is_winning_move holds exactly when some axis has a line of n of the player's cells through the played cell |
| Sequence.StackOfNWins | player.py:57-67 | a piece played on top of n - 1 of the same player's pieces in its column is a winning move |
| Heuristic.Count | player.py:204-220 | the count of a value is its multiplicity in the window; it is zero exactly when no element has the value, and the window length exactly when all do |
| Heuristic.Gain | player.py:204-211 | the first chain of evaluate_window: 1000 for n of the piece, else 40 for n - 1 and one gap, else 10 for n - 2 and two gaps, else 1 |
| Heuristic.Penalty | player.py:213-220 | the second chain, always for Player 1: 800 for n - 1 and one gap, else 400 for n - 2 and two gaps, else 10 for n - 3 and three gaps, else 1 |
| Heuristic.EvaluateWindow | player.py:184-222 | one gain of 1000/40/10/1 minus one penalty of 800/400/10/1 puts the score in [-799, 999]; the score reaches 200 exactly when the window holds n of the piece |
| Heuristic.WindowScoreIgnoresOrder | player.py:201-222 | windows with the same contents in any order score the same |
| Heuristic.FullWindowScore | player.py:204-220 | a length-n window made only of the scoring player's pieces scores exactly 999, for either player |
| Heuristic.ThreatWindowScore | player.py:213-214 | for Player 2, a length-n window with n - 1 of Player 1's pieces and one gap scores -799 |
| Heuristic.EmptyWindowScoresZero | player.py:204-220 | with connect length 4, an all-empty window of length at most 4 scores 0 |
| Heuristic.ScoreNotSymmetric | player.py:197-202 | three of Player 2's pieces and a gap score 39 for Player 2, but the mirror window scores -760 for Player 1, so swapping the players does not negate the score |
| Heuristic.Window | player.py:115-152 | row and column windows are slices of exactly n cells, columns read bottom-up; diagonal windows follow the diagonal walks from (i, j) upward and from (i + n - 1, j) downward, with lengths min(n, i + 1) and min(n, side - i - n + 1) |
| Heuristic.RisingWindowOnTopRowIsOneCell | player.py:138-141 | the rising scan's windows that start on row 0 hold a single cell |
| Heuristic.ScanLines | player.py:115-152 | a scan visits side lines (side - n + 1 for diagonals), each with side - n + 1 windows, and window j of line i is Window(i, j) |
| Heuristic.SumScores | player.py:117-123 | the sum of a list of window scores lies within -799 and 999 times the list's length |
| Heuristic.SumLines | player.py:115-133 | the sum over lines of k windows lies within -799 and 999 times the number of windows |
| Heuristic.ScanScore | player.py:115-152 | a scan total lies within -799 and 999 times its number of windows, lines times windows per line |
| Heuristic.ScorePosition | player.py:94-113 | the position score lies between -799 per window visited and 6 per centre cell plus 999 per window |
| Heuristic.EmptyBoardScanScoresZero | player.py:115-152 | with connect length 4, every scan of the empty board totals 0 |
| Heuristic.EmptyBoardScoresZero | player.py:94-113 | with connect length 4, the empty board scores 0 for either player |
| Ai.MoveScore | player.py:170-175 | the score of the board after a trial drop obeys the position-score bounds |
| Ai.MoveScores | player.py:165-179 | one score per playable column, in the order get_valid_locations lists them: the score of the board after a trial drop into that column |
| Ai.PickAmong | player.py:170-179 | the loop's best score is at least the initial best and every candidate's; it stays the initial pick unless some candidate scores strictly higher, in which case it is the first candidate with the best score |
| Ai.BestColumn | player.py:165-182 | the chosen column is a candidate: the fallback when no score beats -10000, otherwise the first candidate with the highest score |
| Ai.PickBestMove | player.py:162-182 | the hard AI returns a playable column: the first one whose drop scores highest when some drop beats -10000, the randomly chosen one otherwise |
| Ai.EasyPick | player.py:228-231 | the easy AI returns a column on the board whose top cell is empty |
| Game.OtherPlayer | game.py:146-155 | the result is a player's name, different from a player's name it is given |
| Game.OtherPlayerTwice | game.py:146-155 | handing the turn over twice returns it to the same player |
| Game.ProcessPlayerInput | game.py:83-107 | an unplayable column changes nothing; a playable one fills exactly the empty next open row with the player's name, sets game over and winner on a win, keeps the winner otherwise, ends the game on a full board, never changes the turn, never clears game over, and keeps a stacked board stacked |
| Game.Settle | game.py:94-102 | after the drop, a winning move sets game over and the player as winner, a non-winning one keeps the winner, and game over is set when it was set before, on a win, or when no column is playable |
| Game.WinIffLineThroughMove | game.py:91-95 | from a state without a winner, the move makes its player the winner exactly when the dropped piece lies in a line of n of that player's pieces |
| Game.FullBoardIsTie | game.py:91-102 | a move into the last empty top-row cell ends the game, and it ends with nobody as winner exactly when the move does not win |
| Game.LastCellFillsTopRow | game.py:91-93 | a piece dropped into the last empty top-row cell, its column otherwise full, lands on row 0 and leaves every top-row cell filled |

## Left out

- Drawing and input: `Board.draw`, `Node.draw`, `Button`, `InputBox`, `get_col_from_x`, `draw_header`, `draw_hanging_circle`, `ask_the_level_of_difficulty` and the winning or tie labels. They are pygame UI; a click that hits no column reaches the model as `None`.
- `Game.run_game`: a pygame event loop. It hands the turn over after every click, even an unplayable one; only its building blocks (`ProcessPlayerInput`, `OtherPlayer`, `PickBestMove`) are modelled.
- `user_config` and main.py: text parsing from input boxes and window-size arithmetic. Their effect is the side and the connect length, which are parameters here.
- `random.choice`: the random pick becomes the parameter `choice`, an index into the playable columns. The requirement that this list is non-empty is kept as a precondition.
- `deepcopy`, `temp_board` and the screen swap in `pick_best_move`: with a board that is a value, a trial drop cannot touch the live board.
- `Board.__repr__`, `Node.__repr__`, `get_neighbours_dict`, the python_ta blocks, colours and pixel sizes: output only.
- `Player.color` and `Node.span`/`rect`: drawing attributes.
- Boards of side one: the adjacency graph has no nodes for them, so the model requires a side of at least two. `Adjacency.SingleCellBoardHasNoNodes` records why.
- Sequence.FindSequence: the source returns the cells in the iteration order of its neighbour sets, which is unspecified; the model fixes one order (ahead, then behind). What the cells are is stated by `Sequence.FindSequenceCells`, and when their number reaches n by `Sequence.SequenceLengthIffLine`; the contract of `FindSequence` itself only places the start cell first.
- Heuristic.ScorePosition: the contract bounds the score and `EmptyBoardScoresZero` pins one value; the exact sum (six per centre piece plus the four scans) is stated by the definition only.
- Heuristic.ScanScore: likewise bounded; that it adds exactly the scores of the windows `ScanLines` lists is stated by the definition.
- Integer width: Python integers are unbounded, so no wrap-around is modelled.
