/** One move of a game: the board, game-over flag and winner a player's
    column choice produces, and the turn hand-over. */
module Game {
  import opened Wrappers
  import opened Constants
  import opened Geometry
  import opened Board
  import opened Sequence

  /** Either nobody has won yet, or the named player has. */
  datatype Winner = NoOne | Won(name: int)

  /** The state one move reads and writes. `turn` is the name of the player
      to move. */
  datatype GameState = GameState(board: Grid, gameOver: bool, turn: int, winner: Winner)

  /** The other player's name: Player 2 after Player 1, Player 1 after anyone
      else. */
  function OtherPlayer(p: int): (q: int)
    ensures IsPlayer(q)
    ensures IsPlayer(p) ==> q != p
  {
    if p == Player1 then Player2 else Player1
  }

  /** Handing the turn over twice gives it back. */
  lemma OtherPlayerTwice(p: int)
    requires IsPlayer(p)
    ensures OtherPlayer(OtherPlayer(p)) == p
  {
  }

  /** Game-over flag and winner once `name`'s piece has landed on (r, c) of
      `board`: a win ends the game with `name` as winner, and a board without
      a playable column ends it too. */
  function Settle(n: int, s: GameState, board: Grid, r: int, c: int, name: int): (s': GameState)
    requires IsBoard(board) && InBounds(|board|, (r, c))
    ensures s'.board == board && s'.turn == s.turn
    ensures IsWinningMove(n, board, (r, c), name) ==> s'.gameOver && s'.winner == Won(name)
    ensures !IsWinningMove(n, board, (r, c), name) ==> s'.winner == s.winner
    ensures s'.gameOver <==> s.gameOver || IsWinningMove(n, board, (r, c), name) || ValidLocations(board) == []
  {
    var afterWin :=
      if IsWinningMove(n, board, (r, c), name) then s.(board := board, gameOver := true, winner := Won(name))
      else s.(board := board);
    if ValidLocations(board) == [] then afterWin.(gameOver := true) else afterWin
  }

  /** The state after `name` picks `column`. An unplayable column (none, out of
      range or full) changes nothing. Otherwise the piece drops into the next
      open row; a win ends the game with `name` as winner, and a board left
      without a playable column ends the game too, whoever won. Nothing here
      looks at whether the game was already over, and the turn is left to the
      caller. */
  function ProcessPlayerInput(n: int, s: GameState, column: Option<int>, name: int): (s': GameState)
    requires Fits(n, s.board) && IsPlayer(name)
    ensures s'.turn == s.turn
    ensures s.gameOver ==> s'.gameOver
    ensures IsBoard(s'.board) && |s'.board| == |s.board|
    ensures !IsValidColumn(s.board, column) ==> s' == s
    ensures IsValidColumn(s.board, column) ==>
              Placed(s.board, s'.board, LandingRow(s.board, column.value), column.value, name)
    ensures IsValidColumn(s.board, column) && IsWinningMove(n, s'.board, (LandingRow(s.board, column.value), column.value), name) ==>
              s'.gameOver && s'.winner == Won(name)
    ensures IsValidColumn(s.board, column) && !IsWinningMove(n, s'.board, (LandingRow(s.board, column.value), column.value), name) ==>
              s'.winner == s.winner
    ensures IsValidColumn(s.board, column) ==>
              (s'.gameOver <==>
                 s.gameOver || IsWinningMove(n, s'.board, (LandingRow(s.board, column.value), column.value), name) ||
                 ValidLocations(s'.board) == [])
    ensures Stacked(s.board) ==> Stacked(s'.board)
  {
    if !IsValidColumn(s.board, column) then s
    else
      var c := column.value;
      Settle(n, s, Drop(s.board, c, name), LandingRow(s.board, c), c, name)
  }

  /** A played move wins exactly when the dropped piece lies in a line of n of
      the player's pieces along one of the four axes. */
  lemma WinIffLineThroughMove(n: int, s: GameState, c: int, name: int)
    requires Fits(n, s.board) && IsPlayer(name) && IsValidColumn(s.board, Some(c))
    requires s.winner == NoOne
    ensures var s' := ProcessPlayerInput(n, s, Some(c), name);
            var r := LandingRow(s.board, c);
            s'.winner == Won(name) <==> exists axis :: IsAxis(axis) && LineThrough(n, s'.board, (r, c), axis, name)
  {
    var s' := ProcessPlayerInput(n, s, Some(c), name);
    var r := LandingRow(s.board, c);
    WinningMoveIffLine(n, s'.board, (r, c), name);
  }

  /** A move into the board's last empty top-row cell, whose column is
      otherwise full, ends the game; it ends as a tie, with nobody as winner,
      exactly when the move does not win. */
  lemma FullBoardIsTie(n: int, s: GameState, c: int, name: int)
    requires Fits(n, s.board) && IsPlayer(name) && s.winner == NoOne
    requires 0 <= c < |s.board| && s.board[0][c] == Empty
    requires forall k :: 0 < k < |s.board| ==> s.board[k][c] != Empty
    requires forall c' :: 0 <= c' < |s.board| && c' != c ==> s.board[0][c'] != Empty
    ensures var s' := ProcessPlayerInput(n, s, Some(c), name);
            s'.gameOver && (s'.winner == NoOne <==> !IsWinningMove(n, s'.board, (0, c), name))
  {
    LastCellFillsTopRow(s.board, c, name);
    NoValidLocationsIffTopRowFull(Drop(s.board, c, name));
  }

  /** Dropping into the last empty top-row cell, whose column is otherwise
      full, lands on row 0 and leaves no playable column. */
  lemma LastCellFillsTopRow(g: Grid, c: int, name: int)
    requires IsBoard(g) && IsPlayer(name)
    requires 0 <= c < |g| && g[0][c] == Empty
    requires forall k :: 0 < k < |g| ==> g[k][c] != Empty
    requires forall c' :: 0 <= c' < |g| && c' != c ==> g[0][c'] != Empty
    ensures IsValidColumn(g, Some(c)) && LandingRow(g, c) == 0
    ensures forall c' :: 0 <= c' < |g| ==> Drop(g, c, name)[0][c'] != Empty
  {
    assert IsValidColumn(g, Some(c));
    assert g[LandingRow(g, c)][c] == Empty;
    assert Placed(g, Drop(g, c, name), 0, c, name);
  }
}
