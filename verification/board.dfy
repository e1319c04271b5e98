/** The board queries of components.py on a dense board of cell fills:
    row and column reads, column validity, the next open row, the list of
    playable columns, the two diagonal window walks, and filling one cell. */
module Board {
  import opened Wrappers
  import opened Constants
  import opened Geometry

  /** The fills of a square board, row by row; row 0 is the top row and gravity
      pulls pieces towards row |g| - 1. */
  type Grid = seq<seq<int>>

  /** A square board of side at least two whose cells are empty or hold a
      player's name. (The source builds its cells from the edges of the
      adjacency graph, and a board of side one has no edges and so no cells;
      see Adjacency.SingleCellBoardHasNoNodes.) */
  predicate IsBoard(g: Grid) {
    2 <= |g| &&
    forall r :: 0 <= r < |g| ==> |g[r]| == |g| && forall c :: 0 <= c < |g| ==> IsCell(g[r][c])
  }

  /** The board's side is at least the connect length `n`, which is positive. */
  predicate Fits(n: int, g: Grid) {
    IsBoard(g) && 1 <= n <= |g|
  }

  function Cell(g: Grid, p: Coord): int
    requires IsBoard(g) && InBounds(|g|, p)
  {
    g[p.0][p.1]
  }

  /** get_nodes_fill_for_row: the fills of row `r`, left to right. */
  function RowFill(g: Grid, r: int): (w: seq<int>)
    requires IsBoard(g) && 0 <= r < |g|
    ensures w == g[r]
  {
    RowPrefix(g, r, |g|)
  }

  function RowPrefix(g: Grid, r: int, k: nat): (w: seq<int>)
    requires IsBoard(g) && 0 <= r < |g| && k <= |g|
    ensures w == g[r][..k]
  {
    if k == 0 then [] else RowPrefix(g, r, k - 1) + [g[r][k - 1]]
  }

  /** get_nodes_fill_for_column: the fills of column `c`, bottom-up. */
  function ColumnFill(g: Grid, c: int): (w: seq<int>)
    requires IsBoard(g) && 0 <= c < |g|
    ensures |w| == |g|
    ensures forall i :: 0 <= i < |w| ==> w[i] == g[|g| - 1 - i][c]
  {
    ColumnFrom(g, c, |g|)
  }

  /** The bottom `k` fills of column `c`, bottom-up. */
  function ColumnFrom(g: Grid, c: int, k: nat): (w: seq<int>)
    requires IsBoard(g) && 0 <= c < |g| && k <= |g|
    ensures |w| == k
    ensures forall i :: 0 <= i < k ==> w[i] == g[|g| - 1 - i][c]
  {
    if k == 0 then [] else ColumnFrom(g, c, k - 1) + [g[|g| - k][c]]
  }

  /** is_valid_column: the column exists (a missing click is None) and its top
      cell is empty. */
  predicate IsValidColumn(g: Grid, col: Option<int>)
    requires IsBoard(g)
  {
    match col
    case None => false
    case Some(c) => if 0 <= c < |g| then g[0][c] == Empty else false
  }

  /** get_next_open_row: the lowest empty cell of column `c`, scanning from the
      bottom row up, or None when the column has no empty cell. */
  function NextOpenRow(g: Grid, c: int): (row: Option<int>)
    requires IsBoard(g) && 0 <= c < |g|
    ensures row.Some? ==>
              && 0 <= row.value < |g|
              && g[row.value][c] == Empty
              && forall r :: row.value < r < |g| ==> g[r][c] != Empty
    ensures row.None? <==> forall r :: 0 <= r < |g| ==> g[r][c] != Empty
  {
    OpenRowAtOrAbove(g, c, |g| - 1)
  }

  function OpenRowAtOrAbove(g: Grid, c: int, r: int): (row: Option<int>)
    requires IsBoard(g) && 0 <= c < |g| && -1 <= r < |g|
    ensures row.Some? ==>
              && 0 <= row.value <= r
              && g[row.value][c] == Empty
              && forall r' :: row.value < r' <= r ==> g[r'][c] != Empty
    ensures row.None? <==> forall r' :: 0 <= r' <= r ==> g[r'][c] != Empty
    decreases r + 1
  {
    if r < 0 then None
    else if g[r][c] == Empty then Some(r)
    else OpenRowAtOrAbove(g, c, r - 1)
  }

  /** get_valid_locations: the playable columns in increasing order. */
  function ValidLocations(g: Grid): (cols: seq<int>)
    requires IsBoard(g)
    ensures forall i, j :: 0 <= i < j < |cols| ==> cols[i] < cols[j]
    ensures forall c :: c in cols <==> 0 <= c < |g| && IsValidColumn(g, Some(c))
  {
    ValidBelow(g, |g|)
  }

  /** The playable columns among 0 .. k - 1, in increasing order. */
  function ValidBelow(g: Grid, k: nat): (cols: seq<int>)
    requires IsBoard(g) && k <= |g|
    ensures forall i, j :: 0 <= i < j < |cols| ==> cols[i] < cols[j]
    ensures forall c :: c in cols <==> 0 <= c < k && IsValidColumn(g, Some(c))
  {
    if k == 0 then []
    else
      var before := ValidBelow(g, k - 1);
      assert forall i :: 0 <= i < |before| ==> before[i] in before;
      before + (if IsValidColumn(g, Some(k - 1)) then [k - 1] else [])
  }

  /** The fills met walking from `p` by steps of `d`: `p` first, then at most
      `budget` cells in all, stopping at the board edge. This is the recursion
      of get_positive_diagonal / get_negative_diagonal, whose shared visited set
      grows by one per call and stops the walk once it holds the connect length. */
  function Walk(g: Grid, p: Coord, d: Dir, budget: nat): (w: seq<int>)
    requires IsBoard(g) && InBounds(|g|, p) && IsUnit(d) && 1 <= budget
    ensures |w| == Min(budget, Reach(|g|, p, d))
    ensures forall i :: 0 <= i < |w| ==> InBounds(|g|, At(p, d, i)) && w[i] == Cell(g, At(p, d, i))
    decreases budget
  {
    StepFacts(|g|, p, d);
    var q := At(p, d, 1);
    if 1 < budget && InBounds(|g|, q) then
      var rest := Walk(g, q, d, budget - 1);
      var w := [Cell(g, p)] + rest;
      forall i | 0 <= i < |w|
        ensures InBounds(|g|, At(p, d, i)) && w[i] == Cell(g, At(p, d, i))
      {
        if i > 0 {
          assert w[i] == rest[i - 1];
          assert At(q, d, i - 1) == At(p, d, i);
        }
      }
      w
    else
      [Cell(g, p)]
  }

  /** get_positive_diagonal: from (row, col) up and to the right. */
  function PositiveDiagonal(n: int, g: Grid, row: int, col: int): (w: seq<int>)
    requires Fits(n, g) && InBounds(|g|, (row, col))
    ensures |w| == Min(n, Min(row + 1, |g| - col))
    ensures forall i :: 0 <= i < |w| ==> w[i] == g[row - i][col + i]
    ensures InBounds(|g|, (row - n + 1, col + n - 1)) ==> |w| == n
  {
    Walk(g, (row, col), UpRight, n)
  }

  /** get_negative_diagonal: from (row, col) down and to the right. */
  function NegativeDiagonal(n: int, g: Grid, row: int, col: int): (w: seq<int>)
    requires Fits(n, g) && InBounds(|g|, (row, col))
    ensures |w| == Min(n, Min(|g| - row, |g| - col))
    ensures forall i :: 0 <= i < |w| ==> w[i] == g[row + i][col + i]
    ensures InBounds(|g|, (row + n - 1, col + n - 1)) ==> |w| == n
  {
    Walk(g, (row, col), DownRight, n)
  }

  /** make_move without display: the cell (r, c) takes the player's name and no
      other cell changes. */
  function SetCell(g: Grid, r: int, c: int, name: int): (g': Grid)
    requires IsBoard(g) && 0 <= r < |g| && 0 <= c < |g| && IsPlayer(name)
    ensures IsBoard(g') && |g'| == |g|
    ensures g'[r][c] == name
    ensures forall r', c' :: 0 <= r' < |g| && 0 <= c' < |g| && (r', c') != (r, c) ==> g'[r'][c'] == g[r'][c']
  {
    g[r := g[r][c := name]]
  }

  /** The piece at (r, c), if any, lies on the bottom row or on another piece. */
  predicate Supported(g: Grid, r: int, c: int)
    requires IsBoard(g) && 0 <= r < |g| && 0 <= c < |g|
  {
    g[r][c] != Empty && r < |g| - 1 ==> g[r + 1][c] != Empty
  }

  /** Every played cell rests on a played cell or on the bottom row: the shape
      gravity-drops produce. */
  predicate Stacked(g: Grid)
    requires IsBoard(g)
  {
    forall r, c :: 0 <= r < |g| && 0 <= c < |g| ==> Supported(g, r, c)
  }

  /** On a stacked board every cell above an empty cell is empty. */
  lemma {:induction false} EmptyAbove(g: Grid, c: int, r: int)
    requires IsBoard(g) && Stacked(g) && 0 <= c < |g| && 0 <= r < |g| && g[r][c] == Empty
    ensures forall r' :: 0 <= r' <= r ==> g[r'][c] == Empty
    decreases r
  {
    if r > 0 {
      assert Supported(g, r - 1, c);
      EmptyAbove(g, c, r - 1);
    }
  }

  /** A column is playable exactly when it has an open row: one direction holds
      on every board (the top cell is empty), the other on stacked boards. */
  lemma ValidColumnIffOpenRow(g: Grid, c: int)
    requires IsBoard(g) && 0 <= c < |g|
    ensures IsValidColumn(g, Some(c)) ==> NextOpenRow(g, c).Some?
    ensures Stacked(g) ==> (IsValidColumn(g, Some(c)) <==> NextOpenRow(g, c).Some?)
  {
    if Stacked(g) && NextOpenRow(g, c).Some? {
      EmptyAbove(g, c, NextOpenRow(g, c).value);
    }
  }

  /** Dropping a piece into the next open row keeps the board stacked. */
  lemma DropKeepsStacked(g: Grid, c: int, name: int)
    requires IsBoard(g) && Stacked(g) && 0 <= c < |g| && IsPlayer(name) && NextOpenRow(g, c).Some?
    ensures Stacked(SetCell(g, NextOpenRow(g, c).value, c, name))
  {
    var row := NextOpenRow(g, c).value;
    var g' := SetCell(g, row, c, name);
    forall r, c' | 0 <= r < |g'| && 0 <= c' < |g'|
      ensures Supported(g', r, c')
    {
      assert Supported(g, r, c');
    }
  }

  /** Row where a piece dropped into a playable column comes to rest. */
  function LandingRow(g: Grid, c: int): (r: int)
    requires IsBoard(g) && IsValidColumn(g, Some(c))
    ensures NextOpenRow(g, c) == Some(r)
  {
    ValidColumnIffOpenRow(g, c);
    NextOpenRow(g, c).value
  }

  /** `g'` is `g` with the empty cell (r, c) taken by `name`, and nothing else
      changed. */
  predicate Placed(g: Grid, g': Grid, r: int, c: int, name: int)
    requires IsBoard(g) && IsBoard(g') && |g'| == |g| && InBounds(|g|, (r, c))
  {
    g[r][c] == Empty && g'[r][c] == name &&
    forall r', c' :: 0 <= r' < |g| && 0 <= c' < |g| && (r', c') != (r, c) ==> g'[r'][c'] == g[r'][c']
  }

  /** A player's piece dropped into a playable column: it lands in the next
      open row, which was empty, and nothing else changes. */
  function Drop(g: Grid, c: int, name: int): (g': Grid)
    requires IsBoard(g) && IsPlayer(name) && IsValidColumn(g, Some(c))
    ensures IsBoard(g') && |g'| == |g|
    ensures Placed(g, g', LandingRow(g, c), c, name)
    ensures Stacked(g) ==> Stacked(g')
  {
    ValidColumnIffOpenRow(g, c);
    var g' := SetCell(g, LandingRow(g, c), c, name);
    if Stacked(g) then
      DropKeepsStacked(g, c, name);
      g'
    else
      g'
  }

  /** No column is playable exactly when the top row is full. */
  lemma NoValidLocationsIffTopRowFull(g: Grid)
    requires IsBoard(g)
    ensures ValidLocations(g) == [] <==> forall c :: 0 <= c < |g| ==> g[0][c] != Empty
  {
    var cols := ValidLocations(g);
    if cols != [] {
      assert cols[0] in cols;
    }
    if exists c :: 0 <= c < |g| && g[0][c] == Empty {
      var c :| 0 <= c < |g| && g[0][c] == Empty;
      assert c in cols;
    }
  }
}
