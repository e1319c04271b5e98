/** The hard AI's scoring heuristic: window evaluation, the four scans over
    the board and the position score that combines them. */
module Heuristic {
  import opened Constants
  import opened Geometry
  import opened Board

  /** Number of occurrences of `x` in `w`, as a list's `count` gives it. */
  function Count(w: seq<int>, x: int): (k: nat)
    ensures k == multiset(w)[x]
    ensures k <= |w|
    ensures k == 0 <==> forall i :: 0 <= i < |w| ==> w[i] != x
    ensures k == |w| <==> forall i :: 0 <= i < |w| ==> w[i] == x
  {
    if |w| == 0 then 0
    else
      assert w == [w[0]] + w[1..];
      (if w[0] == x then 1 else 0) + Count(w[1..], x)
  }

  /** Two different values never occupy more slots than the window has. */
  lemma {:induction false} CountsShareWindow(w: seq<int>, x: int, y: int)
    requires x != y
    ensures Count(w, x) + Count(w, y) <= |w|
  {
    if |w| > 0 {
      CountsShareWindow(w[1..], x, y);
    }
  }

  /** What the window is worth to `piece`: 1000, 40, 10 or 1. */
  function Gain(n: int, w: seq<int>, piece: int): int {
    if Count(w, piece) == n then 1000
    else if Count(w, piece) == n - 1 && Count(w, Empty) == 1 then 40
    else if Count(w, piece) == n - 2 && Count(w, Empty) == 2 then 10
    else 1
  }

  /** What the window threatens, always counted for Player 1: 800, 400, 10 or 1. */
  function Penalty(n: int, w: seq<int>): int {
    if Count(w, Player1) == n - 1 && Count(w, Empty) == 1 then 800
    else if Count(w, Player1) == n - 2 && Count(w, Empty) == 2 then 400
    else if Count(w, Player1) == n - 3 && Count(w, Empty) == 3 then 10
    else 1
  }

  /** Score of one window for `piece`. Any window length is accepted, since the
      diagonal scans hand over windows shorter than `n`. */
  function EvaluateWindow(n: int, w: seq<int>, piece: int): (score: int)
    ensures -799 <= score <= 999
    ensures score >= 200 <==> Count(w, piece) == n
  {
    Gain(n, w, piece) - Penalty(n, w)
  }

  /** The score only depends on how many of each value the window holds, not
      on their order. */
  lemma WindowScoreIgnoresOrder(n: int, w: seq<int>, w': seq<int>, piece: int)
    requires multiset(w) == multiset(w')
    ensures EvaluateWindow(n, w, piece) == EvaluateWindow(n, w', piece)
  {
    assert Count(w, piece) == Count(w', piece);
    assert Count(w, Empty) == Count(w', Empty);
    assert Count(w, Player1) == Count(w', Player1);
  }

  /** A full window of the scoring player's own pieces scores 1000 - 1, for
      either player. */
  lemma FullWindowScore(n: int, w: seq<int>, piece: int)
    requires |w| == n && 1 <= n
    requires IsPlayer(piece)
    requires forall i :: 0 <= i < |w| ==> w[i] == piece
    ensures EvaluateWindow(n, w, piece) == 999
  {
    CountsShareWindow(w, piece, Empty);
    if piece != Player1 {
      CountsShareWindow(w, piece, Player1);
    }
  }

  /** A window of n - 1 opponent pieces and one gap scores 1 - 800 for the
      second player. */
  lemma ThreatWindowScore(n: int, w: seq<int>)
    requires |w| == n && 2 <= n
    requires Count(w, Player1) == n - 1 && Count(w, Empty) == 1
    ensures EvaluateWindow(n, w, Player2) == -799
  {
    CountsShareWindow(w, Player1, Player2);
  }

  /** With the usual connect length 4, an all-empty window of any length up to
      4 scores 1 - 1. */
  lemma EmptyWindowScoresZero(w: seq<int>, piece: int)
    requires |w| <= DefaultConnect && piece != Empty
    requires forall i :: 0 <= i < |w| ==> w[i] == Empty
    ensures EvaluateWindow(DefaultConnect, w, piece) == 0
  {
    CountsShareWindow(w, piece, Empty);
    CountsShareWindow(w, Player1, Empty);
  }

  /** Swapping the players does not negate the score: the opponent is always
      Player 1, so three of Player 1's own pieces are punished as a threat. */
  lemma ScoreNotSymmetric()
    ensures EvaluateWindow(DefaultConnect, [Player2, Player2, Player2, Empty], Player2) == 39
    ensures EvaluateWindow(DefaultConnect, [Player1, Player1, Player1, Empty], Player1) == -760
  {
    assert Count([Player2, Player2, Player2, Empty], Player1) == 0;
    assert Count([Player1, Player1, Player1, Empty], Player1) == 3;
  }

  /** The four scans of the board. */
  datatype Scan = RowScan | ColumnScan | RisingScan | FallingScan

  /** Number of start positions along a line: side - n + 1. */
  function Inner(n: int, g: Grid): int {
    |g| - n + 1
  }

  /** Number of lines a scan visits: every row or column, but only the first
      side - n + 1 start rows of a diagonal scan. */
  function Outer(n: int, g: Grid, kind: Scan): int {
    if kind == RowScan || kind == ColumnScan then |g| else Inner(n, g)
  }

  /** The window a scan looks at for outer index i and inner index j. Row and
      column windows are slices of length n; the diagonal windows come from
      the diagonal walks and may be cut short by the board edge. */
  function Window(n: int, g: Grid, kind: Scan, i: int, j: int): (w: seq<int>)
    requires Fits(n, g) && 0 <= i < Outer(n, g, kind) && 0 <= j < Inner(n, g)
    ensures 1 <= |w| <= n
    ensures (kind == RowScan || kind == ColumnScan) ==> |w| == n
    ensures kind == RowScan ==> forall t :: 0 <= t < |w| ==> w[t] == g[i][j + t]
    ensures kind == ColumnScan ==> forall t :: 0 <= t < |w| ==> w[t] == g[|g| - 1 - (j + t)][i]
    ensures kind == RisingScan ==>
              |w| == Min(n, i + 1) && forall t :: 0 <= t < |w| ==> w[t] == g[i - t][j + t]
    ensures kind == FallingScan ==>
              |w| == Min(n, |g| - i - n + 1) && forall t :: 0 <= t < |w| ==> w[t] == g[i + n - 1 + t][j + t]
  {
    match kind
    case RowScan => RowFill(g, i)[j..j + n]
    case ColumnScan => ColumnFill(g, i)[j..j + n]
    case RisingScan => PositiveDiagonal(n, g, i, j)
    case FallingScan => NegativeDiagonal(n, g, i + n - 1, j)
  }

  /** The rising scan starts its walk on row 0 too, where the walk up and to the
      right stops at once: that window is the single start cell. */
  lemma RisingWindowOnTopRowIsOneCell(n: int, g: Grid, j: int)
    requires Fits(n, g) && 0 <= j < Inner(n, g)
    ensures Window(n, g, RisingScan, 0, j) == [g[0][j]]
  {
    var w := Window(n, g, RisingScan, 0, j);
    assert |w| == 1 && w[0] == g[0][j];
  }

  /** The windows j < m of line i, in scan order. */
  function LineWindows(n: int, g: Grid, kind: Scan, i: int, m: int): (ws: seq<seq<int>>)
    requires Fits(n, g) && 0 <= i < Outer(n, g, kind) && 0 <= m <= Inner(n, g)
    ensures |ws| == m
    ensures forall j :: 0 <= j < m ==> ws[j] == Window(n, g, kind, i, j)
  {
    seq(m, j requires 0 <= j < m => Window(n, g, kind, i, j))
  }

  /** The windows of a scan, line by line, as the nested loops of a `_score_*`
      method visit them: line i holds the side - n + 1 windows (i, j). */
  function ScanLines(n: int, g: Grid, kind: Scan): (lines: seq<seq<seq<int>>>)
    requires Fits(n, g)
    ensures |lines| == Outer(n, g, kind)
    ensures forall i :: 0 <= i < |lines| ==> |lines[i]| == Inner(n, g)
    ensures forall i, j :: 0 <= i < |lines| && 0 <= j < Inner(n, g) ==> lines[i][j] == Window(n, g, kind, i, j)
  {
    seq(Outer(n, g, kind), i requires 0 <= i < Outer(n, g, kind) => LineWindows(n, g, kind, i, Inner(n, g)))
  }

  /** Sum of the window scores of a list of windows. */
  function SumScores(n: int, ws: seq<seq<int>>, piece: int): (s: int)
    ensures -799 * |ws| <= s <= 999 * |ws|
  {
    if |ws| == 0 then 0 else SumScores(n, ws[..|ws| - 1], piece) + EvaluateWindow(n, ws[|ws| - 1], piece)
  }

  /** Sum of the window scores of lines of k windows each. */
  function SumLines(n: int, lines: seq<seq<seq<int>>>, k: nat, piece: int): (s: int)
    requires forall i :: 0 <= i < |lines| ==> |lines[i]| == k
    ensures -799 * Times(|lines|, k) <= s <= 999 * Times(|lines|, k)
  {
    if |lines| == 0 then 0
    else
      SumLines(n, lines[..|lines| - 1], k, piece) + SumScores(n, lines[|lines| - 1], piece)
  }

  /** a * b, written as repeated addition so that bounds stay linear. */
  function Times(a: nat, b: nat): nat {
    if a == 0 then 0 else Times(a - 1, b) + b
  }

  /** `Times` is multiplication. */
  lemma {:induction false} TimesIsProduct(a: nat, b: nat)
    ensures Times(a, b) == a * b
  {
    if a > 0 {
      TimesIsProduct(a - 1, b);
      assert (a - 1) * b + b == a * b;
    }
  }

  /** Total window score of one scan, one `_score_*` method: it adds up
      Outer * Inner window scores. */
  function ScanScore(n: int, g: Grid, kind: Scan, piece: int): (s: int)
    requires Fits(n, g)
    ensures -799 * Times(Outer(n, g, kind), Inner(n, g)) <= s <= 999 * Times(Outer(n, g, kind), Inner(n, g))
  {
    SumLines(n, ScanLines(n, g, kind), Inner(n, g), piece)
  }

  /** Number of windows all four scans visit together on a board of the given
      side. */
  function WindowTotal(n: int, side: int): int
    requires 1 <= n <= side
  {
    2 * Times(side, side - n + 1) + 2 * Times(side - n + 1, side - n + 1)
  }

  /** Position score for `piece`: six points per `piece` in the centre column
      plus the four scan totals. */
  function ScorePosition(n: int, g: Grid, piece: int): (s: int)
    requires Fits(n, g)
    ensures -799 * WindowTotal(n, |g|) <= s <= 6 * |g| + 999 * WindowTotal(n, |g|)
  {
    var centre := Count(ColumnFill(g, |g| / 2), piece);
    var rows := ScanScore(n, g, RowScan, piece);
    var columns := ScanScore(n, g, ColumnScan, piece);
    var rising := ScanScore(n, g, RisingScan, piece);
    var falling := ScanScore(n, g, FallingScan, piece);
    var lines, k := Times(|g|, |g| - n + 1), Times(|g| - n + 1, |g| - n + 1);
    assert -799 * lines <= rows <= 999 * lines && -799 * lines <= columns <= 999 * lines;
    assert -799 * k <= rising <= 999 * k && -799 * k <= falling <= 999 * k;
    6 * centre + rows + columns + rising + falling
  }

  /** A list of all-empty windows of length at most 4 sums to zero. */
  lemma {:induction false} EmptyWindowsSumToZero(ws: seq<seq<int>>, piece: int)
    requires piece != Empty
    requires forall k :: 0 <= k < |ws| ==> |ws[k]| <= DefaultConnect && forall t :: 0 <= t < |ws[k]| ==> ws[k][t] == Empty
    ensures SumScores(DefaultConnect, ws, piece) == 0
  {
    if |ws| > 0 {
      EmptyWindowsSumToZero(ws[..|ws| - 1], piece);
      EmptyWindowScoresZero(ws[|ws| - 1], piece);
    }
  }

  /** Lines of all-empty windows of length at most 4 sum to zero. */
  lemma {:induction false} EmptyLinesSumToZero(lines: seq<seq<seq<int>>>, k: nat, piece: int)
    requires piece != Empty
    requires forall i :: 0 <= i < |lines| ==> |lines[i]| == k
    requires forall i, j :: 0 <= i < |lines| && 0 <= j < k ==>
               |lines[i][j]| <= DefaultConnect && forall t :: 0 <= t < |lines[i][j]| ==> lines[i][j][t] == Empty
    ensures SumLines(DefaultConnect, lines, k, piece) == 0
  {
    if |lines| > 0 {
      EmptyLinesSumToZero(lines[..|lines| - 1], k, piece);
      EmptyWindowsSumToZero(lines[|lines| - 1], piece);
    }
  }

  /** Every window a scan of an empty board visits is empty, so the scan
      totals zero. */
  lemma EmptyBoardScanScoresZero(g: Grid, kind: Scan, piece: int)
    requires Fits(DefaultConnect, g) && piece != Empty
    requires forall r, c :: 0 <= r < |g| && 0 <= c < |g| ==> g[r][c] == Empty
    ensures ScanScore(DefaultConnect, g, kind, piece) == 0
  {
    EmptyLinesSumToZero(ScanLines(DefaultConnect, g, kind), Inner(DefaultConnect, g), piece);
  }

  /** With connect length 4, the empty board is worth nothing to either side. */
  lemma EmptyBoardScoresZero(g: Grid, piece: int)
    requires Fits(DefaultConnect, g) && piece != Empty
    requires forall r, c :: 0 <= r < |g| && 0 <= c < |g| ==> g[r][c] == Empty
    ensures ScorePosition(DefaultConnect, g, piece) == 0
  {
    var centre := ColumnFill(g, |g| / 2);
    assert ScorePosition(DefaultConnect, g, piece) == 6 * Count(centre, piece) + ScanScore(DefaultConnect, g, RowScan, piece)
      + ScanScore(DefaultConnect, g, ColumnScan, piece) + ScanScore(DefaultConnect, g, RisingScan, piece) + ScanScore(DefaultConnect, g, FallingScan, piece);
    assert Count(centre, piece) == 0;
    EmptyBoardScanScoresZero(g, RowScan, piece);
    EmptyBoardScanScoresZero(g, ColumnScan, piece);
    EmptyBoardScanScoresZero(g, RisingScan, piece);
    EmptyBoardScanScoresZero(g, FallingScan, piece);
  }
}
