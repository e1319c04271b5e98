/** Move choice of the two computer players: the hard AI's greedy argmax over
    the position score of every playable column, and the easy AI's pick. */
module Ai {
  import opened Wrappers
  import opened Constants
  import opened Board
  import opened Heuristic

  /** Best score the hard AI starts its search from; every real score beats it
      unless the board is large enough for the window penalties to go below. */
  const InitialBest: int := -10000

  /** All columns the candidates hold are playable. */
  predicate AllPlayable(g: Grid, cols: seq<int>)
    requires IsBoard(g)
  {
    forall k :: 0 <= k < |cols| ==> IsValidColumn(g, Some(cols[k]))
  }

  /** Score of the board after the AI drops its piece `name` into column c,
      scored for `piece`. The live board is a value and stays as it was. */
  function MoveScore(n: int, g: Grid, name: int, piece: int, c: int): (s: int)
    requires Fits(n, g) && IsPlayer(name) && IsValidColumn(g, Some(c))
    ensures -799 * WindowTotal(n, |g|) <= s <= 6 * |g| + 999 * WindowTotal(n, |g|)
  {
    var g' := Drop(g, c, name);
    assert |g'| == |g|;
    ScorePosition(n, g', piece)
  }

  /** Scores of the candidate columns, in order. */
  function ScoresOf(n: int, g: Grid, name: int, piece: int, cols: seq<int>): (scores: seq<int>)
    requires Fits(n, g) && IsPlayer(name) && AllPlayable(g, cols)
    ensures |scores| == |cols|
    ensures forall k :: 0 <= k < |cols| ==> scores[k] == MoveScore(n, g, name, piece, cols[k])
  {
    seq(|cols|, k requires 0 <= k < |cols| => MoveScore(n, g, name, piece, cols[k]))
  }

  /** Every playable column listed by ValidLocations can be scored. */
  lemma ValidLocationsPlayable(g: Grid)
    requires IsBoard(g)
    ensures AllPlayable(g, ValidLocations(g))
  {
    var valid := ValidLocations(g);
    forall k | 0 <= k < |valid|
      ensures IsValidColumn(g, Some(valid[k]))
    {
      assert valid[k] in valid;
    }
  }

  /** Scores of the drops into each playable column, in column order. */
  function MoveScores(n: int, g: Grid, name: int, piece: int): (scores: seq<int>)
    requires Fits(n, g) && IsPlayer(name)
    ensures |scores| == |ValidLocations(g)|
    ensures forall k :: 0 <= k < |scores| ==>
              ValidLocations(g)[k] in ValidLocations(g) &&
              scores[k] == MoveScore(n, g, name, piece, ValidLocations(g)[k])
  {
    ValidLocationsPlayable(g);
    ScoresOf(n, g, name, piece, ValidLocations(g))
  }

  /** Best score seen so far and the column that reached it. */
  datatype Pick = Pick(score: int, col: int)

  /** `r` is the first of the first m candidates with its score, and every
      earlier candidate scored strictly less. */
  predicate IsFirstWith(cols: seq<int>, scores: seq<int>, m: int, r: Pick)
    requires |scores| == |cols| && 0 <= m <= |cols|
  {
    exists k :: 0 <= k < m && r == Pick(scores[k], cols[k]) && forall j :: 0 <= j < k ==> scores[j] < scores[k]
  }

  /** The search loop over the first m candidates, from `start`: a candidate
      replaces the best so far only when its score is strictly higher. */
  function PickAmong(cols: seq<int>, scores: seq<int>, m: int, start: Pick): (r: Pick)
    requires |scores| == |cols| && 0 <= m <= |cols|
    ensures r.score >= start.score
    ensures forall j :: 0 <= j < m ==> scores[j] <= r.score
    ensures (forall j :: 0 <= j < m ==> scores[j] <= start.score) ==> r == start
    ensures (exists j :: 0 <= j < m && scores[j] > start.score) ==> IsFirstWith(cols, scores, m, r)
    decreases m
  {
    if m == 0 then start
    else
      var prev := PickAmong(cols, scores, m - 1, start);
      if scores[m - 1] > prev.score then
        var r := Pick(scores[m - 1], cols[m - 1]);
        assert forall j :: 0 <= j < m - 1 ==> scores[j] < scores[m - 1];
        assert IsFirstWith(cols, scores, m, r);
        r
      else
        if exists j :: 0 <= j < m && scores[j] > start.score then
          var j :| 0 <= j < m && scores[j] > start.score;
          assert j < m - 1 ==> IsFirstWith(cols, scores, m - 1, prev);
          assert IsFirstWith(cols, scores, m, prev) by {
            var k :| 0 <= k < m - 1 && prev == Pick(scores[k], cols[k]) && forall i :: 0 <= i < k ==> scores[i] < scores[k];
          }
          prev
        else
          prev
  }

  /** `col` is the first candidate with the highest score. */
  predicate IsFirstBest(cols: seq<int>, scores: seq<int>, col: int)
    requires |scores| == |cols|
  {
    exists k :: 0 <= k < |cols| && col == cols[k] &&
      (forall j :: 0 <= j < |cols| ==> scores[j] <= scores[k]) &&
      (forall j :: 0 <= j < k ==> scores[j] < scores[k])
  }

  /** The whole search loop with the initial best InitialBest at candidate
      `fallback`: the first candidate with the highest score when some score
      beats InitialBest, and candidate `fallback` otherwise. */
  function BestColumn(cols: seq<int>, scores: seq<int>, fallback: int): (col: int)
    requires |scores| == |cols| && 0 <= fallback < |cols|
    ensures col in cols
    ensures (forall k :: 0 <= k < |cols| ==> scores[k] <= InitialBest) ==> col == cols[fallback]
    ensures (exists k :: 0 <= k < |cols| && scores[k] > InitialBest) ==> IsFirstBest(cols, scores, col)
  {
    var r := PickAmong(cols, scores, |cols|, Pick(InitialBest, cols[fallback]));
    if exists k :: 0 <= k < |cols| && scores[k] > InitialBest then
      var k :| 0 <= k < |cols| && r == Pick(scores[k], cols[k]) && forall j :: 0 <= j < k ==> scores[j] < scores[k];
      assert cols[k] in cols;
      assert IsFirstBest(cols, scores, r.col);
      r.col
    else
      assert cols[fallback] in cols;
      r.col
  }

  /** The hard AI's move: of the playable columns, the first one whose drop
      scores highest, provided some drop beats the initial best; otherwise the
      column at position `choice` of the playable list, which stands for the
      random initial pick. */
  function PickBestMove(n: int, g: Grid, name: int, piece: int, choice: int): (col: int)
    requires Fits(n, g) && IsPlayer(name)
    requires 0 <= choice < |ValidLocations(g)|
    ensures col in ValidLocations(g)
    ensures var valid := ValidLocations(g);
            var scores := MoveScores(n, g, name, piece);
            (forall k :: 0 <= k < |valid| ==> scores[k] <= InitialBest) ==> col == valid[choice]
    ensures var valid := ValidLocations(g);
            var scores := MoveScores(n, g, name, piece);
            (exists k :: 0 <= k < |valid| && scores[k] > InitialBest) ==> IsFirstBest(valid, scores, col)
  {
    var valid := ValidLocations(g);
    BestColumn(valid, MoveScores(n, g, name, piece), choice)
  }

  /** The easy AI's move: the playable column at position `choice`, which
      stands for the random pick. */
  function EasyPick(g: Grid, choice: int): (col: int)
    requires IsBoard(g) && 0 <= choice < |ValidLocations(g)|
    ensures 0 <= col < |g| && g[0][col] == Empty
  {
    assert ValidLocations(g)[choice] in ValidLocations(g);
    ValidLocations(g)[choice]
  }
}
