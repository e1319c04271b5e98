/** Win detection: Node.find_sequence collects the player's cells connected to
    a cell along one axis, and Player.is_winning_move asks whether any of the
    four axes gives a sequence of at least the connect length. */
module Sequence {
  import opened Constants
  import opened Geometry
  import opened Board

  /** The `m` cells after `p` along `d` are on the board and hold `player`. */
  ghost predicate Filled(g: Grid, p: Coord, d: Dir, m: int, player: int)
    requires IsBoard(g)
  {
    forall i :: 1 <= i <= m ==> InBounds(|g|, At(p, d, i)) && Cell(g, At(p, d, i)) == player
  }

  /** The cells after `p` along `d`, nearest first, for as long as they are on
      the board and hold `player`: what find_sequence gathers through the
      neighbour of `p` one step of `d` away (the fill of `p` itself is not looked at). */
  function Run(g: Grid, p: Coord, d: Dir, player: int): (s: seq<Coord>)
    requires IsBoard(g) && InBounds(|g|, p) && IsUnit(d)
    ensures forall i :: 0 <= i < |s| ==>
              s[i] == At(p, d, i + 1) && InBounds(|g|, s[i]) && Cell(g, s[i]) == player
    ensures !(InBounds(|g|, At(p, d, |s| + 1)) && Cell(g, At(p, d, |s| + 1)) == player)
    decreases Room(|g|, p, d)
  {
    StepFacts(|g|, p, d);
    var q := At(p, d, 1);
    if InBounds(|g|, q) && Cell(g, q) == player then [q] + Run(g, q, d, player) else []
  }

  /** The run is the longest stretch of the player's cells right after `p`. */
  lemma RunIsLongest(g: Grid, p: Coord, d: Dir, player: int)
    requires IsBoard(g) && InBounds(|g|, p) && IsUnit(d)
    ensures Filled(g, p, d, |Run(g, p, d, player)|, player)
    ensures !Filled(g, p, d, |Run(g, p, d, player)| + 1, player)
  {
    var s := Run(g, p, d, player);
    forall i | 1 <= i <= |s| ensures InBounds(|g|, At(p, d, i)) && Cell(g, At(p, d, i)) == player {
      assert s[i - 1] == At(p, d, i);
    }
  }

  /** `q` lies on the line through `p` along the axis. */
  predicate OnAxis(p: Coord, axis: Direction, q: Coord)
    requires IsAxis(axis)
  {
    match axis
    case Vertical => q.1 == p.1
    case Horiz => q.0 == p.0
    case TopRight => q.0 + q.1 == p.0 + p.1
    case TopLeft => q.0 - q.1 == p.0 - p.1
  }

  /** find_sequence: the cell itself followed by the runs of the player's cells
      on both sides of it along the axis. The source returns them in the order
      its neighbour sets happen to be visited; only the cells and their number
      matter to its callers. */
  function FindSequence(g: Grid, p: Coord, axis: Direction, player: int): (s: seq<Coord>)
    requires IsBoard(g) && InBounds(|g|, p) && IsAxis(axis)
    ensures |s| >= 1 && s[0] == p
  {
    var d := AxisStep(axis);
    [p] + Run(g, p, d, player) + Run(g, p, AxisBack(axis), player)
  }

  /** The sequence holds distinct cells; all but the first lie on the axis line
      through the first and hold the player's name. */
  lemma FindSequenceCells(g: Grid, p: Coord, axis: Direction, player: int)
    requires IsBoard(g) && InBounds(|g|, p) && IsAxis(axis)
    ensures var s := FindSequence(g, p, axis, player);
            && (forall i :: 1 <= i < |s| ==>
                  InBounds(|g|, s[i]) && Cell(g, s[i]) == player && OnAxis(p, axis, s[i]))
            && (forall i, j :: 0 <= i < j < |s| ==> s[i] != s[j])
  {
    var d := AxisStep(axis);
    SequenceCells(g, p, axis, player, Run(g, p, d, player), Run(g, p, AxisBack(axis), player));
  }

  /** Two runs of the player's cells stepping ahead of and back from `p`, put
      after `p`, are distinct cells on the axis line, all holding the player's
      name. */
  lemma SequenceCells(g: Grid, p: Coord, axis: Direction, player: int, ahead: seq<Coord>, behind: seq<Coord>)
    requires IsBoard(g) && InBounds(|g|, p) && IsAxis(axis)
    requires forall i :: 0 <= i < |ahead| ==>
               ahead[i] == At(p, AxisStep(axis), i + 1) && InBounds(|g|, ahead[i]) && Cell(g, ahead[i]) == player
    requires forall i :: 0 <= i < |behind| ==>
               behind[i] == At(p, AxisBack(axis), i + 1) && InBounds(|g|, behind[i]) && Cell(g, behind[i]) == player
    ensures var s := [p] + ahead + behind;
            && (forall i :: 1 <= i < |s| ==>
                  InBounds(|g|, s[i]) && Cell(g, s[i]) == player && OnAxis(p, axis, s[i]))
            && (forall i, j :: 0 <= i < j < |s| ==> s[i] != s[j])
  {
    var d := AxisStep(axis);
    var s := [p] + ahead + behind;
    var a := |ahead|;
    SequencePositions(p, axis, ahead, behind);
    forall i, j | 0 <= i < j < |s| ensures s[i] != s[j] {
      AtInjective(p, d, Offset(i, a), Offset(j, a));
    }
    forall i | 1 <= i < |s|
      ensures InBounds(|g|, s[i]) && Cell(g, s[i]) == player && OnAxis(p, axis, s[i])
    {
      if i <= a {
        assert s[i] == ahead[i - 1];
      } else {
        assert s[i] == behind[i - 1 - a];
      }
    }
  }

  /** Element i of the sequence is Offset(i, |ahead|) axis steps from `p`,
      given cells stepping ahead and cells stepping back from `p`. */
  lemma SequencePositions(p: Coord, axis: Direction, ahead: seq<Coord>, behind: seq<Coord>)
    requires IsAxis(axis)
    requires forall i :: 0 <= i < |ahead| ==> ahead[i] == At(p, AxisStep(axis), i + 1)
    requires forall i :: 0 <= i < |behind| ==> behind[i] == At(p, AxisBack(axis), i + 1)
    ensures var s := [p] + ahead + behind;
            forall i :: 0 <= i < |s| ==> s[i] == At(p, AxisStep(axis), Offset(i, |ahead|))
  {
    var d := AxisStep(axis);
    var s := [p] + ahead + behind;
    var a := |ahead|;
    forall i | 0 <= i < |s| ensures s[i] == At(p, d, Offset(i, a)) {
      if i == 0 {
        assert At(p, d, 0) == p;
      } else if i <= a {
        assert s[i] == ahead[i - 1];
      } else {
        assert s[i] == behind[i - 1 - a];
        AtBack(p, axis, i - a);
      }
    }
  }

  /** The number of axis steps from `p` to the i-th element of the sequence
      when the first `a` elements after `p` lie ahead and the rest behind. */
  function Offset(i: int, a: int): int {
    if i <= a then i else a - i
  }

  /** is_winning_move: some axis sequence through the cell is at least `n` long. */
  predicate IsWinningMove(n: int, g: Grid, p: Coord, player: int)
    requires IsBoard(g) && InBounds(|g|, p)
  {
    AxisWins(n, g, p, Vertical, player) || AxisWins(n, g, p, Horiz, player) ||
    AxisWins(n, g, p, TopLeft, player) || AxisWins(n, g, p, TopRight, player)
  }

  predicate AxisWins(n: int, g: Grid, p: Coord, axis: Direction, player: int)
    requires IsBoard(g) && InBounds(|g|, p) && IsAxis(axis)
  {
    |FindSequence(g, p, axis, player)| >= n
  }

  /** `n` consecutive cells along the axis, one of them `p`, all hold `player`:
      the first of them is `k` steps behind `p`. */
  ghost predicate LineThrough(n: int, g: Grid, p: Coord, axis: Direction, player: int)
    requires IsBoard(g) && IsAxis(axis)
  {
    exists k :: 0 <= k < n && LineFrom(n, g, p, axis, player, k)
  }

  ghost predicate LineFrom(n: int, g: Grid, p: Coord, axis: Direction, player: int, k: int)
    requires IsBoard(g) && IsAxis(axis)
  {
    forall o :: -k <= o < n - k ==>
      InBounds(|g|, At(p, AxisStep(axis), o)) && Cell(g, At(p, AxisStep(axis), o)) == player
  }

  /** The sequence along one axis is long enough exactly when the cell lies in
      a line of `n` of the player's cells along that axis. */
  lemma SequenceLengthIffLine(n: int, g: Grid, p: Coord, axis: Direction, player: int)
    requires Fits(n, g) && InBounds(|g|, p) && IsAxis(axis) && Cell(g, p) == player
    ensures |FindSequence(g, p, axis, player)| >= n <==> LineThrough(n, g, p, axis, player)
  {
    var f := |Run(g, p, AxisStep(axis), player)|;
    var b := |Run(g, p, AxisBack(axis), player)|;
    assert |FindSequence(g, p, axis, player)| == 1 + f + b;
    if 1 + f + b >= n {
      LongRunsMakeLine(n, g, p, axis, player);
    }
    if LineThrough(n, g, p, axis, player) {
      var k :| 0 <= k < n && LineFrom(n, g, p, axis, player, k);
      LineMakesLongRuns(n, g, p, axis, player, k);
    }
  }

  /** Runs of f cells ahead and b behind with 1 + f + b >= n hold a line of n
      cells starting min(b, n - 1) cells behind `p`. */
  lemma LongRunsMakeLine(n: int, g: Grid, p: Coord, axis: Direction, player: int)
    requires Fits(n, g) && InBounds(|g|, p) && IsAxis(axis) && Cell(g, p) == player
    requires 1 + |Run(g, p, AxisStep(axis), player)| + |Run(g, p, AxisBack(axis), player)| >= n
    ensures LineThrough(n, g, p, axis, player)
  {
    var d := AxisStep(axis);
    var f := |Run(g, p, d, player)|;
    var b := |Run(g, p, AxisBack(axis), player)|;
    RunIsLongest(g, p, d, player);
    RunIsLongest(g, p, AxisBack(axis), player);
    StepFacts(|g|, p, d);
    var k := Min(b, n - 1);
    forall o | -k <= o < n - k
      ensures InBounds(|g|, At(p, d, o)) && Cell(g, At(p, d, o)) == player
    {
      if o < 0 {
        AtBack(p, axis, -o);
        assert Filled(g, p, AxisBack(axis), b, player);
      } else if o > 0 {
        assert Filled(g, p, d, f, player);
      }
    }
    assert LineFrom(n, g, p, axis, player, k);
  }

  /** A line of n cells starting k cells behind `p` needs at least k cells of
      the run behind and n - 1 - k of the run ahead. */
  lemma LineMakesLongRuns(n: int, g: Grid, p: Coord, axis: Direction, player: int, k: int)
    requires Fits(n, g) && InBounds(|g|, p) && IsAxis(axis)
    requires 0 <= k < n && LineFrom(n, g, p, axis, player, k)
    ensures 1 + |Run(g, p, AxisStep(axis), player)| + |Run(g, p, AxisBack(axis), player)| >= n
  {
    var d := AxisStep(axis);
    var f := |Run(g, p, d, player)|;
    var b := |Run(g, p, AxisBack(axis), player)|;
    RunIsLongest(g, p, d, player);
    RunIsLongest(g, p, AxisBack(axis), player);
    AtBack(p, axis, b + 1);
  }

  /** A move wins exactly when the placed cell lies in a line of `n` of the
      player's cells along one of the four axes. */
  lemma WinningMoveIffLine(n: int, g: Grid, p: Coord, player: int)
    requires Fits(n, g) && InBounds(|g|, p) && Cell(g, p) == player
    ensures IsWinningMove(n, g, p, player) <==>
              exists axis :: IsAxis(axis) && LineThrough(n, g, p, axis, player)
  {
    assert IsWinningMove(n, g, p, player) <==>
             AxisWins(n, g, p, Vertical, player) || AxisWins(n, g, p, Horiz, player) ||
             AxisWins(n, g, p, TopLeft, player) || AxisWins(n, g, p, TopRight, player);
    SequenceLengthIffLine(n, g, p, Vertical, player);
    SequenceLengthIffLine(n, g, p, Horiz, player);
    SequenceLengthIffLine(n, g, p, TopLeft, player);
    SequenceLengthIffLine(n, g, p, TopRight, player);
    if exists axis :: IsAxis(axis) && LineThrough(n, g, p, axis, player) {
      var axis :| IsAxis(axis) && LineThrough(n, g, p, axis, player);
      assert axis.Vertical? || axis.Horiz? || axis.TopLeft? || axis.TopRight?;
    }
  }

  /** Dropping a piece on top of n - 1 of the player's own pieces in a column
      wins. */
  lemma StackOfNWins(n: int, g: Grid, r: int, c: int, player: int)
    requires Fits(n, g) && InBounds(|g|, (r, c)) && r + n - 1 < |g|
    requires forall i :: r <= i < r + n ==> g[i][c] == player
    ensures IsWinningMove(n, g, (r, c), player)
  {
    var p := (r, c);
    forall o | -(n - 1) <= o < 1
      ensures InBounds(|g|, At(p, AxisStep(Vertical), o)) && Cell(g, At(p, AxisStep(Vertical), o)) == player
    {
      assert At(p, AxisStep(Vertical), o) == (r - o, c);
    }
    assert LineFrom(n, g, p, Vertical, player, n - 1);
    WinningMoveIffLine(n, g, p, player);
  }
}
