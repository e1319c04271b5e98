/** The adjacency graph components.py builds over the board's cells, and the
    direction test the graph walks use to pick the next cell. Both are shown
    here to be index arithmetic: the neighbours of a cell are the in-board cells
    around it, and a direction picks the cell one fixed step away. */
module Adjacency {
  import opened Geometry

  type Edge = (Coord, Coord)

  /** The six loops of Board.__init__ for a board of side k. Each loop runs
      `row` over one range and `col` over another and hands add_edge the pair
      it builds from them; a pair is produced by a loop exactly when its first
      end lies in that loop's ranges and its second end is the step away. */
  predicate HorizontalEdge(k: int, e: Edge) {
    var (a, b) := e;
    0 <= a.0 < k && 0 <= a.1 < k - 1 && b == (a.0, a.1 + 1)
  }

  /** The vertical loop builds ((col, row), (col + 1, row)). */
  predicate VerticalEdge(k: int, e: Edge) {
    var (a, b) := e;
    0 <= a.0 < k - 1 && 0 <= a.1 < k && b == (a.0 + 1, a.1)
  }

  predicate UpperRightEdge(k: int, e: Edge) {
    var (a, b) := e;
    1 <= a.0 < k && 0 <= a.1 < k - 1 && b == (a.0 - 1, a.1 + 1)
  }

  predicate UpperLeftEdge(k: int, e: Edge) {
    var (a, b) := e;
    1 <= a.0 < k && 1 <= a.1 < k - 1 && b == (a.0 - 1, a.1 - 1)
  }

  predicate BottomRightEdge(k: int, e: Edge) {
    var (a, b) := e;
    0 <= a.0 < k - 1 && 0 <= a.1 < k - 1 && b == (a.0 + 1, a.1 + 1)
  }

  predicate BottomLeftEdge(k: int, e: Edge) {
    var (a, b) := e;
    0 <= a.0 < k - 1 && 1 <= a.1 < k - 1 && b == (a.0 + 1, a.1 - 1)
  }

  predicate IsEdge(k: int, e: Edge) {
    || HorizontalEdge(k, e) || VerticalEdge(k, e)
    || UpperRightEdge(k, e) || UpperLeftEdge(k, e)
    || BottomRightEdge(k, e) || BottomLeftEdge(k, e)
  }

  /** add_edge records each pair in both nodes' neighbour sets. */
  predicate Linked(k: int, p: Coord, q: Coord) {
    IsEdge(k, (p, q)) || IsEdge(k, (q, p))
  }

  /** add_edge creates the nodes at both ends of an edge; no other nodes exist. */
  ghost predicate IsNode(k: int, p: Coord) {
    exists q :: Linked(k, p, q)
  }

  /** The eight cells around p that lie on the board. */
  predicate Adjacent(k: int, p: Coord, q: Coord) {
    && InBounds(k, p) && InBounds(k, q) && p != q
    && -1 <= q.0 - p.0 <= 1 && -1 <= q.1 - p.1 <= 1
  }

  /** The neighbours the constructor gives a cell are exactly the in-board
      cells around it. */
  lemma NeighboursAreSurroundingCells(k: int, p: Coord, q: Coord)
    ensures Linked(k, p, q) <==> Adjacent(k, p, q)
  {
    if Adjacent(k, p, q) {
      var (dr, dc) := (q.0 - p.0, q.1 - p.1);
      if dr == 0 && dc == 1 {
        assert HorizontalEdge(k, (p, q));
      } else if dr == 0 && dc == -1 {
        assert HorizontalEdge(k, (q, p));
      } else if dr == 1 && dc == 0 {
        assert VerticalEdge(k, (p, q));
      } else if dr == -1 && dc == 0 {
        assert VerticalEdge(k, (q, p));
      } else if dr == -1 && dc == 1 {
        assert UpperRightEdge(k, (p, q));
      } else if dr == 1 && dc == -1 {
        assert UpperRightEdge(k, (q, p));
      } else if dr == 1 && dc == 1 {
        assert BottomRightEdge(k, (p, q));
      } else {
        assert BottomRightEdge(k, (q, p));
      }
    }
  }

  /** The representation invariants of Node: no node is its own neighbour and
      the neighbour relation is symmetric. */
  lemma NeighbourInvariants(k: int, p: Coord, q: Coord)
    ensures !Linked(k, p, p)
    ensures Linked(k, p, q) <==> Linked(k, q, p)
  {
    NeighboursAreSurroundingCells(k, p, p);
  }

  /** Every cell of a board of side at least two is a node of the graph; a board
      of side one has no edges and therefore no nodes at all. */
  lemma NodesAreCells(k: int, p: Coord)
    ensures IsNode(k, p) <==> 2 <= k && InBounds(k, p)
  {
    if IsNode(k, p) {
      var q :| Linked(k, p, q);
      NeighboursAreSurroundingCells(k, p, q);
    }
    if 2 <= k && InBounds(k, p) {
      var q := if p.1 + 1 < k then (p.0, p.1 + 1) else (p.0, p.1 - 1);
      NeighboursAreSurroundingCells(k, p, q);
    }
  }

  lemma SingleCellBoardHasNoNodes()
    ensures forall e :: !IsEdge(1, e)
    ensures forall p :: !IsNode(1, p)
  {
    forall p ensures !IsNode(1, p) {
      NodesAreCells(1, p);
    }
  }

  /** Node.is_direction_neighbour: whether `node` (holding `nodeFill`) counts as
      this node's neighbour in `direction`. With checkFill the node must hold the
      player's name and an axis name accepts both sides of the axis; without it
      the fill is ignored and the single-direction names are honoured. */
  predicate IsDirectionNeighbour(self: Coord, node: Coord, nodeFill: int, direction: Direction,
                                 playerName: int, checkFill: bool)
  {
    if checkFill then
      nodeFill == playerName &&
      (|| (node.1 == self.1 && direction == Vertical)
       || (node.0 == self.0 && direction == Horiz)
       || (((node.1 > self.1 && node.0 < self.0) || (node.1 < self.1 && node.0 > self.0)) && direction == TopRight)
       || (((node.1 < self.1 && node.0 < self.0) || (node.1 > self.1 && node.0 > self.0)) && direction == TopLeft))
    else
      || (node.1 == self.1 && direction == Vertical)
      || (node.0 == self.0 && direction == Horiz)
      || (node.1 > self.1 && node.0 < self.0 && direction == UpperRight)
      || (node.1 < self.1 && node.0 > self.0 && direction == LowerLeft)
      || (node.1 < self.1 && node.0 < self.0 && direction == TopLeft)
      || (node.1 > self.1 && node.0 > self.0 && direction == LowerRight)
  }

  /** Among a cell's neighbours, find_sequence follows along an axis exactly
      the two cells one axis step away on either side, and only when they hold
      the player's name. */
  lemma AxisNeighbourIsAxisStep(k: int, p: Coord, q: Coord, fill: int, axis: Direction, player: int)
    requires Linked(k, p, q) && IsAxis(axis)
    ensures IsDirectionNeighbour(p, q, fill, axis, player, true) <==>
              fill == player && (q == At(p, AxisStep(axis), 1) || q == At(p, AxisBack(axis), 1))
  {
    NeighboursAreSurroundingCells(k, p, q);
  }

  /** Among a cell's neighbours, the diagonal walks follow exactly the cell one
      step up-right (get_positive_diagonal) or down-right (get_negative_diagonal),
      whatever it holds. */
  lemma WalkNeighbourIsStep(k: int, p: Coord, q: Coord, fill: int, player: int)
    requires Linked(k, p, q)
    ensures IsDirectionNeighbour(p, q, fill, UpperRight, player, false) <==> q == At(p, UpRight, 1)
    ensures IsDirectionNeighbour(p, q, fill, LowerRight, player, false) <==> q == At(p, DownRight, 1)
  {
    NeighboursAreSurroundingCells(k, p, q);
  }
}
