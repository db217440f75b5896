/** The placement rules of the game: whether a tile footprint (a list of
    (column x, row y) cells) may be laid for a player, laying it, and the
    placement of each player's starting cell. */
module GamePlacement {
  import opened Geometry
  import opened Boards

  /** Column and row steps to the four orthogonal neighbours. */
  const DX: seq<int> := [1, -1, 0, 0]
  const DY: seq<int> := [0, 0, 1, -1]

  /** Neighbour number k (0..3) of a cell. */
  function Neighbour(c: Cell, k: int): Cell
    requires 0 <= k < 4
  {
    Cell(c.x + DX[k], c.y + DY[k])
  }

  predicate InBounds(rows: int, cols: int, c: Cell) {
    0 <= c.x < cols && 0 <= c.y < rows
  }

  /** The grid value of an in-bounds cell is '.'. */
  predicate FreeCell(grid: seq<seq<char>>, rows: int, cols: int, c: Cell)
    requires |grid| == rows && forall i :: 0 <= i < rows ==> |grid[i]| == cols
  {
    InBounds(rows, cols, c) && grid[c.y][c.x] == '.'
  }

  /** Owner of a cell; a cell off the board counts as owned by nobody (0). */
  function OwnerAt(owner: seq<seq<int>>, rows: int, cols: int, c: Cell): int
    requires |owner| == rows && forall i :: 0 <= i < rows ==> |owner[i]| == cols
  {
    if InBounds(rows, cols, c) then owner[c.y][c.x] else 0
  }

  /** Among the first n neighbours of c, one is owned by somebody other than
      player id. */
  predicate OpponentAround(owner: seq<seq<int>>, rows: int, cols: int, c: Cell, id: int, n: int)
    requires |owner| == rows && forall i :: 0 <= i < rows ==> |owner[i]| == cols
    requires 0 <= n <= 4
  {
    exists k :: 0 <= k < n && OwnerAt(owner, rows, cols, Neighbour(c, k)) != 0 &&
                              OwnerAt(owner, rows, cols, Neighbour(c, k)) != id
  }

  /** Among the first n neighbours of c, one is owned by player id. */
  predicate OwnAround(owner: seq<seq<int>>, rows: int, cols: int, c: Cell, id: int, n: int)
    requires |owner| == rows && forall i :: 0 <= i < rows ==> |owner[i]| == cols
    requires 0 <= n <= 4
  {
    exists k :: 0 <= k < n && OwnerAt(owner, rows, cols, Neighbour(c, k)) != 0 &&
                              OwnerAt(owner, rows, cols, Neighbour(c, k)) == id
  }

  predicate TouchesOpponent(owner: seq<seq<int>>, rows: int, cols: int, pts: seq<Cell>, id: int)
    requires |owner| == rows && forall i :: 0 <= i < rows ==> |owner[i]| == cols
  {
    exists i :: 0 <= i < |pts| && OpponentAround(owner, rows, cols, pts[i], id, 4)
  }

  predicate TouchesOwn(owner: seq<seq<int>>, rows: int, cols: int, pts: seq<Cell>, id: int)
    requires |owner| == rows && forall i :: 0 <= i < rows ==> |owner[i]| == cols
  {
    exists i :: 0 <= i < |pts| && OwnAround(owner, rows, cols, pts[i], id, 4)
  }

  /** The rule: every cell on the board and free, no cell next to another
      player's territory, and some cell next to the player's own. */
  predicate Placeable(grid: seq<seq<char>>, owner: seq<seq<int>>, rows: int, cols: int,
                      pts: seq<Cell>, id: int)
    requires |grid| == rows && forall i :: 0 <= i < rows ==> |grid[i]| == cols
    requires |owner| == rows && forall i :: 0 <= i < rows ==> |owner[i]| == cols
  {
    (forall i :: 0 <= i < |pts| ==> FreeCell(grid, rows, cols, pts[i])) &&
    !TouchesOpponent(owner, rows, cols, pts, id) &&
    TouchesOwn(owner, rows, cols, pts, id)
  }

  lemma PrefixStep(owner: seq<seq<int>>, rows: int, cols: int, pts: seq<Cell>, id: int, i: int)
    requires |owner| == rows && forall j :: 0 <= j < rows ==> |owner[j]| == cols
    requires 0 <= i < |pts|
    ensures TouchesOpponent(owner, rows, cols, pts[..i + 1], id) <==>
              TouchesOpponent(owner, rows, cols, pts[..i], id) ||
              OpponentAround(owner, rows, cols, pts[i], id, 4)
    ensures TouchesOwn(owner, rows, cols, pts[..i + 1], id) <==>
              TouchesOwn(owner, rows, cols, pts[..i], id) ||
              OwnAround(owner, rows, cols, pts[i], id, 4)
  {
    var p, q := pts[..i + 1], pts[..i];
    assert p[i] == pts[i];
    assert forall j :: 0 <= j < i ==> p[j] == q[j];
  }

  /** The four-neighbour scan of one footprint cell: whether a neighbour belongs
      to another player and, if not, whether one belongs to player id. */
  method ScanNeighbours(owner: seq<seq<int>>, rows: int, cols: int, c: Cell, id: int)
    returns (opponent: bool, own: bool)
    requires |owner| == rows && forall i :: 0 <= i < rows ==> |owner[i]| == cols
    ensures opponent <==> OpponentAround(owner, rows, cols, c, id, 4)
    ensures !opponent ==> (own <==> OwnAround(owner, rows, cols, c, id, 4))
  {
    own := false;
    var k := 0;
    while k < 4
      invariant 0 <= k <= 4
      invariant !OpponentAround(owner, rows, cols, c, id, k)
      invariant own <==> OwnAround(owner, rows, cols, c, id, k)
    {
      var nx, ny := c.x + DX[k], c.y + DY[k];
      assert Neighbour(c, k) == Cell(nx, ny);
      if 0 <= nx < cols && 0 <= ny < rows {
        var o := owner[ny][nx];
        if o != 0 {
          if o != id {
            return true, own;
          }
          own := true;
        }
      }
      k := k + 1;
    }
    return false, own;
  }

  /** Decides the placement rule for player id on the board. */
  method CanPlaceFootprint(board: Board, pts: seq<Cell>, id: int) returns (ok: bool)
    requires board.Valid()
    ensures ok == Placeable(board.grid, board.owner, board.rows, board.cols, pts, id)
    ensures pts == [] ==> !ok
  {
    var grid, owner := board.GetGrid(), board.GetOwnerGrid();
    var rows, cols := board.GetRows(), board.GetCols();
    var i := 0;
    while i < |pts|
      invariant 0 <= i <= |pts|
      invariant forall j :: 0 <= j < i ==> FreeCell(grid, rows, cols, pts[j])
    {
      var x, y := pts[i].x, pts[i].y;
      if x < 0 || x >= cols || y < 0 || y >= rows {
        return false;
      }
      if grid[y][x] != '.' {
        return false;
      }
      i := i + 1;
    }
    var touchesOwn := false;
    i := 0;
    while i < |pts|
      invariant 0 <= i <= |pts|
      invariant !TouchesOpponent(owner, rows, cols, pts[..i], id)
      invariant touchesOwn <==> TouchesOwn(owner, rows, cols, pts[..i], id)
    {
      PrefixStep(owner, rows, cols, pts, id, i);
      var opponent, own := ScanNeighbours(owner, rows, cols, pts[i], id);
      if opponent {
        assert pts[..|pts|][i] == pts[i];
        assert pts[..|pts|] == pts;
        return false;
      }
      touchesOwn := touchesOwn || own;
      i := i + 1;
    }
    assert pts[..i] == pts;
    return touchesOwn;
  }

  /** Claims every cell of the footprint for player id. The placement rule is
      not checked again here. */
  method PlaceFootprint(board: Board, pts: seq<Cell>, id: int)
    requires board.Valid()
    requires forall i :: 0 <= i < |pts| ==> InBounds(board.rows, board.cols, pts[i])
    modifies board
    ensures board.Valid()
    ensures board.rows == old(board.rows) && board.cols == old(board.cols)
    ensures board.bonuses == old(board.bonuses)
    ensures forall y, x :: 0 <= y < board.rows && 0 <= x < board.cols ==>
              board.grid[y][x] == (if Cell(x, y) in pts then '#' else old(board.grid)[y][x])
    ensures forall y, x :: 0 <= y < board.rows && 0 <= x < board.cols ==>
              board.owner[y][x] == (if Cell(x, y) in pts then id else old(board.owner)[y][x])
  {
    var i := 0;
    while i < |pts|
      invariant 0 <= i <= |pts|
      invariant board.Valid()
      invariant board.rows == old(board.rows) && board.cols == old(board.cols)
      invariant board.bonuses == old(board.bonuses)
      invariant forall y, x :: 0 <= y < board.rows && 0 <= x < board.cols ==>
                  board.grid[y][x] == (if Cell(x, y) in pts[..i] then '#' else old(board.grid)[y][x])
      invariant forall y, x :: 0 <= y < board.rows && 0 <= x < board.cols ==>
                  board.owner[y][x] == (if Cell(x, y) in pts[..i] then id else old(board.owner)[y][x])
    {
      board.PlaceTile(pts[i].x, pts[i].y, id);
      assert forall c :: c in pts[..i + 1] <==> c in pts[..i] || c == pts[i] by {
        assert pts[..i + 1] == pts[..i] + [pts[i]];
      }
      i := i + 1;
    }
    assert pts[..i] == pts;
  }

  /** Places a player's starting cell at (col, row): accepted only on a free
      cell of the board, where it is claimed for the player whatever its
      neighbours are. */
  method PlaceSeed(board: Board, row: int, col: int, id: int) returns (accepted: bool)
    requires board.Valid()
    modifies board
    ensures accepted <==> InBounds(old(board.rows), old(board.cols), Cell(col, row)) &&
                          old(board.grid)[row][col] == '.'
    ensures accepted ==> board.grid == old(board.grid)[row := old(board.grid)[row][col := '#']] &&
                         board.owner == old(board.owner)[row := old(board.owner)[row][col := id]]
    ensures !accepted ==> board.grid == old(board.grid) && board.owner == old(board.owner)
    ensures board.rows == old(board.rows) && board.cols == old(board.cols)
    ensures board.bonuses == old(board.bonuses)
    ensures board.Valid()
  {
    if row < 0 || row >= board.GetRows() || col < 0 || col >= board.GetCols() {
      return false;
    }
    if board.GetGrid()[row][col] != '.' {
      return false;
    }
    board.PlaceTile(col, row, id);
    return true;
  }

  /** A footprint that obeys the rule is non-empty and lies on the board, and
      its player is not the "nobody" owner 0. */
  lemma PlaceableShape(grid: seq<seq<char>>, owner: seq<seq<int>>, rows: int, cols: int,
                             pts: seq<Cell>, id: int)
    requires |grid| == rows && forall i :: 0 <= i < rows ==> |grid[i]| == cols
    requires |owner| == rows && forall i :: 0 <= i < rows ==> |owner[i]| == cols
    requires Placeable(grid, owner, rows, cols, pts, id)
    ensures pts != [] && id != 0
    ensures forall i :: 0 <= i < |pts| ==> InBounds(rows, cols, pts[i])
  {
    var i :| 0 <= i < |pts| && OwnAround(owner, rows, cols, pts[i], id, 4);
  }
}
