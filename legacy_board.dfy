/** The earlier board: the grid and its size only, with no owners and no
    bonuses. It sizes the grid by the same rule as the current board. */
module LegacyBoards {
  import Boards

  class Board {
    var rows: int
    var cols: int
    var grid: seq<seq<char>>

    /** Grid is rows x cols. */
    ghost predicate Valid()
      reads this
    {
      rows >= 0 && cols >= 0 &&
      |grid| == rows && forall i :: 0 <= i < rows ==> |grid[i]| == cols
    }

    /** A 0 x 0 board. */
    constructor ()
      ensures rows == 0 && cols == 0 && grid == []
      ensures Valid()
    {
      rows, cols := 0, 0;
      grid := [];
    }

    /** A board sized for the number of players. */
    constructor ForPlayers(numberOfPlayers: int)
      ensures rows == Boards.GridSide(numberOfPlayers) && cols == rows
      ensures grid == Boards.FreshGrid(rows, cols)
      ensures Valid()
    {
      var side := Boards.GridSide(numberOfPlayers);
      rows, cols := side, side;
      grid := Boards.FreshGrid(side, side);
    }

    /** 20 x 20 for two to four players, 30 x 30 for five to nine, 0 x 0
        otherwise; every cell free. */
    method InitGrid(numberOfPlayers: int)
      modifies this
      ensures rows == Boards.GridSide(numberOfPlayers) && cols == rows
      ensures grid == Boards.FreshGrid(rows, cols)
      ensures Valid()
    {
      var side := Boards.GridSide(numberOfPlayers);
      rows, cols := side, side;
      grid := Boards.FreshGrid(side, side);
    }

    function GetRows(): (r: int)
      reads this
      ensures r == rows
    {
      rows
    }

    function GetCols(): (c: int)
      reads this
      ensures c == cols
    {
      cols
    }

    function GetGrid(): (g: seq<seq<char>>)
      reads this
      ensures g == grid
    {
      grid
    }
  }
}
