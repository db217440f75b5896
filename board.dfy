/** The playing board: a rows x cols grid of cells ('.' is free, '#' is
    claimed), the owner of every cell (0 for nobody) and the bonuses laid out
    on it. Bonus positions are (row, column) pairs. The random generator of the
    bonus layout is an input: the caller supplies the numbers it would have
    returned. */
module Boards {

  /** The three bonus kinds; each shows as one letter on the grid. */
  datatype BonusKind = Exchange | Stone | Steal {
    function Symbol(): (s: string)
      ensures |s| == 1
      ensures s == "E" <==> this == Exchange
      ensures s == "R" <==> this == Stone
      ensures s == "S" <==> this == Steal
    {
      match this
      case Exchange => "E"
      case Stone => "R"
      case Steal => "S"
    }
  }

  /** Side of the square grid for a number of players: 20 for two to four, 30
      for five to nine, 0 (no board) for any other count. */
  function GridSide(numberOfPlayers: int): (side: int)
    ensures side == 20 <==> 2 <= numberOfPlayers <= 4
    ensures side == 30 <==> 5 <= numberOfPlayers <= 9
    ensures side == 0 <==> !(2 <= numberOfPlayers <= 9)
  {
    if 2 <= numberOfPlayers <= 4 then 20
    else if 5 <= numberOfPlayers <= 9 then 30
    else 0
  }

  /** A grid of the given size with every cell free. */
  function FreshGrid(rows: nat, cols: nat): (g: seq<seq<char>>)
    ensures |g| == rows
    ensures forall i :: 0 <= i < rows ==> |g[i]| == cols
    ensures forall i, j :: 0 <= i < rows && 0 <= j < cols ==> g[i][j] == '.'
  {
    seq(rows, _ => seq(cols, _ => '.'))
  }

  /** An owner grid of the given size with no cell owned. */
  function FreshOwners(rows: nat, cols: nat): (g: seq<seq<int>>)
    ensures |g| == rows
    ensures forall i :: 0 <= i < rows ==> |g[i]| == cols
    ensures forall i, j :: 0 <= i < rows && 0 <= j < cols ==> g[i][j] == 0
  {
    seq(rows, _ => seq(cols, _ => 0))
  }

  /** ceil(1.5 n) exchange bonuses (none for n <= 0). */
  function ExchangeCount(n: int): (c: nat)
    ensures n <= 0 ==> c == 0
    ensures n > 0 ==> 3 * n <= 2 * c < 3 * n + 2
  {
    if n <= 0 then 0 else (3 * n + 1) / 2
  }

  /** ceil(0.5 n) stone bonuses (none for n <= 0). */
  function StoneCount(n: int): (c: nat)
    ensures n <= 0 ==> c == 0
    ensures n > 0 ==> n <= 2 * c < n + 2
  {
    if n <= 0 then 0 else (n + 1) / 2
  }

  /** n steal bonuses (none for n <= 0). */
  function StealCount(n: int): (c: nat)
    ensures n <= 0 ==> c == 0
    ensures n > 0 ==> c == n
  {
    if n <= 0 then 0 else n
  }

  /** The bonuses in the order they are laid out: exchanges, then stones, then
      steals. */
  function Schedule(n: int): seq<BonusKind> {
    seq(ExchangeCount(n), _ => Exchange) + seq(StoneCount(n), _ => Stone) +
    seq(StealCount(n), _ => Steal)
  }

  lemma {:induction false} RepeatCount(k: nat, v: BonusKind, w: BonusKind)
    ensures multiset(seq(k, _ => v))[w] == if v == w then k else 0
  {
    if k > 0 {
      RepeatCount(k - 1, v, w);
      assert seq(k, _ => v) == seq(k - 1, _ => v) + [v];
    }
  }

  /** The layout holds exactly the computed number of bonuses of each kind. */
  lemma ScheduleCounts(n: int)
    ensures multiset(Schedule(n))[Exchange] == ExchangeCount(n)
    ensures multiset(Schedule(n))[Stone] == StoneCount(n)
    ensures multiset(Schedule(n))[Steal] == StealCount(n)
    ensures |Schedule(n)| == ExchangeCount(n) + StoneCount(n) + StealCount(n)
  {
    var e, s, t := ExchangeCount(n), StoneCount(n), StealCount(n);
    assert Schedule(n) == seq(e, _ => Exchange) + seq(s, _ => Stone) + seq(t, _ => Steal);
    RepeatCount(e, Exchange, Exchange); RepeatCount(e, Exchange, Stone); RepeatCount(e, Exchange, Steal);
    RepeatCount(s, Stone, Exchange); RepeatCount(s, Stone, Stone); RepeatCount(s, Stone, Steal);
    RepeatCount(t, Steal, Exchange); RepeatCount(t, Steal, Stone); RepeatCount(t, Steal, Steal);
  }

  /** Two positions are in each other's 3x3 neighbourhood (Chebyshev distance at
      most 1; a position is near itself). */
  predicate Near(p: (int, int), q: (int, int)) {
    -1 <= p.0 - q.0 <= 1 && -1 <= p.1 - q.1 <= 1
  }

  /** No bonus lies in the 3x3 neighbourhood of (x, y). */
  predicate NoBonusNear(bonuses: map<(int, int), BonusKind>, x: int, y: int) {
    forall p :: p in bonuses ==> !Near(p, (x, y))
  }

  /** Any two distinct bonuses are more than one step apart in both directions
      at once. */
  predicate Spaced(bonuses: map<(int, int), BonusKind>) {
    forall p, q :: p in bonuses && q in bonuses && p != q ==> !Near(p, q)
  }

  /** Every bonus lies off the border of a rows x cols grid. */
  predicate Interior(bonuses: map<(int, int), BonusKind>, rows: int, cols: int) {
    forall p :: p in bonuses ==> 1 <= p.0 <= rows - 2 && 1 <= p.1 <= cols - 2
  }

  /** A position can take a bonus: its cell is free and no bonus is in its 3x3
      neighbourhood. */
  predicate SpotFree(grid: seq<seq<char>>, bonuses: map<(int, int), BonusKind>, x: int, y: int)
    requires 0 <= x < |grid| && 0 <= y < |grid[x]|
  {
    grid[x][y] == '.' && NoBonusNear(bonuses, x, y)
  }

  /** Adding a bonus at a position with no bonus nearby keeps the bonuses
      spaced. */
  lemma SpacedInsert(bonuses: map<(int, int), BonusKind>, x: int, y: int, k: BonusKind)
    requires Spaced(bonuses) && NoBonusNear(bonuses, x, y)
    ensures Spaced(bonuses[(x, y) := k])
  {
    forall p, q | p in bonuses[(x, y) := k] && q in bonuses[(x, y) := k] && p != q
      ensures !Near(p, q)
    {
      if p == (x, y) {
        assert !Near(q, (x, y));
      } else if q == (x, y) {
        assert !Near(p, (x, y));
      }
    }
  }

  /** The number of candidate positions a stream of random numbers yields (two
      numbers each). */
  function Attempts(rolls: seq<nat>): nat {
    |rolls| / 2
  }

  /** Candidate number a: a row in 1..rows-2 and a column in 1..cols-2 drawn from
      two consecutive random numbers. */
  function Candidate(rolls: seq<nat>, a: nat, rows: int, cols: int): (p: (int, int))
    requires a < Attempts(rolls) && rows >= 3 && cols >= 3
    ensures 1 <= p.0 <= rows - 2 && 1 <= p.1 <= cols - 2
  {
    (rolls[2 * a] % (rows - 2) + 1, rolls[2 * a + 1] % (cols - 2) + 1)
  }

  /** The bonuses after recording each placed position with its scheduled
      kind, in order. */
  function Record(m: map<(int, int), BonusKind>, placed: seq<(int, int)>, kinds: seq<BonusKind>)
    : map<(int, int), BonusKind>
    requires |placed| <= |kinds|
  {
    if placed == [] then m
    else Record(m, placed[..|placed| - 1], kinds)[placed[|placed| - 1] := kinds[|placed| - 1]]
  }

  /** The grid is rows x cols and at least 3 wide, so every candidate
      position is a cell of it. */
  predicate RollGrid(grid: seq<seq<char>>, rows: int, cols: int) {
    rows >= 3 && cols >= 3 && |grid| == rows && forall i :: 0 <= i < rows ==> |grid[i]| == cols
  }

  /** Candidate number a can take a bonus. */
  predicate CandidateOpen(grid: seq<seq<char>>, m: map<(int, int), BonusKind>, rolls: seq<nat>,
                          rows: int, cols: int, a: nat)
    requires RollGrid(grid, rows, cols) && a < Attempts(rolls)
  {
    var c := Candidate(rolls, a, rows, cols);
    SpotFree(grid, m, c.0, c.1)
  }

  /** The first candidate from number a on that can take a bonus; a number at
      or past the end of the random numbers when there is none. */
  function NextFree(grid: seq<seq<char>>, m: map<(int, int), BonusKind>, rolls: seq<nat>,
                    rows: int, cols: int, a: nat): (f: nat)
    requires RollGrid(grid, rows, cols)
    ensures a <= f
    ensures f < Attempts(rolls) ==> CandidateOpen(grid, m, rolls, rows, cols, f)
    ensures forall b :: a <= b < f && b < Attempts(rolls) ==> !CandidateOpen(grid, m, rolls, rows, cols, b)
    decreases Attempts(rolls) - a
  {
    if a >= Attempts(rolls) then a
    else if CandidateOpen(grid, m, rolls, rows, cols, a) then a
    else NextFree(grid, m, rolls, rows, cols, a + 1)
  }

  /** Reference definition of the layout: bonuses kinds[k..] are laid one by
      one, each at the first open candidate after the one before it, starting
      from candidate number a. The result lists the chosen positions and says
      whether every bonus found a place before the random numbers ran out. */
  function Layout(grid: seq<seq<char>>, m: map<(int, int), BonusKind>, kinds: seq<BonusKind>,
                  rolls: seq<nat>, rows: int, cols: int, a: nat, k: nat): (r: (seq<(int, int)>, bool))
    requires RollGrid(grid, rows, cols) && k <= |kinds|
    ensures |r.0| <= |kinds| - k
    ensures r.1 <==> |r.0| == |kinds| - k
    decreases |kinds| - k
  {
    if k == |kinds| then ([], true)
    else
      var f := NextFree(grid, m, rolls, rows, cols, a);
      if f >= Attempts(rolls) then ([], false)
      else
        var p := Candidate(rolls, f, rows, cols);
        var rest := Layout(grid, m[p := kinds[k]], kinds, rolls, rows, cols, f + 1, k + 1);
        ([p] + rest.0, rest.1)
  }

  /** Candidates a..f-1 are closed and f is open or past the end: the search
      from a stops at f. */
  lemma {:induction false} NextFreeStops(grid: seq<seq<char>>, m: map<(int, int), BonusKind>,
                                         rolls: seq<nat>, rows: int, cols: int, a: nat, f: nat)
    requires RollGrid(grid, rows, cols) && a <= f
    requires forall b :: a <= b < f && b < Attempts(rolls) ==> !CandidateOpen(grid, m, rolls, rows, cols, b)
    requires f < Attempts(rolls) ==> CandidateOpen(grid, m, rolls, rows, cols, f)
    ensures f < Attempts(rolls) ==> NextFree(grid, m, rolls, rows, cols, a) == f
    ensures f >= Attempts(rolls) ==> NextFree(grid, m, rolls, rows, cols, a) >= Attempts(rolls)
    decreases f - a
  {
    if a < f && a < Attempts(rolls) {
      NextFreeStops(grid, m, rolls, rows, cols, a + 1, f);
    }
  }

  /** Position p is the candidate of some attempt a or later. */
  ghost predicate CandidateFrom(rolls: seq<nat>, rows: int, cols: int, a: nat, p: (int, int))
    requires rows >= 3 && cols >= 3
  {
    exists j :: a <= j < Attempts(rolls) && p == Candidate(rolls, j, rows, cols)
  }

  /** Every position a layout from attempt a lays is the candidate of some
      attempt a or later: the positions come from the random numbers only. */
  lemma {:induction false} LayoutCandidates(grid: seq<seq<char>>, m: map<(int, int), BonusKind>,
                                            kinds: seq<BonusKind>, rolls: seq<nat>, rows: int, cols: int,
                                            a: nat, k: nat)
    requires RollGrid(grid, rows, cols) && k <= |kinds|
    ensures var r := Layout(grid, m, kinds, rolls, rows, cols, a, k);
            forall i :: 0 <= i < |r.0| ==> CandidateFrom(rolls, rows, cols, a, r.0[i])
    decreases |kinds| - k
  {
    if k < |kinds| {
      var f := NextFree(grid, m, rolls, rows, cols, a);
      if f < Attempts(rolls) {
        var p := Candidate(rolls, f, rows, cols);
        LayoutStep(grid, m, kinds, rolls, rows, cols, a, k, f);
        LayoutCandidates(grid, m[p := kinds[k]], kinds, rolls, rows, cols, f + 1, k + 1);
        CandidatesCons(rolls, rows, cols, a, f, Layout(grid, m[p := kinds[k]], kinds, rolls, rows, cols, f + 1, k + 1).0);
      }
    }
  }

  /** Prepending the candidate of attempt f to candidates of attempts after f
      gives candidates of attempts a or later, for a <= f. */
  lemma CandidatesCons(rolls: seq<nat>, rows: int, cols: int, a: nat, f: nat, rest: seq<(int, int)>)
    requires rows >= 3 && cols >= 3 && a <= f < Attempts(rolls)
    requires forall i :: 0 <= i < |rest| ==> CandidateFrom(rolls, rows, cols, f + 1, rest[i])
    ensures var r := [Candidate(rolls, f, rows, cols)] + rest;
            forall i :: 0 <= i < |r| ==> CandidateFrom(rolls, rows, cols, a, r[i])
  {
    var r := [Candidate(rolls, f, rows, cols)] + rest;
    forall i | 0 <= i < |r| ensures CandidateFrom(rolls, rows, cols, a, r[i]) {
      if i == 0 {
        assert r[0] == Candidate(rolls, f, rows, cols);
      } else {
        assert CandidateFrom(rolls, rows, cols, f + 1, rest[i - 1]);
        var j :| f + 1 <= j < Attempts(rolls) && rest[i - 1] == Candidate(rolls, j, rows, cols);
        assert r[i] == Candidate(rolls, j, rows, cols);
      }
    }
  }

  /** One layout step: when candidate f is the first open one from a, the
      layout from a lays kinds[k] at candidate f and goes on from f + 1. */
  lemma LayoutStep(grid: seq<seq<char>>, m: map<(int, int), BonusKind>, kinds: seq<BonusKind>,
                   rolls: seq<nat>, rows: int, cols: int, a: nat, k: nat, f: nat)
    requires RollGrid(grid, rows, cols) && k < |kinds| && a <= f < Attempts(rolls)
    requires forall b :: a <= b < f ==> !CandidateOpen(grid, m, rolls, rows, cols, b)
    requires CandidateOpen(grid, m, rolls, rows, cols, f)
    ensures var p := Candidate(rolls, f, rows, cols);
            var rest := Layout(grid, m[p := kinds[k]], kinds, rolls, rows, cols, f + 1, k + 1);
            Layout(grid, m, kinds, rolls, rows, cols, a, k) == ([p] + rest.0, rest.1)
  {
    NextFreeStops(grid, m, rolls, rows, cols, a, f);
  }

  /** The layout `total` is what was placed so far followed by the layout from
      attempt a and bonus k on. */
  ghost predicate LayoutFrom(total: (seq<(int, int)>, bool), placed: seq<(int, int)>,
                             grid: seq<seq<char>>, m: map<(int, int), BonusKind>, kinds: seq<BonusKind>,
                             rolls: seq<nat>, rows: int, cols: int, a: nat, k: nat)
    requires RollGrid(grid, rows, cols) && k <= |kinds|
  {
    var rest := Layout(grid, m, kinds, rolls, rows, cols, a, k);
    total == (placed + rest.0, rest.1)
  }

  /** One step of the loop that lays the bonuses keeps it on the layout. */
  lemma LayoutAdvance(total: (seq<(int, int)>, bool), placed: seq<(int, int)>,
                      grid: seq<seq<char>>, m: map<(int, int), BonusKind>, kinds: seq<BonusKind>,
                      rolls: seq<nat>, rows: int, cols: int, a: nat, k: nat, f: nat)
    requires RollGrid(grid, rows, cols) && k < |kinds| && a <= f < Attempts(rolls)
    requires forall b :: a <= b < f ==> !CandidateOpen(grid, m, rolls, rows, cols, b)
    requires CandidateOpen(grid, m, rolls, rows, cols, f)
    requires LayoutFrom(total, placed, grid, m, kinds, rolls, rows, cols, a, k)
    ensures var p := Candidate(rolls, f, rows, cols);
            LayoutFrom(total, placed + [p], grid, m[p := kinds[k]], kinds, rolls, rows, cols, f + 1, k + 1)
  {
    var p := Candidate(rolls, f, rows, cols);
    LayoutStep(grid, m, kinds, rolls, rows, cols, a, k, f);
    var rest := Layout(grid, m[p := kinds[k]], kinds, rolls, rows, cols, f + 1, k + 1);
    assert placed + ([p] + rest.0) == (placed + [p]) + rest.0;
  }

  /** When no candidate from a on is open, the layout from a places nothing
      more and is incomplete. */
  lemma LayoutStuck(grid: seq<seq<char>>, m: map<(int, int), BonusKind>, kinds: seq<BonusKind>,
                    rolls: seq<nat>, rows: int, cols: int, a: nat, k: nat)
    requires RollGrid(grid, rows, cols) && k < |kinds|
    requires forall b :: a <= b < Attempts(rolls) ==> !CandidateOpen(grid, m, rolls, rows, cols, b)
    ensures Layout(grid, m, kinds, rolls, rows, cols, a, k) == ([], false)
  {
    NextFreeStops(grid, m, rolls, rows, cols, a, if a < Attempts(rolls) then Attempts(rolls) else a);
  }

  class Board {
    var rows: int
    var cols: int
    var grid: seq<seq<char>>
    var owner: seq<seq<int>>
    var bonuses: map<(int, int), BonusKind>

    /** Grid and owner grid are rows x cols; the board is square and either
        absent or at least 3 wide. */
    ghost predicate WellShaped()
      reads this
    {
      rows == cols && (rows == 0 || rows >= 3) &&
      |grid| == rows && (forall i :: 0 <= i < rows ==> |grid[i]| == cols) &&
      |owner| == rows && (forall i :: 0 <= i < rows ==> |owner[i]| == cols)
    }

    ghost predicate Valid()
      reads this
    {
      WellShaped() && Interior(bonuses, rows, cols) && Spaced(bonuses)
    }

    /** The board of a game not set up yet: 0 x 0. */
    constructor ()
      ensures rows == 0 && cols == 0 && grid == [] && owner == [] && bonuses == map[]
      ensures Valid()
    {
      rows, cols := 0, 0;
      grid, owner := [], [];
      bonuses := map[];
    }

    /** A board sized for the number of players. */
    constructor ForPlayers(numberOfPlayers: int)
      ensures rows == GridSide(numberOfPlayers) && cols == rows
      ensures grid == FreshGrid(rows, cols) && owner == FreshOwners(rows, cols)
      ensures bonuses == map[]
      ensures Valid()
    {
      bonuses := map[];
      var side := GridSide(numberOfPlayers);
      rows, cols := side, side;
      grid := FreshGrid(side, side);
      owner := FreshOwners(side, side);
    }

    /** Resizes the board for the number of players and clears every cell. */
    method InitGrid(numberOfPlayers: int)
      modifies this
      ensures rows == GridSide(numberOfPlayers) && cols == rows
      ensures grid == FreshGrid(rows, cols) && owner == FreshOwners(rows, cols)
      ensures bonuses == old(bonuses)
      ensures WellShaped()
      ensures old(bonuses) == map[] ==> Valid()
    {
      var side := GridSide(numberOfPlayers);
      rows, cols := side, side;
      grid := FreshGrid(side, side);
      owner := FreshOwners(side, side);
    }

    function GetRows(): (r: int)
      reads this
      ensures r == rows
    {
      rows
    }

    function GetCols(): (c: int)
      reads this
      ensures c == cols
    {
      cols
    }

    function GetGrid(): (g: seq<seq<char>>)
      reads this
      ensures g == grid
    {
      grid
    }

    function GetOwnerGrid(): (g: seq<seq<int>>)
      reads this
      ensures g == owner
    {
      owner
    }

    function GetBonus(): (b: map<(int, int), BonusKind>)
      reads this
      ensures b == bonuses
    {
      bonuses
    }

    /** Claims cell (x, y) for a player: column x, row y. */
    method PlaceTile(x: int, y: int, id: int)
      requires Valid() && 0 <= x < cols && 0 <= y < rows
      modifies this
      ensures grid == old(grid)[y := old(grid)[y][x := '#']]
      ensures owner == old(owner)[y := old(owner)[y][x := id]]
      ensures rows == old(rows) && cols == old(cols) && bonuses == old(bonuses)
      ensures Valid()
    {
      grid := grid[y := grid[y][x := '#']];
      owner := owner[y := owner[y][x := id]];
    }

    /** The validity test of one candidate: a free cell with no bonus on it or
        in its 3x3 neighbourhood. */
    method CandidateFree(x: int, y: int) returns (valid: bool)
      requires 0 <= x < |grid| && 0 <= y < |grid[x]|
      ensures valid <==> SpotFree(grid, bonuses, x, y)
    {
      valid := grid[x][y] == '.' && (x, y) !in bonuses;
      if valid {
        for dx := -1 to 2
          invariant valid ==> forall p :: p in bonuses && Near(p, (x, y)) ==> p.0 - x >= dx
          invariant !valid ==> !NoBonusNear(bonuses, x, y)
        {
          for dy := -1 to 2
            invariant valid ==> forall p :: p in bonuses && Near(p, (x, y)) ==>
                                  p.0 - x > dx || (p.0 - x == dx && p.1 - y >= dy)
            invariant !valid ==> !NoBonusNear(bonuses, x, y)
          {
            if (x + dx, y + dy) in bonuses {
              assert Near((x + dx, y + dy), (x, y));
              valid := false;
            }
          }
        }
      } else if grid[x][y] == '.' {
        assert Near((x, y), (x, y));
      }
    }

    /** Lays one bonus: tries candidates from number `attempt` on until one is
        free and records the bonus there. Fails, leaving the bonuses as they
        were, when the random numbers run out first. */
    method Place(kind: BonusKind, rolls: seq<nat>, attempt: nat)
      returns (ok: bool, spot: (int, int), next: nat)
      requires Valid() && rows >= 3
      modifies this
      ensures rows == old(rows) && cols == old(cols) && grid == old(grid) && owner == old(owner)
      ensures attempt <= next <= Attempts(rolls) || (next == attempt && !ok)
      ensures RollGrid(grid, rows, cols)
      ensures ok ==> attempt < next && spot == Candidate(rolls, next - 1, rows, cols) &&
                     CandidateOpen(grid, old(bonuses), rolls, rows, cols, next - 1) &&
                     bonuses == old(bonuses)[spot := kind]
      ensures !ok ==> next >= Attempts(rolls) && bonuses == old(bonuses)
      ensures forall a :: attempt <= a < next - (if ok then 1 else 0) && a < Attempts(rolls) ==>
                !CandidateOpen(grid, old(bonuses), rolls, rows, cols, a)
      ensures Valid()
    {
      next := attempt;
      ok := false;
      spot := (0, 0);
      while next < Attempts(rolls)
        invariant attempt <= next
        invariant next > Attempts(rolls) ==> next == attempt
        invariant Valid() && rows >= 3 && bonuses == old(bonuses)
        invariant rows == old(rows) && cols == old(cols) && grid == old(grid) && owner == old(owner)
        invariant forall a :: attempt <= a < next && a < Attempts(rolls) ==>
                    !CandidateOpen(grid, bonuses, rolls, rows, cols, a)
        decreases Attempts(rolls) - next
      {
        var c := Candidate(rolls, next, rows, cols);
        next := next + 1;
        var valid := CandidateFree(c.0, c.1);
        if valid {
          SpacedInsert(bonuses, c.0, c.1, kind);
          bonuses := bonuses[c := kind];
          ok, spot := true, c;
          return;
        }
      }
    }

    /** Lays out ceil(1.5 n) exchange, ceil(0.5 n) stone and n steal bonuses, in
        that order, each on the first free candidate after the previous one.
        Nothing happens on a 0 x 0 board. `placed` lists the chosen positions;
        `complete` is false when the random numbers ran out before every bonus
        was laid. Positions and bonus keys are (row, column), unlike the
        (column, row) cells of tiles and footprints. */
    method PlaceBonus(numberOfPlayers: int, rolls: seq<nat>)
      returns (complete: bool, placed: seq<(int, int)>)
      requires Valid()
      modifies this
      ensures rows == old(rows) && cols == old(cols) && grid == old(grid) && owner == old(owner)
      ensures old(rows) == 0 || old(cols) == 0 ==> complete && placed == [] && bonuses == old(bonuses)
      ensures |placed| <= |Schedule(numberOfPlayers)|
      ensures complete <==> rows == 0 || |placed| == |Schedule(numberOfPlayers)|
      ensures bonuses == Record(old(bonuses), placed, Schedule(numberOfPlayers))
      ensures LaidOut(old(bonuses), placed, Schedule(numberOfPlayers), grid, rows, cols)
      ensures Valid()
      ensures rows != 0 ==>
                RollGrid(grid, rows, cols) &&
                (placed, complete) == Layout(grid, old(bonuses), Schedule(numberOfPlayers), rolls, rows, cols, 0, 0)
    {
      placed := [];
      if rows == 0 || cols == 0 {
        return true, placed;
      }
      var schedule := Schedule(numberOfPlayers);
      var attempt := 0;
      var k := 0;
      ghost var total := Layout(grid, bonuses, schedule, rolls, rows, cols, 0, 0);
      assert placed + total.0 == total.0;
      while k < |schedule|
        invariant 0 <= k <= |schedule| && |placed| == k
        invariant Valid() && RollGrid(grid, rows, cols)
        invariant rows == old(rows) && cols == old(cols) && grid == old(grid) && owner == old(owner)
        invariant bonuses == Record(old(bonuses), placed, schedule)
        invariant LaidOut(old(bonuses), placed, schedule, grid, rows, cols)
        invariant LayoutFrom(total, placed, grid, bonuses, schedule, rolls, rows, cols, attempt, k)
      {
        ghost var before, from := bonuses, attempt;
        var ok, spot;
        ok, spot, attempt := Place(schedule[k], rolls, attempt);
        if !ok {
          LayoutStuck(grid, before, schedule, rolls, rows, cols, from, k);
          assert placed + [] == placed;
          return false, placed;
        }
        BonusStep(old(bonuses), before, bonuses, placed, total, schedule, grid, rolls, rows, cols,
                  from, attempt, spot);
        placed := placed + [spot];
        k := k + 1;
      }
      assert placed + [] == placed;
      complete := true;
    }
  }

  /** One successful round of PlaceBonus keeps the bonuses the record of the
      layout so far, and the layout on the reference layout `total`. */
  lemma BonusStep(m: map<(int, int), BonusKind>, before: map<(int, int), BonusKind>,
                  after: map<(int, int), BonusKind>, placed: seq<(int, int)>,
                  total: (seq<(int, int)>, bool), kinds: seq<BonusKind>, grid: seq<seq<char>>,
                  rolls: seq<nat>, rows: int, cols: int, from: nat, next: nat, spot: (int, int))
    requires RollGrid(grid, rows, cols) && |placed| < |kinds|
    requires before == Record(m, placed, kinds)
    requires LaidOut(m, placed, kinds, grid, rows, cols)
    requires LayoutFrom(total, placed, grid, before, kinds, rolls, rows, cols, from, |placed|)
    requires next <= Attempts(rolls)
    requires from < next && spot == Candidate(rolls, next - 1, rows, cols) &&
             CandidateOpen(grid, before, rolls, rows, cols, next - 1) &&
             after == before[spot := kinds[|placed|]]
    requires forall a :: from <= a < next - 1 && a < Attempts(rolls) ==>
               !CandidateOpen(grid, before, rolls, rows, cols, a)
    ensures after == Record(m, placed + [spot], kinds)
    ensures LaidOut(m, placed + [spot], kinds, grid, rows, cols)
    ensures LayoutFrom(total, placed + [spot], grid, after, kinds, rolls, rows, cols, next, |placed| + 1)
  {
    LayoutAdvance(total, placed, grid, before, kinds, rolls, rows, cols, from, |placed|, next - 1);
    LaidOutStep(m, placed, kinds, grid, rows, cols, spot);
    assert (placed + [spot])[..|placed|] == placed;
  }

  /** Each placed position is an interior position that had no bonus before and
      was free when its bonus was recorded. */
  ghost predicate LaidOut(m: map<(int, int), BonusKind>, placed: seq<(int, int)>, kinds: seq<BonusKind>,
                          grid: seq<seq<char>>, rows: int, cols: int)
    requires |placed| <= |kinds|
  {
    forall i :: 0 <= i < |placed| ==>
      placed[i] !in m && 1 <= placed[i].0 <= rows - 2 && 1 <= placed[i].1 <= cols - 2 &&
      0 <= placed[i].0 < |grid| && 0 <= placed[i].1 < |grid[placed[i].0]| &&
      SpotFree(grid, Record(m, placed[..i], kinds), placed[i].0, placed[i].1)
  }

  /** Appending a position that was free in the current bonuses keeps the
      layout record. */
  lemma LaidOutStep(m: map<(int, int), BonusKind>, placed: seq<(int, int)>, kinds: seq<BonusKind>,
                    grid: seq<seq<char>>, rows: int, cols: int, spot: (int, int))
    requires |placed| < |kinds| && LaidOut(m, placed, kinds, grid, rows, cols)
    requires 1 <= spot.0 <= rows - 2 && 1 <= spot.1 <= cols - 2
    requires 0 <= spot.0 < |grid| && 0 <= spot.1 < |grid[spot.0]|
    requires SpotFree(grid, Record(m, placed, kinds), spot.0, spot.1)
    ensures LaidOut(m, placed + [spot], kinds, grid, rows, cols)
  {
    var p := placed + [spot];
    assert p[..|placed|] == placed;
    assert Near(spot, spot);
    RecordKeepsOld(m, placed, kinds);
    forall i | 0 <= i < |placed| ensures p[..i] == placed[..i] {
    }
  }

  /** Recording never removes a key, so a key free afterwards was free before. */
  lemma {:induction false} RecordKeepsOld(m: map<(int, int), BonusKind>, placed: seq<(int, int)>,
                                          kinds: seq<BonusKind>)
    requires |placed| <= |kinds|
    ensures m.Keys <= Record(m, placed, kinds).Keys
  {
    if placed != [] {
      RecordKeepsOld(m, placed[..|placed| - 1], kinds);
    }
  }

  /** The first j positions of a layout are a layout themselves. */
  lemma LaidOutPrefix(m: map<(int, int), BonusKind>, placed: seq<(int, int)>, kinds: seq<BonusKind>,
                      grid: seq<seq<char>>, rows: int, cols: int, j: nat)
    requires |placed| <= |kinds| && j <= |placed| && LaidOut(m, placed, kinds, grid, rows, cols)
    ensures LaidOut(m, placed[..j], kinds, grid, rows, cols)
  {
    forall i | 0 <= i < j ensures placed[..j][..i] == placed[..i] {
    }
  }

  /** The last position of a layout is new: neither an old bonus nor one
      recorded before it; the rest is a layout. */
  lemma LaidOutLast(m: map<(int, int), BonusKind>, placed: seq<(int, int)>, kinds: seq<BonusKind>,
                    grid: seq<seq<char>>, rows: int, cols: int)
    requires 0 < |placed| <= |kinds| && LaidOut(m, placed, kinds, grid, rows, cols)
    ensures placed[|placed| - 1] !in m
    ensures placed[|placed| - 1] !in Record(m, placed[..|placed| - 1], kinds)
    ensures LaidOut(m, placed[..|placed| - 1], kinds, grid, rows, cols)
  {
    var n := |placed| - 1;
    assert Near(placed[n], placed[n]);
    LaidOutPrefix(m, placed, kinds, grid, rows, cols, n);
  }

  /** The map r is m with the distinct positions `placed` added, each with its
      own kind. */
  ghost predicate AddsFresh(m: map<(int, int), BonusKind>, placed: seq<(int, int)>, kinds: seq<BonusKind>,
                            r: map<(int, int), BonusKind>)
    requires |placed| <= |kinds|
  {
    (forall i, j :: 0 <= i < j < |placed| ==> placed[i] != placed[j]) &&
    r.Keys == m.Keys + (set p | p in placed) &&
    (forall i :: 0 <= i < |placed| ==> r[placed[i]] == kinds[i]) &&
    (forall p :: p in m ==> r[p] == m[p])
  }

  /** The properties RecordLaidOut states, for one layout. */
  ghost predicate RecordsFresh(m: map<(int, int), BonusKind>, placed: seq<(int, int)>, kinds: seq<BonusKind>)
    requires |placed| <= |kinds|
  {
    AddsFresh(m, placed, kinds, Record(m, placed, kinds))
  }

  /** Adding one more position, new to r, keeps AddsFresh. */
  lemma AddsFreshSnoc(m: map<(int, int), BonusKind>, q: seq<(int, int)>, kinds: seq<BonusKind>,
                      r: map<(int, int), BonusKind>, last: (int, int))
    requires |q| < |kinds| && AddsFresh(m, q, kinds, r) && last !in r
    ensures AddsFresh(m, q + [last], kinds, r[last := kinds[|q|]])
  {
    var p := q + [last];
    assert (set x | x in p) == (set x | x in q) + {last};
    forall i | 0 <= i < |q| ensures p[i] == q[i] && p[i] in r {
    }
  }

  /** Recording one more position, new to the bonuses recorded so far, keeps
      RecordsFresh. */
  lemma RecordsFreshStep(m: map<(int, int), BonusKind>, placed: seq<(int, int)>, kinds: seq<BonusKind>)
    requires 0 < |placed| <= |kinds|
    requires RecordsFresh(m, placed[..|placed| - 1], kinds)
    requires placed[|placed| - 1] !in Record(m, placed[..|placed| - 1], kinds)
    ensures RecordsFresh(m, placed, kinds)
  {
    var n := |placed| - 1;
    var q, last := placed[..n], placed[n];
    assert placed == q + [last];
    AddsFreshSnoc(m, q, kinds, Record(m, q, kinds), last);
  }

  /** A layout lays distinct positions, none of them an old bonus; recording it
      adds exactly those positions, each with its own kind, and keeps the old
      bonuses as they were. */
  lemma {:induction false} RecordLaidOut(m: map<(int, int), BonusKind>, placed: seq<(int, int)>,
                                         kinds: seq<BonusKind>, grid: seq<seq<char>>, rows: int, cols: int)
    requires |placed| <= |kinds| && LaidOut(m, placed, kinds, grid, rows, cols)
    ensures RecordsFresh(m, placed, kinds)
  {
    if placed != [] {
      LaidOutLast(m, placed, kinds, grid, rows, cols);
      RecordLaidOut(m, placed[..|placed| - 1], kinds, grid, rows, cols);
      RecordsFreshStep(m, placed, kinds);
    }
  }

  /** The kinds of the bonuses at the given positions, in their order. */
  function KindsAt(b: map<(int, int), BonusKind>, placed: seq<(int, int)>): (r: seq<BonusKind>)
    requires forall i :: 0 <= i < |placed| ==> placed[i] in b
    ensures |r| == |placed|
    ensures forall i :: 0 <= i < |placed| ==> r[i] == b[placed[i]]
  {
    seq(|placed|, i requires 0 <= i < |placed| => b[placed[i]])
  }

  /** The recorded kinds at a layout's positions are the kinds laid, in order. */
  lemma KindsAtRecord(m: map<(int, int), BonusKind>, placed: seq<(int, int)>, kinds: seq<BonusKind>)
    requires |placed| == |kinds| && RecordsFresh(m, placed, kinds)
    ensures KindsAt(Record(m, placed, kinds), placed) == kinds
  {
    var ks := KindsAt(Record(m, placed, kinds), placed);
    forall i | 0 <= i < |ks| ensures ks[i] == kinds[i] {
    }
  }

  /** A complete layout for n players adds |Schedule(n)| distinct bonuses:
      ceil(1.5 n) exchange, ceil(0.5 n) stone and n steal bonuses. */
  lemma BonusLayoutComplete(m: map<(int, int), BonusKind>, placed: seq<(int, int)>, n: int,
                            grid: seq<seq<char>>, rows: int, cols: int)
    requires |placed| == |Schedule(n)| && LaidOut(m, placed, Schedule(n), grid, rows, cols)
    ensures forall i, j :: 0 <= i < j < |placed| ==> placed[i] != placed[j]
    ensures forall i :: 0 <= i < |placed| ==> placed[i] !in m
    ensures Record(m, placed, Schedule(n)).Keys == m.Keys + (set p | p in placed)
    ensures multiset(KindsAt(Record(m, placed, Schedule(n)), placed))[Exchange] == ExchangeCount(n)
    ensures multiset(KindsAt(Record(m, placed, Schedule(n)), placed))[Stone] == StoneCount(n)
    ensures multiset(KindsAt(Record(m, placed, Schedule(n)), placed))[Steal] == StealCount(n)
  {
    RecordLaidOut(m, placed, Schedule(n), grid, rows, cols);
    KindsAtRecord(m, placed, Schedule(n));
    ScheduleCounts(n);
  }
}
