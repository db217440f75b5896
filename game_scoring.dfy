/** End-of-game scoring: for every player the number of cells owned and the
    side of the largest square made only of owned cells, then the ranking by
    square side and, on a tie, by cell count. */
module GameScoring {
  import opened Wrappers
  import opened Players

  /** The final record of one player. */
  datatype FinalScore = FinalScore(playerId: int, maxSquare: int, cellCount: int)

  /** The owner grid is rows x cols. */
  predicate Shaped(owner: seq<seq<int>>, rows: int, cols: int) {
    |owner| == rows && forall i :: 0 <= i < rows ==> |owner[i]| == cols
  }

  // ------------------------------------------------------------ cell counts

  /** Cells of row among the first n that belong to id. */
  function CountRow(row: seq<int>, id: int, n: nat): nat
    requires n <= |row|
  {
    if n == 0 then 0 else CountRow(row, id, n - 1) + (if row[n - 1] == id then 1 else 0)
  }

  /** Cells of the first m rows that belong to id. */
  function CountRows(owner: seq<seq<int>>, id: int, m: nat): nat
    requires m <= |owner|
  {
    if m == 0 then 0 else CountRows(owner, id, m - 1) + CountRow(owner[m - 1], id, |owner[m - 1]|)
  }

  function CountOwned(owner: seq<seq<int>>, id: int): nat {
    CountRows(owner, id, |owner|)
  }

  /** Positions (row, column) in the first m rows owned by id. */
  ghost function OwnedCells(owner: seq<seq<int>>, id: int, m: nat): set<(int, int)>
    requires m <= |owner|
  {
    set y, x | 0 <= y < m && 0 <= x < |owner[y]| && owner[y][x] == id :: (y, x)
  }

  /** Positions in row y among its first n owned by id. */
  ghost function OwnedInRow(owner: seq<seq<int>>, id: int, y: nat, n: nat): set<(int, int)>
    requires y < |owner| && n <= |owner[y]|
  {
    set x | 0 <= x < n && owner[y][x] == id :: (y, x)
  }

  lemma {:induction false} CountRowIsCard(owner: seq<seq<int>>, id: int, y: nat, n: nat)
    requires y < |owner| && n <= |owner[y]|
    ensures CountRow(owner[y], id, n) == |OwnedInRow(owner, id, y, n)|
  {
    if n > 0 {
      CountRowIsCard(owner, id, y, n - 1);
      if owner[y][n - 1] == id {
        assert OwnedInRow(owner, id, y, n) == OwnedInRow(owner, id, y, n - 1) + {(y, n - 1)};
      } else {
        assert OwnedInRow(owner, id, y, n) == OwnedInRow(owner, id, y, n - 1);
      }
    }
  }

  /** The count is the number of owned positions. */
  lemma {:induction false} CountRowsIsCard(owner: seq<seq<int>>, id: int, m: nat)
    requires m <= |owner|
    ensures CountRows(owner, id, m) == |OwnedCells(owner, id, m)|
  {
    if m > 0 {
      CountRowsIsCard(owner, id, m - 1);
      CountRowIsCard(owner, id, m - 1, |owner[m - 1]|);
      var prev, row := OwnedCells(owner, id, m - 1), OwnedInRow(owner, id, m - 1, |owner[m - 1]|);
      assert OwnedCells(owner, id, m) == prev + row;
      assert prev * row == {};
    }
  }

  // --------------------------------------------------------------- squares

  /** The k x k square whose bottom-right cell is (row y, column x) lies on the
      grid and belongs entirely to id (k = 0 is the empty square). */
  ghost predicate Square(owner: seq<seq<int>>, rows: int, cols: int, id: int, y: int, x: int, k: int)
    requires Shaped(owner, rows, cols) && 0 <= y < rows && 0 <= x < cols
  {
    0 <= k <= y + 1 && k <= x + 1 &&
    forall r, c :: y - k < r <= y && x - k < c <= x ==> owner[r][c] == id
  }

  /** d is the side of the largest square of id ending at (y, x). */
  ghost predicate Largest(owner: seq<seq<int>>, rows: int, cols: int, id: int, y: int, x: int, d: int)
    requires Shaped(owner, rows, cols) && 0 <= y < rows && 0 <= x < cols
  {
    Square(owner, rows, cols, id, y, x, d) &&
    forall k :: Square(owner, rows, cols, id, y, x, k) ==> k <= d
  }

  /** m is the side of the largest square of id anywhere on the grid, 0 when id
      owns nothing. */
  ghost predicate MaxSquareOf(owner: seq<seq<int>>, rows: int, cols: int, id: int, m: int)
    requires Shaped(owner, rows, cols)
  {
    m >= 0 &&
    (forall y, x, k :: 0 <= y < rows && 0 <= x < cols && Square(owner, rows, cols, id, y, x, k) ==> k <= m) &&
    (m == 0 || exists y, x :: 0 <= y < rows && 0 <= x < cols && Square(owner, rows, cols, id, y, x, m))
  }

  function Min3(a: int, b: int, c: int): (m: int)
    ensures m <= a && m <= b && m <= c && (m == a || m == b || m == c)
  {
    if a <= b && a <= c then a else if b <= c then b else c
  }

  /** A cell not owned by id ends no square but the empty one. */
  lemma DpUnowned(owner: seq<seq<int>>, rows: int, cols: int, id: int, y: int, x: int)
    requires Shaped(owner, rows, cols) && 0 <= y < rows && 0 <= x < cols
    requires owner[y][x] != id
    ensures Largest(owner, rows, cols, id, y, x, 0)
  {
    forall k | Square(owner, rows, cols, id, y, x, k) ensures k <= 0 {
      assert owner[y][x] == id || k <= 0;
    }
  }

  /** An owned cell on the top row or the left column ends a square of side 1
      only. */
  lemma DpBorder(owner: seq<seq<int>>, rows: int, cols: int, id: int, y: int, x: int)
    requires Shaped(owner, rows, cols) && 0 <= y < rows && 0 <= x < cols
    requires owner[y][x] == id && (x == 0 || y == 0)
    ensures Largest(owner, rows, cols, id, y, x, 1)
  {
  }

  /** The recurrence: an owned inner cell ends a square one larger than the
      smallest of the squares ending above it, left of it and diagonally
      above-left of it. */
  lemma DpStep(owner: seq<seq<int>>, rows: int, cols: int, id: int, y: int, x: int,
               up: int, left: int, diag: int)
    requires Shaped(owner, rows, cols) && 0 < y < rows && 0 < x < cols
    requires owner[y][x] == id
    requires Largest(owner, rows, cols, id, y - 1, x, up)
    requires Largest(owner, rows, cols, id, y, x - 1, left)
    requires Largest(owner, rows, cols, id, y - 1, x - 1, diag)
    ensures Largest(owner, rows, cols, id, y, x, 1 + Min3(up, left, diag))
  {
    var m := Min3(up, left, diag);
    forall r, c | y - (m + 1) < r <= y && x - (m + 1) < c <= x ensures owner[r][c] == id {
      if r < y && c < x {
        assert (y - 1) - diag < r && (x - 1) - diag < c;
      } else if r < y {
        assert (y - 1) - up < r && x - up < c;
      } else if c < x {
        assert y - left < r && (x - 1) - left < c;
      }
    }
    assert Square(owner, rows, cols, id, y, x, m + 1);
    forall k | Square(owner, rows, cols, id, y, x, k) ensures k <= m + 1 {
      if k >= 2 {
        assert Square(owner, rows, cols, id, y - 1, x, k - 1);
        assert Square(owner, rows, cols, id, y, x - 1, k - 1);
        assert Square(owner, rows, cols, id, y - 1, x - 1, k - 1);
      }
    }
  }

  /** The score of one player: cells owned and the largest owned square,
      found by the dynamic program that stores in dp[y, x] the side of the
      largest owned square ending at (y, x). */
  method ScorePlayer(owner: seq<seq<int>>, rows: nat, cols: nat, id: int) returns (s: FinalScore)
    requires Shaped(owner, rows, cols)
    ensures s.playerId == id
    ensures s.cellCount == CountOwned(owner, id)
    ensures MaxSquareOf(owner, rows, cols, id, s.maxSquare)
  {
    var dp := new int[rows, cols]((_, _) => 0);
    var totalCells, maxSquare := 0, 0;
    ghost var wy, wx := 0, 0;
    for y := 0 to rows
      invariant totalCells == CountRows(owner, id, y)
      invariant maxSquare >= 0
      invariant maxSquare > 0 ==> 0 <= wy < rows && 0 <= wx < cols &&
                                  Square(owner, rows, cols, id, wy, wx, maxSquare)
      invariant forall y', x' :: 0 <= y' < y && 0 <= x' < cols ==>
                  Largest(owner, rows, cols, id, y', x', dp[y', x']) && dp[y', x'] <= maxSquare
      invariant forall y', x' :: y <= y' < rows && 0 <= x' < cols ==> dp[y', x'] == 0
    {
      for x := 0 to cols
        invariant totalCells == CountRows(owner, id, y) + CountRow(owner[y], id, x)
        invariant maxSquare >= 0
        invariant maxSquare > 0 ==> 0 <= wy < rows && 0 <= wx < cols &&
                                    Square(owner, rows, cols, id, wy, wx, maxSquare)
        invariant forall y', x' :: 0 <= y' < y && 0 <= x' < cols ==>
                    Largest(owner, rows, cols, id, y', x', dp[y', x']) && dp[y', x'] <= maxSquare
        invariant forall x' :: 0 <= x' < x ==>
                    Largest(owner, rows, cols, id, y, x', dp[y, x']) && dp[y, x'] <= maxSquare
        invariant forall x' :: x <= x' < cols ==> dp[y, x'] == 0
        invariant forall y', x' :: y < y' < rows && 0 <= x' < cols ==> dp[y', x'] == 0
      {
        if owner[y][x] == id {
          totalCells := totalCells + 1;
          if x > 0 && y > 0 {
            DpStep(owner, rows, cols, id, y, x, dp[y - 1, x], dp[y, x - 1], dp[y - 1, x - 1]);
            dp[y, x] := 1 + Min3(dp[y - 1, x], dp[y, x - 1], dp[y - 1, x - 1]);
          } else {
            DpBorder(owner, rows, cols, id, y, x);
            dp[y, x] := 1;
          }
          if dp[y, x] > maxSquare {
            maxSquare := dp[y, x];
            wy, wx := y, x;
          }
        } else {
          DpUnowned(owner, rows, cols, id, y, x);
        }
      }
    }
    forall y, x, k | 0 <= y < rows && 0 <= x < cols && Square(owner, rows, cols, id, y, x, k)
      ensures k <= maxSquare
    {
      assert Largest(owner, rows, cols, id, y, x, dp[y, x]);
    }
    s := FinalScore(id, maxSquare, totalCells);
  }

  /** One record per player, in the order of the players. */
  method ComputeScores(owner: seq<seq<int>>, rows: nat, cols: nat, players: seq<Player>)
    returns (results: seq<FinalScore>)
    requires Shaped(owner, rows, cols)
    ensures |results| == |players|
    ensures forall i :: 0 <= i < |players| ==>
              results[i].playerId == players[i].id &&
              results[i].cellCount == CountOwned(owner, players[i].id) &&
              MaxSquareOf(owner, rows, cols, players[i].id, results[i].maxSquare)
  {
    results := [];
    for i := 0 to |players|
      invariant |results| == i
      invariant forall j :: 0 <= j < i ==>
                  results[j].playerId == players[j].id &&
                  results[j].cellCount == CountOwned(owner, players[j].id) &&
                  MaxSquareOf(owner, rows, cols, players[j].id, results[j].maxSquare)
    {
      var s := ScorePlayer(owner, rows, cols, players[i].GetID());
      results := results + [s];
    }
  }

  // ---------------------------------------------------------------- ranking

  /** a ranks strictly before b: larger square first, then more cells, so
      the pair (side, cells) of a is lexicographically larger. */
  predicate ScoreBefore(a: FinalScore, b: FinalScore): (r: bool)
    ensures r <==> a.maxSquare > b.maxSquare || (a.maxSquare == b.maxSquare && a.cellCount > b.cellCount)
  {
    if a.maxSquare != b.maxSquare then a.maxSquare > b.maxSquare else a.cellCount > b.cellCount
  }

  /** The comparator is a strict weak order, as sorting requires: irreflexive,
      transitive, and two records are unordered exactly when they tie on both
      keys. */
  lemma ScoreBeforeIsStrictWeakOrder(a: FinalScore, b: FinalScore, c: FinalScore)
    ensures !ScoreBefore(a, a)
    ensures ScoreBefore(a, b) && ScoreBefore(b, c) ==> ScoreBefore(a, c)
    ensures !ScoreBefore(a, b) && !ScoreBefore(b, a) <==>
              a.maxSquare == b.maxSquare && a.cellCount == b.cellCount
  {
  }

  /** No record ranks strictly before an earlier one. */
  predicate Ranked(s: seq<FinalScore>) {
    forall i, j :: 0 <= i < j < |s| ==> !ScoreBefore(s[j], s[i])
  }

  /** Inserts a record into a ranked list after every record that does not
      rank after it. */
  function InsertScore(s: seq<FinalScore>, x: FinalScore): (r: seq<FinalScore>)
    requires Ranked(s)
    ensures Ranked(r)
    ensures multiset(r) == multiset(s) + multiset{x}
  {
    if s == [] then [x]
    else if ScoreBefore(x, s[0]) then
      NoneBeforeNewHead(s, x);
      [x] + s
    else
      var t := InsertScore(s[1..], x);
      assert s == [s[0]] + s[1..];
      NoneBeforeOldHead(s, x, t);
      RankedCons(s[0], t);
      [s[0]] + t
  }

  /** A record that ranks before the head of a ranked list ranks before, or
      ties with, all of it. */
  lemma NoneBeforeNewHead(s: seq<FinalScore>, x: FinalScore)
    requires Ranked(s) && s != [] && ScoreBefore(x, s[0])
    ensures forall j :: 0 <= j < |s| ==> !ScoreBefore(s[j], x)
    ensures Ranked([x] + s)
  {
    forall j | 0 <= j < |s| ensures !ScoreBefore(s[j], x) {
      assert !ScoreBefore(s[j], s[0]) || j == 0;
    }
    RankedCons(x, s);
  }

  /** When x does not rank before the head, neither does anything in the tail
      with x inserted. */
  lemma NoneBeforeOldHead(s: seq<FinalScore>, x: FinalScore, t: seq<FinalScore>)
    requires Ranked(s) && s != [] && !ScoreBefore(x, s[0])
    requires multiset(t) == multiset(s[1..]) + multiset{x}
    ensures forall k :: 0 <= k < |t| ==> !ScoreBefore(t[k], s[0])
  {
    forall k | 0 <= k < |t| ensures !ScoreBefore(t[k], s[0]) {
      assert t[k] in multiset(t);
      if t[k] != x {
        assert t[k] in multiset(s[1..]);
        var j :| 0 <= j < |s[1..]| && s[1..][j] == t[k];
        assert s[j + 1] == t[k];
      }
    }
  }

  /** A head that no element of a ranked tail ranks before makes a ranked
      list. */
  lemma RankedCons(h: FinalScore, t: seq<FinalScore>)
    requires Ranked(t) && forall k :: 0 <= k < |t| ==> !ScoreBefore(t[k], h)
    ensures Ranked([h] + t)
  {
    var r := [h] + t;
    forall i, j | 0 <= i < j < |r| ensures !ScoreBefore(r[j], r[i]) {
      assert r[j] == t[j - 1];
      if i > 0 {
        assert r[i] == t[i - 1];
      }
    }
  }

  /** The order in which the results are printed: ranked, and a permutation of
      the scores. */
  method RankScores(scores: seq<FinalScore>) returns (sorted: seq<FinalScore>)
    ensures Ranked(sorted)
    ensures multiset(sorted) == multiset(scores)
  {
    sorted := [];
    for i := 0 to |scores|
      invariant Ranked(sorted)
      invariant multiset(sorted) == multiset(scores[..i])
    {
      assert scores[..i + 1] == scores[..i] + [scores[i]];
      sorted := InsertScore(sorted, scores[i]);
    }
    assert scores[..|scores|] == scores;
  }

  /** The first ranked record has the largest square, and the most cells among
      the records with that square. */
  lemma WinnerIsBest(scores: seq<FinalScore>, sorted: seq<FinalScore>)
    requires Ranked(sorted) && multiset(sorted) == multiset(scores) && scores != []
    ensures sorted != []
    ensures forall s :: s in scores ==>
              s.maxSquare < sorted[0].maxSquare ||
              (s.maxSquare == sorted[0].maxSquare && s.cellCount <= sorted[0].cellCount)
  {
    assert |sorted| == |multiset(sorted)| == |multiset(scores)| == |scores|;
    forall s | s in scores
      ensures s.maxSquare < sorted[0].maxSquare ||
              (s.maxSquare == sorted[0].maxSquare && s.cellCount <= sorted[0].cellCount)
    {
      assert s in multiset(scores);
      assert s in multiset(sorted);
      var j :| 0 <= j < |sorted| && sorted[j] == s;
      if j > 0 {
        assert !ScoreBefore(sorted[j], sorted[0]);
      }
    }
  }

  // ------------------------------------------------------ seat of a player

  /** The seats in the order the players are created: seat j holds id j + 1. */
  function Unshuffled(n: nat): (ids: seq<int>)
    ensures |ids| == n && forall j :: 0 <= j < n ==> ids[j] == j + 1
  {
    seq(n, j => j + 1)
  }

  /** The seat the results printer reads for a player id: id - 1, which is the
      seat of that id as long as the players keep the order they were created
      in. */
  function SeatAsWritten(id: int): (r: int)
    ensures forall n: nat :: 1 <= id <= n ==> 0 <= r < |Unshuffled(n)| && Unshuffled(n)[r] == id
  {
    id - 1
  }

  /** Once the seating order is shuffled, seat id - 1 may hold somebody else:
      with ids seated as [2, 1], the winner with id 1 is printed as the player
      with id 2. */
  lemma SeatAsWrittenMisses()
    ensures var seats := [2, 1];
            multiset(seats) == multiset([1, 2]) && seats[SeatAsWritten(1)] != 1
  {
  }

  /** The seat of the player with that id, if any. */
  function SeatOf(ids: seq<int>, id: int): (r: Option<nat>)
    ensures r.Some? ==> r.value < |ids| && ids[r.value] == id &&
                        forall j :: 0 <= j < r.value ==> ids[j] != id
    ensures r.None? <==> id !in ids
  {
    if ids == [] then None
    else if ids[0] == id then Some(0)
    else
      var r := SeatOf(ids[1..], id);
      if r.Some? then Some(r.value + 1) else None
  }

  /** The seat of the winner of a non-empty ranking, found by id. */
  function WinnerSeat(ids: seq<int>, sorted: seq<FinalScore>): (r: Option<nat>)
    requires sorted != []
    ensures sorted[0].playerId in ids ==> r.Some? && r.value < |ids| && ids[r.value] == sorted[0].playerId
  {
    SeatOf(ids, sorted[0].playerId)
  }
}
