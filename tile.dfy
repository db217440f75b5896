/** A tile: an identifier, a colour and a shape held in normal form. The
    geometric operations (normalise, quarter turn, mirror, footprint) are written
    as the loops of the implementation and proved against the functions of
    Geometry. */
module Tiles {
  import opened Geometry

  /** The cells after one quarter turn, renormalised. */
  function Rotated(c: seq<Cell>): seq<Cell> {
    Normalize(Turn(c))
  }

  /** The cells after one mirror, renormalised. */
  function Flipped(c: seq<Cell>): seq<Cell> {
    Normalize(Mirror(c))
  }

  /** k successive quarter turns, each followed by renormalisation. */
  function RotateTimes(c: seq<Cell>, k: nat): seq<Cell> {
    if k == 0 then c else Rotated(RotateTimes(c, k - 1))
  }

  /** The C++ remainder a % 4, which truncates toward zero: its sign follows a. */
  function CRem4(a: int): (r: int)
    ensures -4 < r < 4
    ensures a >= 0 ==> r >= 0
    ensures a <= 0 ==> r <= 0
    ensures (a - r) % 4 == 0
  {
    if a >= 0 then a % 4 else -((-a) % 4)
  }

  /** The rotation count as the footprint computes it: ((r % 4) + 4) % 4. */
  function QuarterTurns(r: int): nat {
    var q := CRem4(CRem4(r) + 4);
    q
  }

  /** The shape a footprint lays down before translation: the flip (if any)
      first, then the rotations. */
  function Oriented(c: seq<Cell>, rotations: int, flipped: bool): seq<Cell> {
    RotateTimes(if flipped then Flipped(c) else c, QuarterTurns(rotations))
  }

  datatype Tile = Tile(id: string, cells: seq<Cell>, color: string)
  {
    /** The shape is kept in normal form. */
    ghost predicate Valid() {
      IsNormal(cells)
    }

    /** One past the largest x and the largest y of the shape; (0, 0) for no cells. */
    function BoxLimit(): (r: (int, int))
      ensures cells == [] ==> r == (0, 0)
      ensures forall c :: c in cells ==> c.x < r.0 && c.y < r.1
      ensures cells != [] ==> exists c :: c in cells && c.x + 1 == r.0
      ensures cells != [] ==> exists c :: c in cells && c.y + 1 == r.1
    {
      if cells == [] then (0, 0)
      else
        MaxXAttained(cells);
        MaxYAttained(cells);
        (MaxX(cells) + 1, MaxY(cells) + 1)
    }

    /** Same number of cells and the same cell at every position. */
    predicate ShapeEquals(other: Tile)
      ensures ShapeEquals(other) <==> cells == other.cells
    {
      |cells| == |other.cells| && forall i :: 0 <= i < |cells| ==> cells[i] == other.cells[i]
    }

    /** The quarter turn: every cell (x, y) becomes (y, -x), then the list is
        renormalised and swapped in. */
    method Rotate() returns (t: Tile)
      ensures t == this.(cells := Rotated(cells))
      ensures t.Valid()
    {
      var out: seq<Cell> := [];
      var i := 0;
      while i < |cells|
        invariant 0 <= i <= |cells|
        invariant out == Turn(cells[..i])
      {
        out := out + [Cell(cells[i].y, -cells[i].x)];
        i := i + 1;
      }
      assert cells[..i] == cells;
      out := NormalizeCells(out);
      NormalizeIsNormal(Turn(cells));
      t := this.(cells := out);
    }

    /** The mirror: every cell (x, y) becomes (-x, y), then the list is
        renormalised and swapped in. */
    method Flip() returns (t: Tile)
      ensures t == this.(cells := Flipped(cells))
      ensures t.Valid()
    {
      var out: seq<Cell> := [];
      var i := 0;
      while i < |cells|
        invariant 0 <= i <= |cells|
        invariant out == Mirror(cells[..i])
      {
        out := out + [Cell(-cells[i].x, cells[i].y)];
        i := i + 1;
      }
      assert cells[..i] == cells;
      out := NormalizeCells(out);
      NormalizeIsNormal(Mirror(cells));
      t := this.(cells := out);
    }

    /** The board cells the tile covers when laid with its origin at
        (originX, originY), turned `rotations` quarter turns and optionally
        flipped; the tile itself is left as it is. */
    method Footprint(originX: int, originY: int, rotations: int, flipped: bool)
      returns (pts: seq<Cell>)
      ensures pts == Shift(Oriented(cells, rotations, flipped), Offset(originX, originY))
    {
      pts := cells;
      if flipped {
        pts := NegateX(pts);
        pts := NormalizeCells(pts);
      }
      ghost var base := pts;
      var turns := QuarterTurns(rotations);
      var k := 0;
      while k < turns
        invariant 0 <= k <= turns
        invariant pts == RotateTimes(base, k)
      {
        pts := TurnEach(pts);
        pts := NormalizeCells(pts);
        k := k + 1;
      }
      pts := Translate(pts, originX, originY);
    }
  }

  /** Builds a tile; the cells are normalised on the way in. */
  method NewTile(id: string, cells: seq<Cell>, color: string) returns (t: Tile)
    ensures t == Tile(id, Normalize(cells), color)
    ensures t.Valid()
  {
    var c := NormalizeCells(cells);
    NormalizeIsNormal(cells);
    t := Tile(id, c, color);
  }

  /** Normalises a cell list: finds the minimum x and y, moves every cell by
      their negation, then sorts the list and drops repeated cells. */
  method NormalizeCells(pts: seq<Cell>) returns (r: seq<Cell>)
    ensures r == Normalize(pts)
  {
    if |pts| == 0 {
      return pts;
    }
    var minX, minY := LowestCorner(pts);
    var out := Translate(pts, -minX, -minY);
    assert Offset(-minX, -minY) == Lowering(pts);
    assert out == Shift(pts, Lowering(pts));
    r := SortDedup(out);
    assert Normalize(pts) == SortUnique(Shift(pts, Lowering(pts)));
  }

  /** The smallest x and the smallest y of a non-empty list, in one scan. */
  method LowestCorner(pts: seq<Cell>) returns (minX: int, minY: int)
    requires pts != []
    ensures minX == MinX(pts) && minY == MinY(pts)
  {
    minX, minY := pts[0].x, pts[0].y;
    ghost var wx, wy := 0, 0;
    var i := 0;
    while i < |pts|
      invariant 0 <= i <= |pts|
      invariant 0 <= wx < |pts| && pts[wx].x == minX
      invariant 0 <= wy < |pts| && pts[wy].y == minY
      invariant forall j :: 0 <= j < i ==> minX <= pts[j].x && minY <= pts[j].y
    {
      if pts[i].x < minX {
        minX := pts[i].x;
        wx := i;
      }
      if pts[i].y < minY {
        minY := pts[i].y;
        wy := i;
      }
      i := i + 1;
    }
    LeastIsMinX(pts, minX, wx);
    LeastIsMinY(pts, minY, wy);
  }

  /** Adds (dx, dy) to every cell, in place. */
  method Translate(pts: seq<Cell>, dx: int, dy: int) returns (out: seq<Cell>)
    ensures out == Shift(pts, Offset(dx, dy))
  {
    out := pts;
    var i := 0;
    while i < |out|
      invariant 0 <= i <= |out| == |pts|
      invariant forall j :: 0 <= j < i ==> out[j] == Moved(pts[j], Offset(dx, dy))
      invariant forall j :: i <= j < |out| ==> out[j] == pts[j]
    {
      out := out[i := Cell(out[i].x + dx, out[i].y + dy)];
      i := i + 1;
    }
  }

  /** Negates the x of every cell, in place. */
  method NegateX(pts: seq<Cell>) returns (out: seq<Cell>)
    ensures out == Mirror(pts)
  {
    out := pts;
    var i := 0;
    while i < |out|
      invariant 0 <= i <= |out| == |pts|
      invariant forall j :: 0 <= j < i ==> out[j] == Cell(-pts[j].x, pts[j].y)
      invariant forall j :: i <= j < |out| ==> out[j] == pts[j]
    {
      out := out[i := Cell(-out[i].x, out[i].y)];
      i := i + 1;
    }
  }

  /** Replaces every cell (x, y) by (y, -x), in place. */
  method TurnEach(pts: seq<Cell>) returns (out: seq<Cell>)
    ensures out == Turn(pts)
  {
    out := pts;
    var i := 0;
    while i < |out|
      invariant 0 <= i <= |out| == |pts|
      invariant forall j :: 0 <= j < i ==> out[j] == Cell(pts[j].y, -pts[j].x)
      invariant forall j :: i <= j < |out| ==> out[j] == pts[j]
    {
      out := out[i := Cell(out[i].y, -out[i].x)];
      i := i + 1;
    }
  }

  /** Sorts the cells and removes repeats (std::sort then std::unique and erase). */
  method SortDedup(pts: seq<Cell>) returns (r: seq<Cell>)
    ensures r == SortUnique(pts)
  {
    r := [];
    var i := 0;
    while i < |pts|
      invariant 0 <= i <= |pts|
      invariant r == SortUnique(pts[..i])
    {
      assert pts[..i + 1][..i] == pts[..i];
      r := Insert(r, pts[i]);
      i := i + 1;
    }
    assert pts[..i] == pts;
  }

  /** A value that bounds every x from below and is attained is the minimum x. */
  lemma LeastIsMinX(s: seq<Cell>, m: int, w: nat)
    requires w < |s| && s[w].x == m
    requires forall j :: 0 <= j < |s| ==> m <= s[j].x
    ensures m == MinX(s)
  {
    var c := MinXAttained(s);
    assert s[w] in s;
  }

  /** A value that bounds every y from below and is attained is the minimum y. */
  lemma LeastIsMinY(s: seq<Cell>, m: int, w: nat)
    requires w < |s| && s[w].y == m
    requires forall j :: 0 <= j < |s| ==> m <= s[j].y
    ensures m == MinY(s)
  {
    var c := MinYAttained(s);
    assert s[w] in s;
  }

  lemma {:induction false} MaxXAttained(s: seq<Cell>)
    requires s != []
    ensures exists c :: c in s && c.x == MaxX(s)
  {
    if |s| > 1 && s[0].x < MaxX(s[1..]) {
      MaxXAttained(s[1..]);
      var c :| c in s[1..] && c.x == MaxX(s[1..]);
      assert c in s;
    } else {
      assert s[0] in s;
    }
  }

  lemma {:induction false} MaxYAttained(s: seq<Cell>)
    requires s != []
    ensures exists c :: c in s && c.y == MaxY(s)
  {
    if |s| > 1 && s[0].y < MaxY(s[1..]) {
      MaxYAttained(s[1..]);
      var c :| c in s[1..] && c.y == MaxY(s[1..]);
      assert c in s;
    } else {
      assert s[0] in s;
    }
  }

  // Closure properties of the shape operations.

  /** Four plain quarter turns are the identity. */
  lemma TurnTimesFour(c: seq<Cell>)
    ensures TurnTimes(c, 4) == c
  {
    assert TurnTimes(c, 0) == c;
    var t1 := TurnTimes(c, 1);
    assert t1 == Turn(c);
    var t2 := TurnTimes(c, 2);
    assert t2 == Turn(t1);
    var t3 := TurnTimes(c, 3);
    assert t3 == Turn(t2);
    assert TurnTimes(c, 4) == Turn(t3);
    assert Turn(t3) == c;
  }

  lemma MirrorTwice(c: seq<Cell>)
    ensures Mirror(Mirror(c)) == c
  {
  }

  /** Renormalising between turns changes nothing: k renormalised turns are one
      normalisation of k plain turns. */
  lemma {:induction false} RotateTimesPlain(c: seq<Cell>, k: nat)
    requires k > 0
    ensures RotateTimes(c, k) == Normalize(TurnTimes(c, k))
  {
    if k == 1 {
      assert RotateTimes(c, 0) == c && TurnTimes(c, 0) == c;
    } else {
      var prev := TurnTimes(c, k - 1);
      RotateTimesPlain(c, k - 1);
      assert RotateTimes(c, k) == Rotated(Normalize(prev));
      NormalizeTurnNormalize(prev);
      assert TurnTimes(c, k) == Turn(prev);
    }
  }

  function TurnTimes(c: seq<Cell>, k: nat): seq<Cell> {
    if k == 0 then c else Turn(TurnTimes(c, k - 1))
  }

  /** Four quarter turns give back a shape in normal form. */
  lemma RotateFourTimes(c: seq<Cell>)
    requires IsNormal(c)
    ensures RotateTimes(c, 4) == c
  {
    TurnTimesFour(c);
    NormalizeOfNormal(c);
    RotateTimesPlain(c, 4);
  }

  /** Two flips give back a shape in normal form. */
  lemma FlipTwice(c: seq<Cell>)
    requires IsNormal(c)
    ensures Flipped(Flipped(c)) == c
  {
    NormalizeMirrorNormalize(Mirror(c));
    MirrorTwice(c);
    NormalizeOfNormal(c);
  }

  /** A quarter turn keeps the number of cells of a shape in normal form. */
  lemma RotateKeepsCount(c: seq<Cell>)
    requires IsNormal(c)
    ensures |Rotated(c)| == |c|
  {
    StrictlyAscendingIsDistinct(c);
    DistinctTurn(c);
    NormalizeLength(Turn(c));
  }

  /** A flip keeps the number of cells of a shape in normal form. */
  lemma FlipKeepsCount(c: seq<Cell>)
    requires IsNormal(c)
    ensures |Flipped(c)| == |c|
  {
    StrictlyAscendingIsDistinct(c);
    DistinctMirror(c);
    NormalizeLength(Mirror(c));
  }

  /** The rotation count of a footprint is the floor remainder of r by 4, so
      -1 turns behave as 3 and 5 as 1. */
  lemma QuarterTurnsIsFloorMod(r: int)
    ensures QuarterTurns(r) == r % 4
  {
  }

  /** A footprint with no turn and no flip is the shape moved to the origin. */
  lemma FootprintPlain(c: seq<Cell>, ox: int, oy: int)
    ensures Shift(Oriented(c, 0, false), Offset(ox, oy)) == Shift(c, Offset(ox, oy))
  {
  }

  /** Any rotation count gives the footprint of its floor remainder by 4. */
  lemma FootprintFloorMod(c: seq<Cell>, r: int, flipped: bool)
    ensures Oriented(c, r, flipped) == Oriented(c, r % 4, flipped)
  {
    QuarterTurnsIsFloorMod(r);
    QuarterTurnsIsFloorMod(r % 4);
    assert QuarterTurns(r) == QuarterTurns(r % 4);
  }

  /** A count of -1 turns the tile three quarter turns. */
  lemma FootprintMinusOne(c: seq<Cell>, flipped: bool)
    ensures Oriented(c, -1, flipped) == Oriented(c, 3, flipped)
  {
    FootprintFloorMod(c, -1, flipped);
  }

  /** Two shapes in normal form that are translates of each other are equal, so
      shape equality of normalised tiles is equality up to translation. */
  lemma ShapeEqualsUpToTranslation(a: Tile, b: Tile, o: Offset)
    requires a.Valid() && b.Valid()
    requires ShiftedOf(a.cells, b.cells, o)
    ensures a.ShapeEquals(b)
  {
    NormalizeShiftInvariant(a.cells, b.cells, o);
    NormalizeOfNormal(a.cells);
    NormalizeOfNormal(b.cells);
  }
}
