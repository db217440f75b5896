/** The tile catalogue: a stored list of tiles, looked up by id and cleaned of
    repeated shapes. Loading the list from its file is not modelled; the loaded
    list is given to the constructor. */
module Catalogue {
  import opened Wrappers
  import opened Geometry
  import opened Tiles

  /** The first tile of the list carrying that id, if any. */
  function FirstWithId(tiles: seq<Tile>, id: string): (r: Option<Tile>)
    ensures r.None? <==> forall i :: 0 <= i < |tiles| ==> tiles[i].id != id
    ensures r.Some? ==> exists i :: 0 <= i < |tiles| && tiles[i] == r.value && tiles[i].id == id &&
                                    forall j :: 0 <= j < i ==> tiles[j].id != id
  {
    if tiles == [] then None
    else if tiles[0].id == id then Some(tiles[0])
    else
      var r := FirstWithId(tiles[1..], id);
      if r.Some? then
        var i :| 0 <= i < |tiles[1..]| && tiles[1..][i] == r.value && tiles[1..][i].id == id &&
                 forall j :: 0 <= j < i ==> tiles[1..][j].id != id;
        assert tiles[i + 1] == r.value;
        r
      else r
  }

  /** Some tile of the list has the shape of t. */
  predicate HasShape(us: seq<Tile>, t: Tile) {
    exists k :: 0 <= k < |us| && us[k].ShapeEquals(t)
  }

  /** The outcome of the nested loops of the shape clean-up: tiles are taken in
      order and a tile is kept unless an already kept tile has its shape. */
  function Dedup(ts: seq<Tile>): seq<Tile> {
    if ts == [] then []
    else
      var d := Dedup(ts[..|ts| - 1]);
      if HasShape(d, ts[|ts| - 1]) then d else d + [ts[|ts| - 1]]
  }

  /** No earlier tile of the list has the shape of tile i. */
  predicate FirstOfShape(ts: seq<Tile>, i: int)
    requires 0 <= i < |ts|
  {
    forall j :: 0 <= j < i ==> ts[j].cells != ts[i].cells
  }

  /** Reference definition: the tiles among the first n that are the first of
      their shape, in their original order. */
  function FirstOccurrences(ts: seq<Tile>, n: nat): seq<Tile>
    requires n <= |ts|
  {
    if n == 0 then []
    else FirstOccurrences(ts, n - 1) + (if FirstOfShape(ts, n - 1) then [ts[n - 1]] else [])
  }

  /** No two tiles of the list have the same shape. */
  predicate ShapesDistinct(us: seq<Tile>) {
    forall i, j :: 0 <= i < j < |us| ==> !us[i].ShapeEquals(us[j])
  }

  class InitTiles {
    var tiles: seq<Tile>

    /** An empty catalogue. */
    constructor ()
      ensures tiles == []
    {
      tiles := [];
    }

    /** A catalogue holding the loaded tiles. */
    constructor Loaded(ts: seq<Tile>)
      ensures tiles == ts
    {
      tiles := ts;
    }

    /** The stored tiles, as they are. */
    function All(): (r: seq<Tile>)
      reads this
      ensures |r| == |tiles| && forall i :: 0 <= i < |r| ==> r[i] == tiles[i]
    {
      tiles
    }

    /** Linear search for the first tile with that id. */
    method ById(id: string) returns (r: Option<Tile>)
      ensures r == FirstWithId(tiles, id)
    {
      var i := 0;
      while i < |tiles|
        invariant 0 <= i <= |tiles|
        invariant FirstWithId(tiles, id) == FirstWithId(tiles[i..], id)
      {
        if tiles[i].id == id {
          return Some(tiles[i]);
        }
        assert tiles[i..][1..] == tiles[i + 1..];
        i := i + 1;
      }
      return None;
    }

    /** Keeps the first tile of every shape, in order, and drops the others. */
    method DeduplicateByShape()
      modifies this
      ensures tiles == Dedup(old(tiles))
    {
      var unique: seq<Tile> := [];
      var i := 0;
      while i < |tiles|
        invariant 0 <= i <= |tiles|
        invariant tiles == old(tiles)
        invariant unique == Dedup(tiles[..i])
      {
        var t := tiles[i];
        var already := false;
        var j := 0;
        while j < |unique| && !already
          invariant 0 <= j <= |unique|
          invariant already <==> exists k :: 0 <= k < j && unique[k].ShapeEquals(t)
        {
          if t.ShapeEquals(unique[j]) {
            already := true;
          }
          j := j + 1;
        }
        assert already <==> HasShape(unique, t);
        assert tiles[..i + 1][..i] == tiles[..i];
        if !already {
          unique := unique + [t];
        }
        i := i + 1;
      }
      assert tiles[..i] == tiles;
      tiles := unique;
    }
  }

  /** The kept tiles are the tiles of the input (in order) and carry exactly the
      shapes of the input. */
  lemma {:induction false} DedupShapes(ts: seq<Tile>)
    ensures forall k :: 0 <= k < |Dedup(ts)| ==> Dedup(ts)[k] in ts
    ensures forall c :: HasShape(Dedup(ts), c) <==> HasShape(ts, c)
  {
    if ts != [] {
      var front := ts[..|ts| - 1];
      DedupShapes(front);
      var d, t := Dedup(front), ts[|ts| - 1];
      forall c ensures HasShape(Dedup(ts), c) <==> HasShape(ts, c) {
        if HasShape(ts, c) {
          var k :| 0 <= k < |ts| && ts[k].ShapeEquals(c);
          if k < |ts| - 1 {
            assert front[k] == ts[k];
            assert HasShape(front, c);
            var m :| 0 <= m < |d| && d[m].ShapeEquals(c);
            assert Dedup(ts)[m] == d[m];
          } else if !HasShape(d, t) {
            assert Dedup(ts)[|d|] == t;
          }
        }
        if HasShape(Dedup(ts), c) {
          var k :| 0 <= k < |Dedup(ts)| && Dedup(ts)[k].ShapeEquals(c);
          if k < |d| {
            assert HasShape(d, c);
            var m :| 0 <= m < |front| && front[m].ShapeEquals(c);
            assert ts[m] == front[m];
          } else {
            assert ts[|ts| - 1] == t;
          }
        }
      }
      forall k | 0 <= k < |Dedup(ts)| ensures Dedup(ts)[k] in ts {
        if k < |d| {
          assert d[k] in front;
        }
      }
    }
  }

  /** After the clean-up no two kept tiles have the same shape. */
  lemma {:induction false} DedupDistinct(ts: seq<Tile>)
    ensures ShapesDistinct(Dedup(ts))
  {
    if ts != [] {
      var front := ts[..|ts| - 1];
      DedupDistinct(front);
      var d, t := Dedup(front), ts[|ts| - 1];
      if !HasShape(d, t) {
        forall i, j | 0 <= i < j < |d + [t]| ensures !(d + [t])[i].ShapeEquals((d + [t])[j]) {
          if j == |d| {
            assert !d[i].ShapeEquals(t);
          }
        }
      }
    }
  }

  /** Every input tile has a kept tile of the same shape. */
  lemma DedupCovers(ts: seq<Tile>, i: nat)
    requires i < |ts|
    ensures exists k :: 0 <= k < |Dedup(ts)| && Dedup(ts)[k].ShapeEquals(ts[i])
  {
    DedupShapes(ts);
    assert ts[i].ShapeEquals(ts[i]);
    assert HasShape(ts, ts[i]);
    var k :| 0 <= k < |Dedup(ts)| && Dedup(ts)[k].ShapeEquals(ts[i]);
  }

  /** The clean-up keeps exactly the first tile of each shape, in input order. */
  lemma {:induction false} DedupIsFirstOccurrences(ts: seq<Tile>)
    ensures Dedup(ts) == FirstOccurrences(ts, |ts|)
  {
    if ts != [] {
      var n := |ts|;
      var front := ts[..n - 1];
      DedupIsFirstOccurrences(front);
      FirstOccurrencesPrefix(ts, front, n - 1);
      DedupShapes(front);
      var t := ts[n - 1];
      if HasShape(front, t) {
        var k :| 0 <= k < |front| && front[k].ShapeEquals(t);
        assert ts[k].cells == ts[n - 1].cells;
      } else {
        assert forall j :: 0 <= j < n - 1 ==> front[j] == ts[j];
      }
    }
  }

  /** The reference definition only looks at the first n tiles. */
  lemma {:induction false} FirstOccurrencesPrefix(ts: seq<Tile>, front: seq<Tile>, n: nat)
    requires n <= |front| <= |ts| && front == ts[..|front|]
    ensures FirstOccurrences(ts, n) == FirstOccurrences(front, n)
  {
    if n > 0 {
      FirstOccurrencesPrefix(ts, front, n - 1);
      assert FirstOfShape(ts, n - 1) <==> FirstOfShape(front, n - 1);
    }
  }

  /** A list whose shapes are already distinct is left as it is. */
  lemma {:induction false} DedupOfDistinct(ts: seq<Tile>)
    requires ShapesDistinct(ts)
    ensures Dedup(ts) == ts
  {
    if ts != [] {
      var front := ts[..|ts| - 1];
      assert ShapesDistinct(front);
      DedupOfDistinct(front);
      var t := ts[|ts| - 1];
      assert !HasShape(front, t);
      assert front + [t] == ts;
    }
  }

  /** Cleaning up twice is the same as cleaning up once. */
  lemma DedupIdempotent(ts: seq<Tile>)
    ensures Dedup(Dedup(ts)) == Dedup(ts)
  {
    DedupDistinct(ts);
    DedupOfDistinct(Dedup(ts));
  }
}
