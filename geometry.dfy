/** Integer cell geometry underneath the tile shapes: cells, the lexicographic
    order that std::sort uses on std::pair<int,int>, translation, the quarter turn
    (x, y) -> (y, -x), the mirror (x, y) -> (-x, y), and the normalised form of a
    cell list (translated to the origin, sorted, duplicates removed). */
module Geometry {

  datatype Cell = Cell(x: int, y: int)

  /** A translation vector. */
  datatype Offset = Offset(dx: int, dy: int)

  /** Lexicographic order on cells: first by x, then by y. */
  predicate Less(a: Cell, b: Cell) {
    a.x < b.x || (a.x == b.x && a.y < b.y)
  }

  /** Sorted and free of duplicates. */
  predicate StrictlyAscending(s: seq<Cell>) {
    forall i, j :: 0 <= i < j < |s| ==> Less(s[i], s[j])
  }

  predicate Distinct(s: seq<Cell>) {
    forall i, j :: 0 <= i < j < |s| ==> s[i] != s[j]
  }

  ghost function Elems(s: seq<Cell>): set<Cell> {
    set c | c in s
  }

  function MinX(s: seq<Cell>): (m: int)
    requires s != []
    ensures forall c :: c in s ==> m <= c.x
  {
    if |s| == 1 then s[0].x
    else
      var m' := MinX(s[1..]);
      assert forall c :: c in s ==> c == s[0] || c in s[1..];
      if s[0].x <= m' then s[0].x else m'
  }

  function MinY(s: seq<Cell>): (m: int)
    requires s != []
    ensures forall c :: c in s ==> m <= c.y
  {
    if |s| == 1 then s[0].y
    else
      var m' := MinY(s[1..]);
      assert forall c :: c in s ==> c == s[0] || c in s[1..];
      if s[0].y <= m' then s[0].y else m'
  }

  function MaxX(s: seq<Cell>): (m: int)
    requires s != []
    ensures forall c :: c in s ==> c.x <= m
  {
    if |s| == 1 then s[0].x
    else
      var m' := MaxX(s[1..]);
      assert forall c :: c in s ==> c == s[0] || c in s[1..];
      if s[0].x >= m' then s[0].x else m'
  }

  function MaxY(s: seq<Cell>): (m: int)
    requires s != []
    ensures forall c :: c in s ==> c.y <= m
  {
    if |s| == 1 then s[0].y
    else
      var m' := MaxY(s[1..]);
      assert forall c :: c in s ==> c == s[0] || c in s[1..];
      if s[0].y >= m' then s[0].y else m'
  }

  /** The cell c moved by o. */
  function Moved(c: Cell, o: Offset): Cell {
    Cell(c.x + o.dx, c.y + o.dy)
  }

  /** Every cell moved by o, in place. */
  function Shift(s: seq<Cell>, o: Offset): (r: seq<Cell>)
    ensures |r| == |s|
    ensures forall i :: 0 <= i < |s| ==> r[i] == Moved(s[i], o)
  {
    seq(|s|, i requires 0 <= i < |s| => Moved(s[i], o))
  }

  /** The quarter turn (x, y) -> (y, -x), cell by cell. */
  function Turn(s: seq<Cell>): (r: seq<Cell>)
    ensures |r| == |s|
    ensures forall i :: 0 <= i < |s| ==> r[i] == Cell(s[i].y, -s[i].x)
  {
    seq(|s|, i requires 0 <= i < |s| => Cell(s[i].y, -s[i].x))
  }

  /** The mirror (x, y) -> (-x, y), cell by cell. */
  function Mirror(s: seq<Cell>): (r: seq<Cell>)
    ensures |r| == |s|
    ensures forall i :: 0 <= i < |s| ==> r[i] == Cell(-s[i].x, s[i].y)
  {
    seq(|s|, i requires 0 <= i < |s| => Cell(-s[i].x, s[i].y))
  }

  /** r holds exactly the cells of s, each moved by o. */
  ghost predicate ShiftedOf(r: seq<Cell>, s: seq<Cell>, o: Offset) {
    Elems(r) == Elems(Shift(s, o))
  }

  /** The translation that brings the minimum x and the minimum y to 0. */
  function Lowering(s: seq<Cell>): Offset
    requires s != []
  {
    Offset(-MinX(s), -MinY(s))
  }

  /** Where a translation by o goes once both lists are quarter-turned. */
  function TurnOffset(o: Offset): Offset {
    Offset(o.dy, -o.dx)
  }

  /** Where a translation by o goes once both lists are mirrored. */
  function MirrorOffset(o: Offset): Offset {
    Offset(-o.dx, o.dy)
  }

  /** Inserts c into a strictly ascending list unless it is already there. */
  function Insert(r: seq<Cell>, c: Cell): (r': seq<Cell>)
    requires StrictlyAscending(r)
    ensures StrictlyAscending(r')
    ensures Elems(r') == Elems(r) + {c}
    ensures |r'| == if c in r then |r| else |r| + 1
  {
    if r == [] then [c]
    else if c == r[0] then r
    else if Less(c, r[0]) then [c] + r
    else
      var t := Insert(r[1..], c);
      assert Elems(r) == {r[0]} + Elems(r[1..]);
      forall d | d in t ensures Less(r[0], d) {
        assert d in Elems(t);
        if d != c {
          assert d in Elems(r[1..]);
        }
      }
      assert r[0] !in r[1..];
      assert Elems([r[0]] + t) == {r[0]} + Elems(t);
      [r[0]] + t
  }

  /** The cells of s, sorted, with duplicates removed (std::sort then std::unique). */
  function SortUnique(s: seq<Cell>): (r: seq<Cell>)
    ensures StrictlyAscending(r)
    ensures Elems(r) == Elems(s)
  {
    if s == [] then []
    else
      var front := s[..|s| - 1];
      assert s == front + [s[|s| - 1]];
      assert Elems(s) == Elems(front) + {s[|s| - 1]};
      Insert(SortUnique(front), s[|s| - 1])
  }

  /** Normalised form: translated so that the minimum x and the minimum y are 0,
      then sorted and deduplicated. */
  function Normalize(s: seq<Cell>): (r: seq<Cell>)
    ensures StrictlyAscending(r)
    ensures s == [] <==> r == []
    ensures s != [] ==> ShiftedOf(r, s, Lowering(s))
  {
    if s == [] then []
    else
      var t := Shift(s, Lowering(s));
      assert t[0] in Elems(t);
      SortUnique(t)
  }

  /** In normal form: strictly ascending, with minimum x and minimum y 0. */
  ghost predicate IsNormal(c: seq<Cell>) {
    StrictlyAscending(c) && (c != [] ==> MinX(c) == 0 && MinY(c) == 0)
  }

  /** The minimum x of a non-empty list is the x of one of its cells. */
  lemma {:induction false} MinXAttained(s: seq<Cell>) returns (c: Cell)
    requires s != []
    ensures c in s && c.x == MinX(s)
  {
    if |s| == 1 {
      c := s[0];
    } else if s[0].x <= MinX(s[1..]) {
      c := s[0];
    } else {
      c := MinXAttained(s[1..]);
    }
  }

  /** The minimum y of a non-empty list is the y of one of its cells. */
  lemma {:induction false} MinYAttained(s: seq<Cell>) returns (c: Cell)
    requires s != []
    ensures c in s && c.y == MinY(s)
  {
    if |s| == 1 {
      c := s[0];
    } else if s[0].y <= MinY(s[1..]) {
      c := s[0];
    } else {
      c := MinYAttained(s[1..]);
    }
  }

  lemma InShift(s: seq<Cell>, o: Offset, c: Cell)
    requires c in s
    ensures Moved(c, o) in Shift(s, o)
  {
    var i :| 0 <= i < |s| && s[i] == c;
    assert Shift(s, o)[i] == Moved(c, o);
  }

  lemma FromShift(s: seq<Cell>, o: Offset, d: Cell)
    requires d in Shift(s, o)
    ensures Cell(d.x - o.dx, d.y - o.dy) in s
  {
    var r := Shift(s, o);
    var i :| 0 <= i < |r| && r[i] == d;
    assert s[i] == Cell(d.x - o.dx, d.y - o.dy);
  }

  lemma ShiftedFwd(r: seq<Cell>, s: seq<Cell>, o: Offset, c: Cell)
    requires ShiftedOf(r, s, o) && c in s
    ensures Moved(c, o) in r
  {
    InShift(s, o, c);
    assert Moved(c, o) in Elems(Shift(s, o));
  }

  lemma ShiftedBwd(r: seq<Cell>, s: seq<Cell>, o: Offset, d: Cell)
    requires ShiftedOf(r, s, o) && d in r
    ensures Cell(d.x - o.dx, d.y - o.dy) in s
  {
    assert d in Elems(r);
    FromShift(s, o, d);
  }

  /** Sorting with deduplication keeps every cell of a list without repeats. */
  lemma {:induction false} SortUniqueLength(s: seq<Cell>)
    requires Distinct(s)
    ensures |SortUnique(s)| == |s|
  {
    if s != [] {
      var front := s[..|s| - 1];
      assert s == front + [s[|s| - 1]];
      SortUniqueLength(front);
      assert s[|s| - 1] !in Elems(front);
    }
  }

  /** Normalising a list without repeated cells keeps every cell. */
  lemma NormalizeLength(s: seq<Cell>)
    requires Distinct(s)
    ensures |Normalize(s)| == |s|
  {
    if s != [] {
      var t := Shift(s, Lowering(s));
      forall i, j | 0 <= i < j < |t| ensures t[i] != t[j] {
        assert s[i] != s[j];
      }
      SortUniqueLength(t);
    }
  }

  /** The members of a strictly ascending list determine it. */
  lemma {:induction false} AscendingUnique(a: seq<Cell>, b: seq<Cell>)
    requires StrictlyAscending(a) && StrictlyAscending(b)
    requires Elems(a) == Elems(b)
    ensures a == b
  {
    assert a != [] ==> a[0] in Elems(a);
    assert b != [] ==> b[0] in Elems(b);
    if a != [] && b != [] {
      assert a[0] in Elems(b);
      assert b[0] in Elems(a);
      var i :| 0 <= i < |a| && a[i] == b[0];
      var j :| 0 <= j < |b| && b[j] == a[0];
      assert a[0] == b[0];
      forall c ensures c in Elems(a[1..]) <==> c in Elems(b[1..]) {
        if c in a[1..] {
          assert c != a[0];
          assert c in Elems(b);
        }
        if c in b[1..] {
          assert c != b[0];
          assert c in Elems(a);
        }
      }
      AscendingUnique(a[1..], b[1..]);
    }
  }

  /** Moving every cell by o moves the two minima by the same amounts. */
  lemma ShiftedMinima(r: seq<Cell>, s: seq<Cell>, o: Offset)
    requires s != [] && ShiftedOf(r, s, o)
    ensures r != []
    ensures MinX(r) == MinX(s) + o.dx && MinY(r) == MinY(s) + o.dy
  {
    var cx := MinXAttained(s);
    var cy := MinYAttained(s);
    ShiftedFwd(r, s, o, cx);
    ShiftedFwd(r, s, o, cy);
    var rx := MinXAttained(r);
    var ry := MinYAttained(r);
    ShiftedBwd(r, s, o, rx);
    ShiftedBwd(r, s, o, ry);
  }

  /** The normal form of any list is normal. */
  lemma NormalizeIsNormal(s: seq<Cell>)
    ensures IsNormal(Normalize(s))
  {
    if s != [] {
      ShiftedMinima(Normalize(s), s, Lowering(s));
    }
  }

  /** Two lists that are translates of translates of one list, where the two
      translations end in the same place, hold the same cells. */
  lemma SameImage(nt: seq<Cell>, t: seq<Cell>, lt: Offset,
                  ns: seq<Cell>, s: seq<Cell>, ls: Offset, o: Offset)
    requires ShiftedOf(nt, t, lt) && ShiftedOf(ns, s, ls) && ShiftedOf(t, s, o)
    requires lt.dx + o.dx == ls.dx && lt.dy + o.dy == ls.dy
    ensures Elems(nt) == Elems(ns)
  {
    forall c | c in nt ensures c in ns {
      ShiftedBwd(nt, t, lt, c);
      var u := Cell(c.x - lt.dx, c.y - lt.dy);
      ShiftedBwd(t, s, o, u);
      var v := Cell(u.x - o.dx, u.y - o.dy);
      ShiftedFwd(ns, s, ls, v);
      assert Moved(v, ls) == c;
    }
    forall c | c in ns ensures c in nt {
      ShiftedBwd(ns, s, ls, c);
      var v := Cell(c.x - ls.dx, c.y - ls.dy);
      ShiftedFwd(t, s, o, v);
      var u := Moved(v, o);
      ShiftedFwd(nt, t, lt, u);
      assert Moved(u, lt) == c;
    }
  }

  /** Normalisation forgets the position: two lists whose cells are the same up to a
      translation have the same normal form. */
  lemma NormalizeShiftInvariant(t: seq<Cell>, s: seq<Cell>, o: Offset)
    requires ShiftedOf(t, s, o)
    ensures Normalize(t) == Normalize(s)
  {
    if s == [] {
      if t != [] {
        ShiftedBwd(t, s, o, t[0]);
      }
    } else {
      ShiftedMinima(t, s, o);
      SameImage(Normalize(t), t, Lowering(t), Normalize(s), s, Lowering(s), o);
      AscendingUnique(Normalize(t), Normalize(s));
    }
  }

  /** A list already in normal form is its own normal form. */
  lemma NormalizeOfNormal(c: seq<Cell>)
    requires IsNormal(c)
    ensures Normalize(c) == c
  {
    if c != [] {
      var n := Normalize(c);
      assert Shift(c, Lowering(c)) == c;
      AscendingUnique(n, c);
    }
  }

  /** Normalisation is idempotent. */
  lemma NormalizeIdempotent(s: seq<Cell>)
    ensures Normalize(Normalize(s)) == Normalize(s)
  {
    NormalizeIsNormal(s);
    NormalizeOfNormal(Normalize(s));
  }

  /** Turning a translate gives a translate of the turned list. */
  lemma TurnShifted(t: seq<Cell>, s: seq<Cell>, o: Offset)
    requires ShiftedOf(t, s, o)
    ensures ShiftedOf(Turn(t), Turn(s), TurnOffset(o))
  {
    var rt, rs, q := Turn(t), Turn(s), TurnOffset(o);
    var srs := Shift(rs, q);
    forall c | c in Elems(rt) ensures c in Elems(srs) {
      var i :| 0 <= i < |rt| && rt[i] == c;
      ShiftedBwd(t, s, o, t[i]);
      var u := Cell(t[i].x - o.dx, t[i].y - o.dy);
      var j :| 0 <= j < |s| && s[j] == u;
      assert rs[j] == Cell(u.y, -u.x);
      InShift(rs, q, rs[j]);
      assert Moved(rs[j], q) == c;
    }
    forall c | c in Elems(srs) ensures c in Elems(rt) {
      FromShift(rs, q, c);
      var i :| 0 <= i < |rs| && rs[i] == Cell(c.x - q.dx, c.y - q.dy);
      ShiftedFwd(t, s, o, s[i]);
      var u := Moved(s[i], o);
      var j :| 0 <= j < |t| && t[j] == u;
      assert rt[j] == c;
    }
  }

  /** Mirroring a translate gives a translate of the mirrored list. */
  lemma MirrorShifted(t: seq<Cell>, s: seq<Cell>, o: Offset)
    requires ShiftedOf(t, s, o)
    ensures ShiftedOf(Mirror(t), Mirror(s), MirrorOffset(o))
  {
    var mt, ms, q := Mirror(t), Mirror(s), MirrorOffset(o);
    var sms := Shift(ms, q);
    forall c | c in Elems(mt) ensures c in Elems(sms) {
      var i :| 0 <= i < |mt| && mt[i] == c;
      ShiftedBwd(t, s, o, t[i]);
      var u := Cell(t[i].x - o.dx, t[i].y - o.dy);
      var j :| 0 <= j < |s| && s[j] == u;
      assert ms[j] == Cell(-u.x, u.y);
      InShift(ms, q, ms[j]);
      assert Moved(ms[j], q) == c;
    }
    forall c | c in Elems(sms) ensures c in Elems(mt) {
      FromShift(ms, q, c);
      var i :| 0 <= i < |ms| && ms[i] == Cell(c.x - q.dx, c.y - q.dy);
      ShiftedFwd(t, s, o, s[i]);
      var u := Moved(s[i], o);
      var j :| 0 <= j < |t| && t[j] == u;
      assert mt[j] == c;
    }
  }

  /** Normalising before a quarter turn does not change the normalised result. */
  lemma NormalizeTurnNormalize(u: seq<Cell>)
    ensures Normalize(Turn(Normalize(u))) == Normalize(Turn(u))
  {
    if u != [] {
      TurnShifted(Normalize(u), u, Lowering(u));
      NormalizeShiftInvariant(Turn(Normalize(u)), Turn(u), TurnOffset(Lowering(u)));
    }
  }

  /** Normalising before a mirror does not change the normalised result. */
  lemma NormalizeMirrorNormalize(u: seq<Cell>)
    ensures Normalize(Mirror(Normalize(u))) == Normalize(Mirror(u))
  {
    if u != [] {
      MirrorShifted(Normalize(u), u, Lowering(u));
      NormalizeShiftInvariant(Mirror(Normalize(u)), Mirror(u), MirrorOffset(Lowering(u)));
    }
  }

  lemma DistinctTurn(s: seq<Cell>)
    requires Distinct(s)
    ensures Distinct(Turn(s))
  {
    var r := Turn(s);
    forall i, j | 0 <= i < j < |r| ensures r[i] != r[j] {
      assert s[i] != s[j];
    }
  }

  lemma DistinctMirror(s: seq<Cell>)
    requires Distinct(s)
    ensures Distinct(Mirror(s))
  {
    var r := Mirror(s);
    forall i, j | 0 <= i < j < |r| ensures r[i] != r[j] {
      assert s[i] != s[j];
    }
  }

  lemma StrictlyAscendingIsDistinct(s: seq<Cell>)
    requires StrictlyAscending(s)
    ensures Distinct(s)
  {
  }
}
