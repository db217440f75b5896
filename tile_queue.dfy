/** The draw pile: a reference copy of the catalogue (`all`) and the current
    pile (`deck`, front first). Every shuffle is an input: the caller supplies
    the order the random generator would have produced, which must be a
    permutation of the catalogue. */
module TileQueues {
  import opened Wrappers
  import opened Tiles
  import opened Catalogue

  /** The outcome of a draw: the front tile, or the error the implementation
      throws when there is nothing to draw. */
  datatype DrawOutcome = Drawn(tile: Tile) | EmptyDeck

  /** Same tiles, each as many times, in any order. */
  predicate IsPermutation(a: seq<Tile>, b: seq<Tile>) {
    multiset(a) == multiset(b)
  }

  /** The pile a draw takes its tile from: an empty pile is first refilled with
      the order `refill` when reshuffling is on. */
  function PileBeforeDraw(reshuffle: bool, deck: seq<Tile>, refill: seq<Tile>): seq<Tile> {
    if deck == [] && reshuffle then refill else deck
  }

  /** The whole effect of a draw on the pile: the outcome and the new pile. A
      pile emptied by the draw is refilled with the order `after` when
      reshuffling is on. */
  function DrawEffect(reshuffle: bool, deck: seq<Tile>, refill: seq<Tile>, after: seq<Tile>)
    : (DrawOutcome, seq<Tile>)
  {
    var d := PileBeforeDraw(reshuffle, deck, refill);
    if d == [] then (EmptyDeck, deck)
    else (Drawn(d[0]), if |d| == 1 && reshuffle then after else d[1..])
  }

  /** A draw fails exactly when the pile is empty and either reshuffling is off
      or the catalogue is empty (the second case is undefined behaviour in the
      implementation; here it is the same error). */
  lemma DrawFailsOnlyWhenExhausted(reshuffle: bool, all: seq<Tile>, deck: seq<Tile>,
                                   refill: seq<Tile>, after: seq<Tile>)
    requires IsPermutation(refill, all)
    ensures DrawEffect(reshuffle, deck, refill, after).0 == EmptyDeck <==>
            deck == [] && (!reshuffle || all == [])
  {
    if deck == [] && reshuffle && all != [] {
      assert |refill| == |multiset(refill)| == |multiset(all)| == |all|;
    }
    if deck == [] && reshuffle && all == [] {
      assert |refill| == |multiset(refill)| == 0;
    }
  }

  /** With reshuffling on and a non-empty catalogue, a draw never leaves the
      pile empty. */
  lemma DrawKeepsPileFull(all: seq<Tile>, deck: seq<Tile>, refill: seq<Tile>, after: seq<Tile>)
    requires all != [] && IsPermutation(refill, all) && IsPermutation(after, all)
    ensures DrawEffect(true, deck, refill, after).1 != []
  {
    assert |refill| == |multiset(refill)| == |multiset(all)| == |all|;
    assert |after| == |multiset(after)| == |multiset(all)| == |all|;
  }

  /** The first min(count, |deck|) tiles. */
  function Window(deck: seq<Tile>, count: nat): seq<Tile> {
    if count < |deck| then deck[..count] else deck
  }

  class TileQueue {
    const reshuffleOnExhaustion: bool
    var all: seq<Tile>
    var deck: seq<Tile>

    /** Every pile tile is a catalogue tile, and with reshuffling on the pile is
        empty only while the catalogue is. */
    ghost predicate Valid()
      reads this
    {
      (forall i :: 0 <= i < |deck| ==> deck[i] in all) &&
      (reshuffleOnExhaustion && all != [] ==> deck != [])
    }

    constructor (reshuffleOnExhaustion: bool := true)
      ensures this.reshuffleOnExhaustion == reshuffleOnExhaustion
      ensures all == [] && deck == []
      ensures Valid()
    {
      this.reshuffleOnExhaustion := reshuffleOnExhaustion;
      all := [];
      deck := [];
    }

    /** Number of tiles left in the pile. */
    function Size(): (n: nat)
      reads this
      ensures n == |deck|
    {
      |deck|
    }

    predicate Empty()
      reads this
      ensures Empty() <==> Size() == 0
    {
      deck == []
    }

    /** Copies the catalogue into `all` and fills the pile with it, in the order
        `shuffled` when asked to shuffle, as it is by default. An empty catalogue
        is refused. */
    method InitFrom(src: InitTiles, shuffled: seq<Tile>, shuffle: bool := true) returns (ok: bool)
      requires Valid()
      requires shuffle ==> IsPermutation(shuffled, src.tiles)
      modifies this
      ensures ok <==> old(src.tiles) != []
      ensures !ok ==> all == old(all) && deck == old(deck)
      ensures ok ==> all == old(src.tiles) && deck == (if shuffle then shuffled else all)
      ensures ok ==> IsPermutation(deck, all)
      ensures Valid()
    {
      var v := src.All();
      if v == [] {
        return false;
      }
      all := v;
      var tmp := all;
      if shuffle {
        tmp := shuffled;
      }
      deck := tmp;
      assert |deck| == |multiset(deck)| == |multiset(all)| == |all|;
      forall i | 0 <= i < |deck| ensures deck[i] in all {
        assert deck[i] in multiset(deck);
      }
      return true;
    }

    /** Refills the pile with the whole catalogue in the order `order`. */
    method Reshuffle(order: seq<Tile>)
      requires IsPermutation(order, all)
      modifies this
      ensures deck == order && all == old(all)
      ensures Valid()
    {
      deck := order;
      assert |deck| == |multiset(deck)| == |multiset(all)| == |all|;
      forall i | 0 <= i < |deck| ensures deck[i] in all {
        assert deck[i] in multiset(deck);
      }
    }

    /** Takes the front tile. An empty pile is refilled first (`refill`) when
        reshuffling is on and is an error otherwise; a pile the draw empties is
        refilled afterwards (`after`) when reshuffling is on. */
    method Draw(refill: seq<Tile>, after: seq<Tile>) returns (outcome: DrawOutcome)
      requires Valid()
      requires IsPermutation(refill, all) && IsPermutation(after, all)
      modifies this
      ensures (outcome, deck) == DrawEffect(reshuffleOnExhaustion, old(deck), refill, after)
      ensures all == old(all)
      ensures Valid()
    {
      if deck == [] {
        if reshuffleOnExhaustion {
          Reshuffle(refill);
        } else {
          return EmptyDeck;
        }
      }
      if deck == [] {
        return EmptyDeck;
      }
      var t := deck[0];
      deck := deck[1..];
      if deck == [] && reshuffleOnExhaustion {
        Reshuffle(after);
      }
      outcome := Drawn(t);
    }

    /** The next `count` tiles (fewer if the pile is shorter), front first,
        without removing them. */
    method Peek(count: nat := 5) returns (out: seq<Tile>)
      ensures out == Window(deck, count)
      ensures |out| == if count < |deck| then count else |deck|
      ensures forall i :: 0 <= i < |out| ==> out[i] == deck[i]
    {
      var n := if count < |deck| then count else |deck|;
      out := [];
      var i := 0;
      while i < n
        invariant 0 <= i <= n
        invariant out == deck[..i]
      {
        out := out + [deck[i]];
        i := i + 1;
      }
    }

    /** The first catalogue tile with that id. */
    method FindInAll(id: string) returns (r: Option<Tile>)
      ensures r == FirstWithId(all, id)
    {
      var i := 0;
      while i < |all|
        invariant 0 <= i <= |all|
        invariant FirstWithId(all, id) == FirstWithId(all[i..], id)
      {
        if all[i].id == id {
          return Some(all[i]);
        }
        assert all[i..][1..] == all[i + 1..];
        i := i + 1;
      }
      return None;
    }

    /** The ids of the tiles `Peek(count)` returns, in the same order. */
    method NextTileIds(count: nat := 5) returns (ids: seq<string>)
      ensures |ids| == |Window(deck, count)|
      ensures forall i :: 0 <= i < |ids| ==> ids[i] == Window(deck, count)[i].id
    {
      var nxt := Peek(count);
      ids := [];
      var i := 0;
      while i < |nxt|
        invariant 0 <= i <= |nxt|
        invariant |ids| == i
        invariant forall j :: 0 <= j < i ==> ids[j] == nxt[j].id
      {
        ids := ids + [nxt[i].id];
        i := i + 1;
      }
    }

    /** Swaps the held tile (named by its id) with window slot `index` (0..4):
        the slot receives the catalogue copy of the held tile and its previous
        tile is returned. Nothing happens outside the window or for an unknown
        id. */
    method ExchangeWithWindow(index: nat, currentId: string) returns (r: Option<Tile>)
      requires Valid()
      modifies this
      ensures all == old(all)
      ensures index >= 5 || index >= |old(deck)| || FirstWithId(all, currentId).None? ==>
                r.None? && deck == old(deck)
      ensures index < 5 && index < |old(deck)| && FirstWithId(all, currentId).Some? ==>
                r == Some(old(deck)[index]) &&
                deck == old(deck)[index := FirstWithId(all, currentId).value]
      ensures Valid()
    {
      if index >= 5 || index >= |deck| {
        return None;
      }
      var curOpt := FindInAll(currentId);
      if curOpt.None? {
        return None;
      }
      var newCurrent := deck[index];
      deck := deck[index := curOpt.value];
      return Some(newCurrent);
    }
  }
}
