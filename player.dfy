/** A player: id, name, colour, the count of exchange coupons and the two
    one-shot bonus flags. Ids come from a counter shared by every player
    construction, which starts at 1. */
module Players {

  /** The shared source of player ids. */
  class IdCounter {
    var nextID: int

    /** The counter as the program starts: the first id handed out is 1. */
    constructor ()
      ensures nextID == 1
    {
      nextID := 1;
    }
  }

  class Player {
    const id: int
    var name: string
    var color: string
    var exchangeCoupons: int
    var rockBonusAvailable: bool
    var stealthBonusAvailable: bool

    /** The coupon count never goes below zero. */
    ghost predicate Valid()
      reads this
    {
      exchangeCoupons >= 0
    }

    /** A player with no name or colour yet, taking the next id. */
    constructor Unnamed(counter: IdCounter)
      modifies counter
      ensures id == old(counter.nextID) && counter.nextID == old(counter.nextID) + 1
      ensures name == "" && color == ""
      ensures exchangeCoupons == 1 && !rockBonusAvailable && !stealthBonusAvailable
      ensures Valid()
    {
      id := counter.nextID;
      name, color := "", "";
      exchangeCoupons := 1;
      rockBonusAvailable, stealthBonusAvailable := false, false;
      new;
      counter.nextID := counter.nextID + 1;
    }

    /** A player with the given name and colour, taking the next id. */
    constructor (counter: IdCounter, playerName: string, playerColor: string)
      modifies counter
      ensures id == old(counter.nextID) && counter.nextID == old(counter.nextID) + 1
      ensures name == playerName && color == playerColor
      ensures exchangeCoupons == 1 && !rockBonusAvailable && !stealthBonusAvailable
      ensures Valid()
    {
      id := counter.nextID;
      name, color := playerName, playerColor;
      exchangeCoupons := 1;
      rockBonusAvailable, stealthBonusAvailable := false, false;
      new;
      counter.nextID := counter.nextID + 1;
    }

    function GetID(): (r: int)
      ensures r == id
    {
      id
    }

    function GetName(): (r: string)
      reads this
      ensures r == name
    {
      name
    }

    function GetColor(): (r: string)
      reads this
      ensures r == color
    {
      color
    }

    function HasRockBonus(): (r: bool)
      reads this
      ensures r == rockBonusAvailable
    {
      rockBonusAvailable
    }

    function HasStealthBonus(): (r: bool)
      reads this
      ensures r == stealthBonusAvailable
    {
      stealthBonusAvailable
    }

    function GetExchangeCoupons(): (r: int)
      reads this
      ensures r == exchangeCoupons
    {
      exchangeCoupons
    }

    method SetName(newName: string)
      modifies this
      ensures name == newName
      ensures color == old(color) && exchangeCoupons == old(exchangeCoupons)
      ensures rockBonusAvailable == old(rockBonusAvailable)
      ensures stealthBonusAvailable == old(stealthBonusAvailable)
    {
      name := newName;
    }

    method SetColor(newColor: string)
      modifies this
      ensures color == newColor
      ensures name == old(name) && exchangeCoupons == old(exchangeCoupons)
      ensures rockBonusAvailable == old(rockBonusAvailable)
      ensures stealthBonusAvailable == old(stealthBonusAvailable)
    {
      color := newColor;
    }

    method SetRockBonusAvailable(v: bool)
      modifies this
      ensures rockBonusAvailable == v
      ensures name == old(name) && color == old(color) && exchangeCoupons == old(exchangeCoupons)
      ensures stealthBonusAvailable == old(stealthBonusAvailable)
    {
      rockBonusAvailable := v;
    }

    method SetStealthBonusAvailable(v: bool)
      modifies this
      ensures stealthBonusAvailable == v
      ensures name == old(name) && color == old(color) && exchangeCoupons == old(exchangeCoupons)
      ensures rockBonusAvailable == old(rockBonusAvailable)
    {
      stealthBonusAvailable := v;
    }

    /** One more coupon (an exchange bonus was captured). */
    method AddExchangeCoupon()
      requires Valid()
      modifies this
      ensures exchangeCoupons == old(exchangeCoupons) + 1
      ensures name == old(name) && color == old(color)
      ensures rockBonusAvailable == old(rockBonusAvailable)
      ensures stealthBonusAvailable == old(stealthBonusAvailable)
      ensures Valid()
    {
      exchangeCoupons := exchangeCoupons + 1;
    }

    /** Spends a coupon if there is one; at zero nothing happens. */
    method UseExchangeCoupon()
      requires Valid()
      modifies this
      ensures exchangeCoupons == CouponsAfterUse(old(exchangeCoupons))
      ensures name == old(name) && color == old(color)
      ensures rockBonusAvailable == old(rockBonusAvailable)
      ensures stealthBonusAvailable == old(stealthBonusAvailable)
      ensures Valid()
    {
      if exchangeCoupons > 0 {
        exchangeCoupons := exchangeCoupons - 1;
      }
    }
  }

  /** The coupon count after one use. */
  function CouponsAfterUse(c: int): (r: int)
    ensures c > 0 ==> r == c - 1
    ensures c <= 0 ==> r == c
  {
    if c > 0 then c - 1 else c
  }

  /** A coupon operation: true adds a coupon, false uses one. */
  function CouponsAfter(start: int, ops: seq<bool>): int {
    if ops == [] then start
    else
      var c := CouponsAfter(start, ops[..|ops| - 1]);
      if ops[|ops| - 1] then c + 1 else CouponsAfterUse(c)
  }

  /** From any non-negative count (a new player holds 1), no sequence of
      additions and uses makes the count negative, and each operation changes
      it by at most one. */
  lemma {:induction false} CouponsNeverNegative(start: int, ops: seq<bool>)
    requires start >= 0
    ensures CouponsAfter(start, ops) >= 0
    ensures CouponsAfter(start, ops) <= start + |ops|
  {
    if ops != [] {
      CouponsNeverNegative(start, ops[..|ops| - 1]);
    }
  }

  /** Constructs one player per (name, colour) pair, in order. */
  method NewPlayers(counter: IdCounter, names: seq<string>, colors: seq<string>)
    returns (players: seq<Player>)
    requires |names| == |colors|
    modifies counter
    ensures |players| == |names|
    ensures counter.nextID == old(counter.nextID) + |names|
    ensures forall i :: 0 <= i < |players| ==> fresh(players[i])
    ensures forall i :: 0 <= i < |players| ==>
              players[i].id == old(counter.nextID) + i &&
              players[i].name == names[i] && players[i].color == colors[i] &&
              players[i].Valid()
    ensures forall i, j :: 0 <= i < j < |players| ==> players[i].id < players[j].id
  {
    players := [];
    var i := 0;
    while i < |names|
      invariant 0 <= i <= |names| && |players| == i
      invariant counter.nextID == old(counter.nextID) + i
      invariant forall j :: 0 <= j < i ==> fresh(players[j])
      invariant forall j :: 0 <= j < i ==>
                  players[j].id == old(counter.nextID) + j &&
                  players[j].name == names[j] && players[j].color == colors[j] &&
                  players[j].Valid()
    {
      var p := new Player(counter, names[i], colors[i]);
      players := players + [p];
      i := i + 1;
    }
  }
}
