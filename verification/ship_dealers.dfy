/** The ship dealer: the purchase gate (per-ship, per-player cooldown,
    level, money) and the walk that looks for a free spot to paste the
    bought ship. The schematic's blocks, the world's blocks and the world
    border are parameters; the random choice of walking direction is too. */
module StarshipDealers {
  import opened Common
  import opened StarshipTypes

  /** A ship on sale, as configured. */
  datatype Ship = Ship(name: string, shipType: ShipType, price: int, cooldown: int, protectionCanBypass: bool)

  /** The buyer, as far as the gate looks at them. */
  datatype Buyer = Buyer(id: string, level: int, balance: int, hasProtection: bool)

  /** `lastBuyTimes`: per configured ship (the whole record, not just its
      name), per player, the time of the last purchase. */
  type BuyTimes = map<Ship, map<string, int>>

  /** `getOrDefault(ship, …).getOrDefault(player, 0)`: a purchase never made
      counts as one made at time 0. */
  function LastBuy(times: BuyTimes, ship: Ship, player: string): (t: int)
    ensures ship !in times || player !in times[ship] ==> t == 0
    ensures ship in times && player in times[ship] ==> t == times[ship][player]
  {
    if ship in times && player in times[ship] then times[ship][player] else 0
  }

  /** The cooldown test: the last purchase plus the ship's cooldown is still
      in the future. */
  predicate InCooldown(times: BuyTimes, ship: Ship, player: string, now: int)
  {
    LastBuy(times, ship, player) + ship.cooldown > now
  }

  /** `loadShip`: refused during the cooldown unless the buyer is protected
      and the ship lets protection bypass it, then below the ship type's
      level, then without the price. A purchase pays the price and records
      `paidAt`, the time the ship finished pasting, for this ship and buyer
      only. A refusal charges and records nothing. */
  function LoadShip(b: Buyer, ship: Ship, times: BuyTimes, now: int, paidAt: int): (r: Result<(int, BuyTimes)>)
    ensures r.Ok? <==> ((!InCooldown(times, ship, b.id, now) || (b.hasProtection && ship.protectionCanBypass))
      && b.level >= Info(ship.shipType).minLevel && b.balance >= ship.price)
    ensures r.Ok? ==> r.value.0 == b.balance - ship.price
    ensures r.Ok? ==> LastBuy(r.value.1, ship, b.id) == paidAt
    ensures r.Ok? ==> forall s, p :: (s != ship || p != b.id) ==> LastBuy(r.value.1, s, p) == LastBuy(times, s, p)
  {
    if InCooldown(times, ship, b.id, now) && !(b.hasProtection && ship.protectionCanBypass) then
      Fail("Didn't I sell you a ship not too long ago?")
    else if b.level < Info(ship.shipType).minLevel then Fail("You are not a high enough level to pilot that ship!")
    else if b.balance < ship.price then Fail("This ship is too expensive for you")
    else
      var forShip := if ship in times then times[ship] else map[];
      Ok((b.balance - ship.price, times[ship := forShip[b.id := paidAt]]))
  }

  /** After a purchase, the same buyer cannot buy the same ship again until
      its cooldown has passed, unless protection bypasses it; other buyers
      and other ships are not held back by it. */
  lemma CooldownIsPerShipAndBuyer(b: Buyer, ship: Ship, times: BuyTimes, now: int, paidAt: int, later: int, other: Ship, otherBuyer: string)
    requires LoadShip(b, ship, times, now, paidAt).Ok?
    requires other != ship
    requires otherBuyer != b.id
    ensures later < paidAt + ship.cooldown && !(b.hasProtection && ship.protectionCanBypass) ==>
      LoadShip(b.(balance := b.balance - ship.price), ship, LoadShip(b, ship, times, now, paidAt).value.1, later, later).Fail?
    ensures InCooldown(LoadShip(b, ship, times, now, paidAt).value.1, other, b.id, later) == InCooldown(times, other, b.id, later)
    ensures InCooldown(LoadShip(b, ship, times, now, paidAt).value.1, ship, otherBuyer, later) == InCooldown(times, ship, otherBuyer, later)
  {
  }

  /** A ship never bought only holds a buyer back while the clock is below
      the ship's cooldown. */
  lemma NeverBoughtCooldown(ship: Ship, player: string, times: BuyTimes, now: int)
    requires ship !in times
    ensures InCooldown(times, ship, player, now) <==> now < ship.cooldown
  {
  }

  /** The placement walk: where it stands, its offsets, and whether it has
      already turned back once. */
  datatype Walk = Walk(x: int, z: int, dx: int, dz: int, reversed: bool)

  /** Whether a block column is inside the world border. */
  type Border = (int, int) -> bool

  /** One step after a failed check: move by the offsets; when that leaves
      the border for the first time, turn the offsets round (without moving
      back). */
  function Step(w: Walk, inside: Border): (n: Walk)
    ensures n.x == w.x + w.dx && n.z == w.z + w.dz
    ensures n.reversed <==> w.reversed || !inside(n.x, n.z)
    ensures (n.dx, n.dz) == (if n.reversed != w.reversed then (-w.dx, -w.dz) else (w.dx, w.dz))
  {
    var m := w.(x := w.x + w.dx, z := w.z + w.dz);
    if w.reversed || inside(m.x, m.z) then m
    else m.(dx := -m.dx, dz := -m.dz, reversed := true)
  }

  /** The walk after `n` steps. */
  function WalkAfter(start: Walk, n: nat, inside: Border): Walk
  {
    if n == 0 then start else Step(WalkAfter(start, n - 1, inside), inside)
  }

  /** `for (i in 0..5000)`: the number of spots checked at most. */
  const MaxChecks: nat := 5001

  /** `resolveTarget`: the first spot of the walk where the ship is not
      obstructed, checking at most 5001 spots; when all of them are, the
      spot the walk reached after the last check, which is never checked. */
  method ResolveTarget(x0: int, z0: int, dx0: int, dz0: int, obstructed: (int, int) -> bool, inside: Border)
    returns (x: int, z: int, found: bool, checks: nat)
    ensures checks <= MaxChecks
    ensures var start := Walk(x0, z0, dx0, dz0, false);
      forall k :: 0 <= k < checks ==> obstructed(WalkAfter(start, k, inside).x, WalkAfter(start, k, inside).z)
    ensures found ==> (checks < MaxChecks && !obstructed(x, z)
      && (x, z) == (WalkAfter(Walk(x0, z0, dx0, dz0, false), checks, inside).x, WalkAfter(Walk(x0, z0, dx0, dz0, false), checks, inside).z))
    ensures !found ==> (checks == MaxChecks
      && (x, z) == (WalkAfter(Walk(x0, z0, dx0, dz0, false), MaxChecks, inside).x, WalkAfter(Walk(x0, z0, dx0, dz0, false), MaxChecks, inside).z))
  {
    var start := Walk(x0, z0, dx0, dz0, false);
    var w := start;
    var i: nat := 0;
    while i < MaxChecks
      invariant i <= MaxChecks
      invariant w == WalkAfter(start, i, inside)
      invariant forall k :: 0 <= k < i ==> obstructed(WalkAfter(start, k, inside).x, WalkAfter(start, k, inside).z)
    {
      if !obstructed(w.x, w.z) {
        return w.x, w.z, true, i;
      }
      w := Step(w, inside);
      i := i + 1;
    }
    return w.x, w.z, false, MaxChecks;
  }

  /** The walk turns round at most once: its offsets are always either the
      starting ones or their negation, and once turned it stays turned. */
  lemma {:induction false} ReversesAtMostOnce(start: Walk, n: nat, m: nat, inside: Border)
    requires !start.reversed
    requires m <= n
    ensures var w := WalkAfter(start, n, inside);
      (w.dx, w.dz) == (if w.reversed then (-start.dx, -start.dz) else (start.dx, start.dz))
    ensures WalkAfter(start, m, inside).reversed ==> WalkAfter(start, n, inside).reversed
    decreases n
  {
    if n > 0 {
      if m < n {
        ReversesAtMostOnce(start, n - 1, m, inside);
      } else {
        ReversesAtMostOnce(start, n - 1, n - 1, inside);
      }
    }
  }

  /** Until it turns, the walk goes in a straight line by the starting
      offsets and every spot it reached was inside the border. */
  lemma {:induction false} StraightUntilBorder(start: Walk, n: nat, inside: Border)
    requires !start.reversed
    requires !WalkAfter(start, n, inside).reversed
    ensures WalkAfter(start, n, inside).x == start.x + n * start.dx
    ensures WalkAfter(start, n, inside).z == start.z + n * start.dz
    ensures forall k :: 1 <= k <= n ==> inside(WalkAfter(start, k, inside).x, WalkAfter(start, k, inside).z)
  {
    if n > 0 {
      var prev := WalkAfter(start, n - 1, inside);
      assert !prev.reversed;
      StraightUntilBorder(start, n - 1, inside);
      ReversesAtMostOnce(start, n - 1, n - 1, inside);
      assert (n - 1) * start.dx + start.dx == n * start.dx;
      assert (n - 1) * start.dz + start.dz == n * start.dz;
    }
  }
}
