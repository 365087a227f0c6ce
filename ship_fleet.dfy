/**
 * The ship fleet: the four ship classes, the registry of spawned ships in
 * insertion order, the active ship with its cyclic switch, the shield
 * recharge and the ship list shown to the player.
 */
module ShipFleet {
  import opened Wrappers

  /** The fields of a ship class that the fleet logic reads. */
  datatype ShipClass = ShipClass(name: string, maxSpeed: int, shields: int, description: string)

  /** `shipTypes`. */
  const SHIP_TYPES: map<string, ShipClass> := map[
    "fighter" := ShipClass("X-Wing Fighter", 80, 100, "Fast and agile starfighter"),
    "transport" := ShipClass("YT-1300 Freighter", 45, 200, "Reliable cargo transport"),
    "interceptor" := ShipClass("TIE Interceptor", 100, 50, "Ultra-fast imperial fighter"),
    "bomber" := ShipClass("Y-Wing Bomber", 35, 150, "Heavy assault bomber")]

  /** `shieldSystem.rechargeRate`. */
  const RECHARGE_RATE: real := 2.0

  /** A spawned ship: its id, class and shield system. */
  class Ship {
    const shipId: string
    const data: ShipClass
    const maxShields: real
    var currentShields: real

    constructor (shipId: string, data: ShipClass)
      ensures this.shipId == shipId && this.data == data
      ensures maxShields == data.shields as real && currentShields == maxShields
    {
      this.shipId := shipId;
      this.data := data;
      maxShields := data.shields as real;
      currentShields := data.shields as real;
    }
  }

  /** The shield value after recharging for `dt` seconds. */
  function RechargedShields(current: real, max: real, dt: real): (r: real)
    ensures current < max ==> r <= max
    ensures current >= max ==> r == current
    ensures dt >= 0.0 ==> r >= current
  {
    if current < max then (if current + RECHARGE_RATE * dt < max then current + RECHARGE_RATE * dt else max) else current
  }

  /** Recharging never passes the maximum, however long: a full shield stays full. */
  lemma RechargeStaysFull(max: real, dt: real)
    ensures RechargedShields(max, max, dt) == max
  {
  }

  /** `indexOf` on the id list. */
  function IndexOf(ids: seq<string>, id: string): (i: int)
    ensures -1 <= i < |ids|
    ensures i == -1 <==> id !in ids
    ensures i >= 0 ==> ids[i] == id && id !in ids[..i]
  {
    if ids == [] then -1
    else if ids[0] == id then 0
    else
      var j := IndexOf(ids[1..], id);
      assert j >= 0 ==> ids[..j + 1] == [ids[0]] + ids[1..][..j];
      if j == -1 then -1 else j + 1
  }

  /** `(currentIndex + 1) % n`, where -1 stands for no current ship: the next index, wrapping to the first. */
  function NextIndex(current: int, n: nat): (next: nat)
    requires n > 0 && -1 <= current < n
    ensures next < n
    ensures current == n - 1 ==> next == 0
    ensures current < n - 1 ==> next == current + 1
  {
    (current + 1) % n
  }

  /** The index reached after `steps` switches from `start`. */
  function Switched(start: int, steps: nat, n: nat): (i: int)
    requires n > 0 && -1 <= start < n
    ensures -1 <= i < n
    ensures steps > 0 ==> 0 <= i
  {
    if steps == 0 then start else NextIndex(Switched(start, steps - 1, n), n)
  }

  /** From no active ship, the `k + 1`-th switch selects ship `k`, and `n` switches later it is selected again. */
  lemma {:induction false} SwitchVisitsInOrder(n: nat, k: nat)
    requires k < n
    ensures Switched(-1, k + 1, n) == k
    ensures Switched(-1, k + 1 + n, n) == k
  {
    if k > 0 {
      SwitchVisitsInOrder(n, k - 1);
    }
    SwitchedWraps(n, k + 1, n);
  }

  lemma {:induction false} SwitchedWraps(n: nat, steps: nat, extra: nat)
    requires 0 < steps <= n && extra <= n
    ensures Switched(-1, steps + extra, n) == if steps - 1 + extra < n then steps - 1 + extra else steps - 1 + extra - n
    decreases extra
  {
    if extra == 0 {
      SwitchedFromStart(n, steps);
    } else {
      SwitchedWraps(n, steps, extra - 1);
    }
  }

  lemma {:induction false} SwitchedFromStart(n: nat, steps: nat)
    requires 0 < steps <= n
    ensures Switched(-1, steps, n) == steps - 1
  {
    if steps > 1 {
      SwitchedFromStart(n, steps - 1);
    }
  }

  /** An entry of `getShipList()`. */
  datatype ShipEntry = ShipEntry(id: string, name: string, kind: string, active: bool)

  /**
   * `this.ships`, a map that keeps its keys in insertion order, as the id
   * order and the id-to-ship map, and `this.activeShip`.
   */
  class Fleet {
    var order: seq<string>
    var ships: map<string, Ship>
    var activeShip: Ship?

    /** Each registered id appears once in the order and names its own ship. */
    predicate Valid()
      reads this
    {
      (forall i, j :: 0 <= i < j < |order| ==> order[i] != order[j]) &&
      (forall id :: id in ships ==> id in order) && (forall i :: 0 <= i < |order| ==> order[i] in ships) &&
      (forall a, b :: a in ships && b in ships && a != b ==> ships[a] != ships[b])
    }

    constructor ()
      ensures Valid() && order == [] && ships == map[] && activeShip == null
    {
      order := [];
      ships := map[];
      activeShip := null;
    }

    /**
     * `spawnShip(id, type)`: an unknown type returns nothing and registers
     * nothing; otherwise a new ship of that class is registered under `id`,
     * replacing a ship of the same id in its place in the order.
     */
    method SpawnShip(shipId: string, shipType: string) returns (ship: Ship?)
      requires Valid()
      modifies this
      ensures Valid() && activeShip == old(activeShip)
      ensures shipType !in SHIP_TYPES ==> ship == null && order == old(order) && ships == old(ships)
      ensures shipType in SHIP_TYPES ==> (ship != null && fresh(ship) && ship.shipId == shipId &&
        ship.data == SHIP_TYPES[shipType] && ships == old(ships)[shipId := ship] &&
        order == (if shipId in old(ships) then old(order) else old(order) + [shipId]))
    {
      if shipType !in SHIP_TYPES {
        return null;
      }
      var s := new Ship(shipId, SHIP_TYPES[shipType]);
      if shipId !in ships {
        order := order + [shipId];
      }
      ships := ships[shipId := s];
      ship := s;
    }

    /** `setActiveShip(id)`: false and no change for an unknown id. */
    method SetActiveShip(shipId: string) returns (ok: bool)
      modifies this
      ensures order == old(order) && ships == old(ships)
      ensures ok <==> shipId in ships
      ensures ok ==> activeShip == ships[shipId]
      ensures !ok ==> activeShip == old(activeShip)
    {
      if shipId !in ships {
        return false;
      }
      activeShip := ships[shipId];
      ok := true;
    }

    /**
     * `switchShip()`: nothing on an empty fleet; with no active ship, or one
     * whose id is no longer registered, the first ship; otherwise the next
     * one in insertion order, wrapping around.
     */
    method SwitchShip()
      requires Valid()
      modifies this
      ensures Valid() && order == old(order) && ships == old(ships)
      ensures order == [] ==> activeShip == old(activeShip)
      ensures order != [] ==> activeShip == ships[order[
        NextIndex(if old(activeShip) == null then -1 else IndexOf(order, old(activeShip).shipId), |order|)]]
    {
      if |order| == 0 {
        return;
      }
      var currentIndex := if activeShip != null then IndexOf(order, activeShip.shipId) else -1;
      var nextIndex := (currentIndex + 1) % |order|;
      var ok := SetActiveShip(order[nextIndex]);
    }

    /** `getShipList()`: one entry per registered ship, in insertion order, marked active when it is the active ship. */
    method GetShipList() returns (list: seq<ShipEntry>)
      requires Valid()
      ensures |list| == |order|
      ensures forall i :: 0 <= i < |list| ==> (list[i].id == order[i] && list[i].name == ships[order[i]].data.name &&
        list[i].kind == ships[order[i]].data.description && (list[i].active <==> ships[order[i]] == activeShip))
      ensures forall i, j :: 0 <= i < j < |list| ==> !(list[i].active && list[j].active)
    {
      list := [];
      var i := 0;
      while i < |order|
        invariant 0 <= i <= |order|
        invariant |list| == i
        invariant forall k :: 0 <= k < i ==> (list[k].id == order[k] && list[k].name == ships[order[k]].data.name &&
          list[k].kind == ships[order[k]].data.description && (list[k].active <==> ships[order[k]] == activeShip))
      {
        var ship := ships[order[i]];
        list := list + [ShipEntry(order[i], ship.data.name, ship.data.description, ship == activeShip)];
        i := i + 1;
      }
    }

    /** `dispose()`: the registry is emptied; the active ship field is left as it was. */
    method Dispose()
      modifies this
      ensures Valid() && order == [] && ships == map[] && activeShip == old(activeShip)
    {
      order := [];
      ships := map[];
    }
  }

  /** The recharge part of `updateShip(ship, dt)`: nothing for a missing ship. */
  method UpdateShip(ship: Ship?, dt: real)
    modifies ship
    ensures ship != null ==> ship.currentShields == RechargedShields(old(ship.currentShields), ship.maxShields, dt)
  {
    if ship == null {
      return;
    }
    if ship.currentShields < ship.maxShields {
      ship.currentShields := ship.currentShields + RECHARGE_RATE * dt;
      ship.currentShields := if ship.currentShields < ship.maxShields then ship.currentShields else ship.maxShields;
    }
  }
}
