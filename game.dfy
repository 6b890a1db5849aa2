/**
 * The restaurant scene's state and the callbacks that change it. Each
 * timer callback, tween completion and button or click handler of the
 * scene is one method; an environment may call them in any order it could
 * produce. A completion callback is accepted for every customer in the
 * state the scheduling call leaves behind, which covers every order the
 * scene's timers and tweens can deliver them in.
 */
module Game {
  import opened Wrappers
  import opened Lists
  import opened Layout
  import opened Seating
  import opened Persistence
  import opened Roster

  /** Payout bounds of one meal. */
  const MinPayout: int := 6
  const MaxPayout: int := 12

  class GameScene {
    var coins: int
    var pizza: int
    /** Table positions read from the save, extended by new distinct placements. */
    var tablesData: seq<Point>
    var isBuildMode: bool
    /** The live tables, in placement order. */
    var tables: seq<Table>
    /** Every customer ever spawned, by id; callbacks keep referring to removed ones. */
    var customers: map<nat, Customer>
    var queue: seq<nat>
    var seated: seq<nat>
    var nextCustomerId: nat
    /**
     * The customers whose one seating attempt, scheduled on the scene's
     * clock when they spawned, has not fired yet.
     */
    var seatTimers: set<nat>

    ghost predicate Valid()
      reads this
    {
      Consistent(customers, queue, seated, tables, tablesData, nextCustomerId) &&
      seatTimers <= customers.Keys
    }

    /** A customer left queued with no seating attempt to come. */
    ghost predicate Stranded(id: nat)
      reads this
    {
      id in customers && customers[id].state == Queued && id !in seatTimers
    }

    /**
     * What a save writes: coins, pizza, and the position of every live
     * table, which are the positions of the recorded layout.
     */
    function Persist(): (s: Snapshot)
      reads this
      ensures s.coins == coins && s.pizza == pizza && |s.tables| == |tables|
      ensures Valid() ==> forall p :: p in s.tables <==> p in tablesData
    {
      Snapshot(coins, pizza, Positions(tables))
    }

    /**
     * Scene start-up: each field of the save or its default, then one live
     * table per saved position.
     */
    constructor (saved: SaveData)
      ensures Valid()
      ensures coins == saved.coins.GetOr(0) && pizza == saved.pizza.GetOr(0)
      ensures tablesData == saved.tables.GetOr([]) && Positions(tables) == tablesData
      ensures forall j :: 0 <= j < |tables| ==> tables[j].occupied == 0
      ensures !isBuildMode && customers == map[] && queue == [] && seated == [] && nextCustomerId == 1
      ensures seatTimers == {}
    {
      coins := saved.coins.GetOr(0);
      pizza := saved.pizza.GetOr(0);
      tablesData := saved.tables.GetOr([]);
      isBuildMode := false;
      queue := [];
      seated := [];
      nextCustomerId := 1;
      customers := map[];
      seatTimers := {};
      tables := [];
      new;
      RestoreTables();
    }

    /** Start-up: one live table, both seats free, for every saved position in turn. */
    method RestoreTables()
      modifies this`tables, this`tablesData
      ensures tablesData == old(tablesData)
      ensures Positions(tables) == Positions(old(tables)) + tablesData
      ensures forall j :: |old(tables)| <= j < |tables| ==> tables[j].occupied == 0
      ensures tables[..|old(tables)|] == old(tables)
    {
      var i := 0;
      while i < |tablesData|
        invariant 0 <= i <= |tablesData|
        invariant tablesData == old(tablesData)
        invariant |tables| == |old(tables)| + i
        invariant Positions(tables) == Positions(old(tables)) + tablesData[..i]
        invariant forall j :: |old(tables)| <= j < |tables| ==> tables[j].occupied == 0
        invariant tables[..|old(tables)|] == old(tables)
      {
        SpawnTable(tablesData[i]);
        assert tablesData[..i + 1] == tablesData[..i] + [tablesData[i]];
        i := i + 1;
      }
      assert tablesData[..i] == tablesData;
    }

    /**
     * Adds a live table with both seats free, and records its position in
     * the saved layout unless that exact position is already there.
     */
    method SpawnTable(p: Point)
      modifies this`tables, this`tablesData
      ensures tables == old(tables) + [Table(p, 0)]
      ensures Positions(tables) == Positions(old(tables)) + [p]
      ensures tablesData == if p in old(tablesData) then old(tablesData) else old(tablesData) + [p]
      ensures p in tablesData
      ensures NoDup(old(tablesData)) ==> NoDup(tablesData)
    {
      tables := tables + [Table(p, 0)];
      assert Positions(tables) == Positions(old(tables)) + [p];
      if p !in tablesData {
        tablesData := tablesData + [p];
      }
    }

    /** The build-mode button. */
    method ToggleBuildMode()
      requires Valid()
      modifies this`isBuildMode
      ensures Valid()
      ensures isBuildMode == !old(isBuildMode)
    {
      isBuildMode := !isBuildMode;
    }

    /**
     * A ground click at `p`. Outside build mode, inside the kitchen or the
     * counter, or too close to an edge, nothing happens; otherwise a table
     * is placed and the game saved.
     */
    method PlaceTable(p: Point) returns (written: Option<Snapshot>)
      requires Valid()
      modifies this`tables, this`tablesData
      ensures Valid()
      ensures written.Some? <==> isBuildMode && Placeable(p)
      ensures written.None? ==> tables == old(tables) && tablesData == old(tablesData)
      ensures written.Some? ==>
        tables == old(tables) + [Table(p, 0)] &&
        tablesData == (if p in old(tablesData) then old(tablesData) else old(tablesData) + [p]) &&
        written.value == Persist()
      ensures NoDup(old(tablesData)) ==> NoDup(tablesData)
    {
      if !isBuildMode {
        return None;
      }
      if Contains(Kitchen, p) || Contains(Counter, p) {
        return None;
      }
      if p.x < 80 || p.x > Width - 80 || p.y < 80 || p.y > Height - 60 {
        return None;
      }
      ghost var before := tables;
      SpawnTable(p);
      FitsSameFirst(customers, before, tables);
      written := Some(Persist());
    }

    /**
     * The arrival timer. With more than `PopulationCap` customers in queue
     * and seated together nothing happens; otherwise a new customer with
     * the next id joins the end of the queue, standing in its slot, and
     * its one seating attempt is scheduled.
     */
    method SpawnCustomer()
      requires Valid()
      modifies this`customers, this`queue, this`nextCustomerId, this`seatTimers
      ensures Valid()
      ensures old(|queue| + |seated|) > PopulationCap ==>
        customers == old(customers) && queue == old(queue) && nextCustomerId == old(nextCustomerId) &&
        seatTimers == old(seatTimers)
      ensures old(|queue| + |seated|) <= PopulationCap ==>
        var id := old(nextCustomerId);
        id !in old(customers) && nextCustomerId == id + 1 &&
        queue == old(queue) + [id] &&
        customers == old(customers)[id := Customer(Queued, None, QueueSlot(old(|queue|)))] &&
        seatTimers == old(seatTimers) + {id}
      ensures |queue| + |seated| <= PopulationCap + 1
      ensures forall x :: old(Stranded(x)) ==> Stranded(x)
    {
      if |queue| + |seated| > PopulationCap {
        return;
      }
      SpawnKeeps(customers, queue, seated, tables, nextCustomerId);
      var id := nextCustomerId;
      nextCustomerId := nextCustomerId + 1;
      customers := customers[id := Customer(Queued, None, QueueSlot(|queue|))];
      queue := queue + [id];
      seatTimers := seatTimers + {id};
    }

    /**
     * The one seating attempt after a spawn, fired by the clock once per
     * spawned customer. A customer no longer queued, or a scene without
     * tables, changes nothing. Otherwise the first-fit scan runs over seat
     * lists that every table builds afresh with both seats free, so it
     * always claims seat 0 of the first table: that table's counter grows
     * by one, whatever its capacity, and the customer starts walking while
     * it stays in the queue. A failed attempt is not retried.
     */
    method TrySeat(id: nat)
      requires Valid()
      requires id in seatTimers
      modifies this`tables, this`customers, this`seatTimers
      ensures Valid()
      ensures seatTimers == old(seatTimers) - {id}
      ensures old(customers[id].state) != Queued || old(|tables|) == 0 ==>
        tables == old(tables) && customers == old(customers)
      ensures old(customers[id].state) == Queued && old(|tables|) > 0 ==>
        tables == old(tables)[0 := old(tables[0]).(occupied := old(tables[0].occupied) + 1)] &&
        customers == old(customers)[id := old(customers[id]).(state := WalkingSeat, seat := Some(SeatRef(0, 0)))]
      ensures forall x :: old(Stranded(x)) ==> Stranded(x)
    {
      seatTimers := seatTimers - {id};
      if customers[id].state != Queued {
        return;
      }
      var ts := tables;
      var found := FirstFit(FreshSeatLists(Positions(ts)));
      FreshListsSeatFirst(Positions(ts), found);
      match found
      case None =>
      case Some(ref) =>
        var walking := customers[id].(state := WalkingSeat, seat := Some(ref));
        LinesUpdate(customers, queue, seated, id, walking);
        FitsUpdate(customers, ts, id, walking);
        LaidOutUpdate(customers, queue, id, walking);
        tables := tables[ref.table := tables[ref.table].(occupied := tables[ref.table].occupied + 1)];
        FitsSameFirst(customers[id := walking], ts, tables);
        assert Positions(tables) == Positions(ts);
        customers := customers[id := walking];
    }

    /**
     * Moves every queued customer to the slot of its current queue index;
     * no other customer and no other field changes.
     */
    method RelayoutQueue()
      requires NoDup(queue)
      requires forall id :: id in queue ==> id in customers
      modifies this`customers
      ensures customers.Keys == old(customers).Keys
      ensures forall i :: 0 <= i < |queue| ==>
        customers[queue[i]] == old(customers[queue[i]]).(pos := QueueSlot(i))
      ensures forall id :: id in customers && id !in queue ==> customers[id] == old(customers[id])
      ensures forall id :: id in customers ==>
        customers[id].state == old(customers[id]).state && customers[id].seat == old(customers[id]).seat
    {
      var i := 0;
      while i < |queue|
        invariant 0 <= i <= |queue|
        invariant customers.Keys == old(customers).Keys
        invariant forall k :: 0 <= k < i ==>
          customers[queue[k]] == old(customers[queue[k]]).(pos := QueueSlot(k))
        invariant forall k :: i <= k < |queue| ==> customers[queue[k]] == old(customers[queue[k]])
        invariant forall id :: id in customers && id !in queue ==> customers[id] == old(customers[id])
        invariant forall id :: id in customers ==>
          customers[id].state == old(customers[id]).state && customers[id].seat == old(customers[id]).seat
      {
        var q := queue[i];
        customers := customers[q := customers[q].(pos := QueueSlot(i))];
        i := i + 1;
      }
    }

    /**
     * End of the walk to the seat: the customer is seated at its seat,
     * joins the end of the seated list and leaves the queue; the others
     * keep their order in the queue and move up to their new slots.
     */
    method ArriveAtSeat(id: nat)
      requires Valid()
      requires id in queue && customers[id].state == WalkingSeat
      modifies this`customers, this`queue, this`seated
      ensures Valid()
      ensures seated == old(seated) + [id]
      ensures queue == Without(old(queue), id) && |queue| == old(|queue|) - 1
      ensures multiset(queue) + multiset(seated) == old(multiset(queue) + multiset(seated))
      ensures customers.Keys == old(customers).Keys
      ensures customers[id] == old(customers[id]).(state := Seated, pos := StandPoint(tables[0].pos, 0))
      ensures forall i :: 0 <= i < |queue| ==>
        customers[queue[i]] == old(customers)[queue[i]].(pos := QueueSlot(i))
      ensures forall other :: other in customers && other != id && other !in queue ==>
        customers[other] == old(customers[other])
      ensures forall x :: old(Stranded(x)) ==> Stranded(x)
    {
      TakeSeat(id);
      ghost var before := customers;
      RelayoutQueue();
      RelayoutKeeps(before, customers, queue, seated, tables, tablesData, nextCustomerId);
      forall i | 0 <= i < |queue|
        ensures customers[queue[i]] == old(customers)[queue[i]].(pos := QueueSlot(i))
      {
        assert queue[i] in queue && queue[i] != id;
      }
      forall x | old(Stranded(x)) ensures Stranded(x) {
        assert x != id && customers[x].state == before[x].state;
      }
    }

    /** The list moves of an arrival, before the queue is laid out again. */
    method TakeSeat(id: nat)
      requires Valid()
      requires id in queue && customers[id].state == WalkingSeat
      modifies this`customers, this`queue, this`seated
      ensures Bookkeeping(customers, queue, seated, tables, tablesData, nextCustomerId)
      ensures seated == old(seated) + [id]
      ensures queue == Without(old(queue), id) && |queue| == old(|queue|) - 1
      ensures multiset(queue) + multiset(seated) == old(multiset(queue) + multiset(seated))
      ensures 0 < |tables| &&
        customers == old(customers)[id := old(customers[id]).(state := Seated, pos := StandPoint(tables[0].pos, 0))]
    {
      var c := customers[id];
      assert CustomerFits(c, tables);
      var s := c.seat.value;
      var arrived := c.(state := Seated, pos := StandPoint(tables[s.table].pos, s.idx));
      ArriveKeeps(customers, queue, seated, tables, tablesData, nextCustomerId, id, arrived);
      WithoutLength(queue, id);
      customers := customers[id := arrived];
      seated := seated + [id];
      queue := Without(queue, id);
    }

    /** The cook button: one more pizza, then a save. */
    method CookPizza() returns (written: Snapshot)
      requires Valid()
      modifies this`pizza
      ensures Valid()
      ensures pizza == old(pizza) + 1 && coins == old(coins)
      ensures old(pizza) >= 0 ==> pizza >= 0
      ensures written == Persist()
    {
      pizza := pizza + 1;
      written := Persist();
    }

    /**
     * The serve button. Without pizza, or with nobody seated, nothing
     * happens. Otherwise one pizza is used and the seated customer nearest
     * to the counter (the earliest in the seated list among equals) starts
     * eating, whatever state it was in. Since every seated customer stands
     * at the same seat, that is always the first customer in the list.
     */
    method ServeNearest() returns (served: Option<nat>)
      requires Valid()
      modifies this`pizza, this`customers
      ensures Valid()
      ensures served.None? <==> old(pizza) <= 0 || old(|seated|) == 0
      ensures old(pizza) >= 0 ==> pizza >= 0
      ensures served.None? ==>
        pizza == old(pizza) && customers == old(customers)
      ensures served.Some? ==>
        var id := served.value;
        id in old(seated) && pizza == old(pizza) - 1 &&
        (forall other :: other in old(seated) ==>
           CounterDistance(old(customers[id].pos)) <= CounterDistance(old(customers[other].pos))) &&
        customers == old(customers)[id := old(customers[id]).(state := Eating)]
      ensures served.Some? ==> served.value == old(seated[0])
      ensures forall x :: old(Stranded(x)) ==> Stranded(x)
    {
      if pizza <= 0 {
        return None;
      }
      if |seated| == 0 {
        return None;
      }
      var cs, sd := customers, seated;
      var ps := seq(|sd|, i requires 0 <= i < |sd| => if sd[i] in cs then cs[sd[i]].pos else Point(0, 0));
      var k := NearestIndex(ps);
      var id := seated[k];
      forall other | other in seated
        ensures CounterDistance(customers[id].pos) <= CounterDistance(customers[other].pos)
      {
        var j :| 0 <= j < |seated| && seated[j] == other;
        assert ps[j] == customers[other].pos;
      }
      var eating := customers[id].(state := Eating);
      LinesUpdate(customers, queue, seated, id, eating);
      FitsUpdate(customers, tables, id, eating);
      LaidOutUpdate(customers, queue, id, eating);
      pizza := pizza - 1;
      customers := customers[id := eating];
      served := Some(id);
    }

    /**
     * End of a meal: the payout is added to the coins, the seat's table
     * counter drops by one (the seat list itself is not touched), and the
     * customer starts walking out.
     */
    method FinishEating(id: nat, earn: int)
      requires Valid()
      requires id in customers && customers[id].state.Served()
      requires MinPayout <= earn <= MaxPayout
      modifies this`coins, this`tables, this`customers
      ensures Valid()
      ensures coins == old(coins) + earn
      ensures old(customers[id].seat).Some? &&
        var t := old(customers[id].seat.value.table);
        t < |tables| &&
        tables == old(tables)[t := old(tables[t]).(occupied := old(tables[t].occupied) - 1)]
      ensures customers == old(customers)[id := old(customers[id]).(state := Leaving)]
      ensures forall x :: old(Stranded(x)) ==> Stranded(x)
    {
      coins := coins + earn;
      var c := customers[id];
      var leaving := c.(state := Leaving);
      LinesUpdate(customers, queue, seated, id, leaving);
      FitsUpdate(customers, tables, id, leaving);
      LaidOutUpdate(customers, queue, id, leaving);
      if c.seat.Some? {
        var t := c.seat.value.table;
        ghost var ts := tables;
        tables := tables[t := tables[t].(occupied := tables[t].occupied - 1)];
        FitsSameFirst(customers[id := leaving], ts, tables);
        assert Positions(tables) == Positions(ts);
      }
      customers := customers[id := leaving];
    }

    /**
     * End of the exit walk: the customer leaves the seated list and the game
     * is saved; the queue, the tables and the economy are untouched.
     */
    method FinishLeaving(id: nat) returns (written: Snapshot)
      requires Valid()
      requires id in customers && customers[id].state.Served()
      modifies this`seated
      ensures Valid()
      ensures seated == Without(old(seated), id) && id !in seated
      ensures |seated| == old(|seated|) - (if id in old(seated) then 1 else 0)
      ensures queue == old(queue) && coins == old(coins) && pizza == old(pizza) && tables == old(tables)
      ensures written == Persist()
    {
      WithoutLength(seated, id);
      LinesLeave(customers, queue, seated, id);
      seated := Without(seated, id);
      written := Persist();
    }
  }
}
