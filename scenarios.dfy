/**
 * Whole play sessions driven through the scene's callbacks, each ending in
 * a state fixed by the contracts of the callbacks alone.
 */
module Scenarios {
  import opened Wrappers
  import opened Lists
  import opened Layout
  import opened Seating
  import opened Persistence
  import opened Roster
  import opened Game

  /** A free spot on the floor, clear of the kitchen, the counter and the edges. */
  const Floor: Point := Point(500, 300)

  /** A first launch with one table placed in build mode. */
  method FirstTable() returns (scene: GameScene)
    ensures fresh(scene) && scene.Valid()
    ensures scene.coins == 0 && scene.pizza == 0
    ensures |scene.tables| == 1 && scene.tables[0] == Table(Floor, 0)
    ensures scene.tablesData == [Floor]
    ensures scene.customers == map[] && scene.queue == [] && scene.seated == []
    ensures scene.nextCustomerId == 1 && scene.seatTimers == {}
  {
    scene := new GameScene(NoSave);
    scene.ToggleBuildMode();
    var written := scene.PlaceTable(Floor);
    assert written.Some?;
  }

  /** The first customer arrives and is sent to the table. */
  method FirstGuestWalking() returns (scene: GameScene)
    ensures fresh(scene) && scene.Valid()
    ensures scene.coins == 0 && scene.pizza == 0
    ensures scene.tables == [Table(Floor, 1)]
    ensures scene.queue == [1] && scene.seated == [] && scene.seatTimers == {}
    ensures 1 in scene.customers && scene.customers[1].state == WalkingSeat
  {
    scene := FirstTable();
    scene.SpawnCustomer();
    scene.TrySeat(1);
  }

  /** The first customer arrives, is sent to the table and sits down. */
  method FirstGuestSeated() returns (scene: GameScene)
    ensures fresh(scene) && scene.Valid()
    ensures scene.coins == 0 && scene.pizza == 0
    ensures scene.tables == [Table(Floor, 1)]
    ensures scene.queue == [] && scene.seated == [1]
    ensures 1 in scene.customers && scene.customers[1].state == Seated
  {
    scene := FirstGuestWalking();
    scene.ArriveAtSeat(1);
  }

  /**
   * One customer from arrival to exit: the customer is seated, a pizza is
   * cooked and served, the customer pays `earn` and leaves. The pizza is
   * used up, the table is free again and both lists are empty.
   */
  method FullVisit(earn: int) returns (scene: GameScene)
    requires MinPayout <= earn <= MaxPayout
    ensures scene.Valid()
    ensures scene.coins == earn && scene.pizza == 0
    ensures scene.tables == [Table(Floor, 0)]
    ensures scene.queue == [] && scene.seated == []
    ensures 1 in scene.customers && scene.customers[1].state == Leaving
  {
    scene := FirstGuestSeated();
    var _ := scene.CookPizza();
    var served := scene.ServeNearest();
    assert served == Some(1);
    scene.FinishEating(1, earn);
    var _ := scene.FinishLeaving(1);
  }

  /**
   * A newcomer spawned into a scene with a table is sent straight to seat
   * 0 of the first table, whose counter grows by one.
   */
  method SendNewcomer(scene: GameScene) returns (id: nat)
    requires scene.Valid() && 0 < |scene.tables|
    requires |scene.queue| + |scene.seated| <= PopulationCap
    modifies scene
    ensures scene.Valid()
    ensures id == old(scene.nextCustomerId) && scene.nextCustomerId == id + 1
    ensures |scene.tables| == old(|scene.tables|)
    ensures scene.tables[0].occupied == old(scene.tables[0].occupied) + 1
    ensures |scene.queue| == old(|scene.queue|) + 1 && scene.seated == old(scene.seated)
    ensures id in scene.customers && scene.customers[id].seat == Some(SeatRef(0, 0))
    ensures forall x :: x in old(scene.customers) ==>
      x in scene.customers && scene.customers[x].seat == old(scene.customers[x].seat)
  {
    id := scene.nextCustomerId;
    scene.SpawnCustomer();
    scene.TrySeat(id);
  }

  /**
   * Three customers in a row at a scene with one two-seat table: every one
   * of them is sent to seat 0 of that table, whose counter reaches three.
   */
  method Overcommit() returns (scene: GameScene)
    ensures scene.Valid()
    ensures |scene.tables| == 1 && scene.tables[0].occupied == 3 > Capacity
    ensures forall id :: 1 <= id <= 3 ==>
      id in scene.customers && scene.customers[id].seat == Some(SeatRef(0, 0))
  {
    scene := FirstTable();
    var a := SendNewcomer(scene);
    var b := SendNewcomer(scene);
    var c := SendNewcomer(scene);
    assert a == 1 && b == 2 && c == 3;
  }

  /**
   * Arrivals at a scene without tables, each followed by its seating
   * attempt, which finds nothing: every customer stays queued with no
   * attempt to come, and the guard only skips a spawn once more than the
   * cap are present.
   */
  method FillQueue(scene: GameScene, spawns: nat)
    requires scene.Valid()
    requires scene.tables == [] && scene.customers == map[] && scene.queue == [] && scene.seated == []
    requires scene.seatTimers == {}
    modifies scene
    ensures scene.Valid()
    ensures scene.tables == old(scene.tables) && scene.tablesData == old(scene.tablesData)
    ensures scene.isBuildMode == old(scene.isBuildMode)
    ensures |scene.queue| == if spawns <= PopulationCap + 1 then spawns else PopulationCap + 1
    ensures scene.seated == []
    ensures forall id :: id in scene.queue ==> scene.Stranded(id)
  {
    var n := 0;
    while n < spawns
      invariant 0 <= n <= spawns
      invariant scene.Valid() && scene.tables == [] && scene.seated == [] && scene.seatTimers == {}
      invariant scene.tablesData == old(scene.tablesData) && scene.isBuildMode == old(scene.isBuildMode)
      invariant |scene.queue| == if n <= PopulationCap + 1 then n else PopulationCap + 1
      invariant forall id :: id in scene.customers ==> scene.customers[id].state == Queued
    {
      var id := scene.nextCustomerId;
      scene.SpawnCustomer();
      if id in scene.seatTimers {
        scene.TrySeat(id);
      }
      n := n + 1;
    }
  }

  /** With no table, `spawns` arrivals queue up to one more than the cap. */
  method Crowd(spawns: nat) returns (scene: GameScene)
    ensures scene.Valid()
    ensures |scene.queue| == if spawns <= PopulationCap + 1 then spawns else PopulationCap + 1
    ensures scene.seated == []
  {
    scene := new GameScene(NoSave);
    FillQueue(scene, spawns);
  }

  /**
   * A table placed only after the queue is full comes too late: every
   * queued customer's one attempt has already failed, the full queue makes
   * the guard skip every further arrival, and nobody is left to take the
   * table. Stranded customers stay stranded through every callback, and
   * only a walking customer ever leaves the queue, so the restaurant stays
   * this way.
   */
  method LateTable() returns (scene: GameScene)
    ensures scene.Valid()
    ensures scene.tables == [Table(Floor, 0)]
    ensures |scene.queue| == PopulationCap + 1 && scene.seated == [] && scene.seatTimers == {}
    ensures forall id :: id in scene.queue ==> scene.Stranded(id)
  {
    scene := new GameScene(NoSave);
    FillQueue(scene, PopulationCap + 1);
    scene.ToggleBuildMode();
    var written := scene.PlaceTable(Floor);
    assert written.Some?;
    scene.SpawnCustomer();
  }

  /**
   * The serve button pressed twice before the meal ends: both presses
   * pick the one seated customer and each uses a pizza.
   */
  method ServedTwice() returns (scene: GameScene)
    ensures fresh(scene) && scene.Valid()
    ensures scene.coins == 0 && scene.pizza == 0
    ensures scene.tables == [Table(Floor, 1)]
    ensures 1 in scene.customers && scene.customers[1].state == Eating
  {
    scene := FirstGuestSeated();
    var _ := scene.CookPizza();
    var _ := scene.CookPizza();
    var first := scene.ServeNearest();
    var second := scene.ServeNearest();
    assert first == second == Some(1);
  }

  /**
   * Both meals of a customer served twice pay out and release the seat;
   * with no other claim on the table, its counter drops below zero.
   */
  method DoubleServe(earn1: int, earn2: int) returns (scene: GameScene)
    requires MinPayout <= earn1 <= MaxPayout && MinPayout <= earn2 <= MaxPayout
    ensures scene.Valid()
    ensures scene.coins == earn1 + earn2 && scene.pizza == 0
    ensures scene.tables == [Table(Floor, -1)]
  {
    scene := ServedTwice();
    scene.FinishEating(1, earn1);
    scene.FinishEating(1, earn2);
  }

  /**
   * Two build-mode clicks on the same spot: the layout records the spot
   * once, but both live tables are saved, so a reload starts from a
   * layout that names the spot twice.
   */
  method DuplicateLayout() returns (reloaded: GameScene)
    ensures reloaded.Valid()
    ensures reloaded.tablesData == [Floor, Floor] && !NoDup(reloaded.tablesData)
    ensures reloaded.tables == [Table(Floor, 0), Table(Floor, 0)]
  {
    var scene := new GameScene(NoSave);
    scene.ToggleBuildMode();
    var first := scene.PlaceTable(Floor);
    var second := scene.PlaceTable(Floor);
    assert first.Some? && second.Some?;
    assert scene.tablesData == [Floor];
    assert Positions(scene.tables) == [Floor, Floor];
    reloaded := new GameScene(Stored(scene.Persist()));
    assert reloaded.tablesData[0] == reloaded.tablesData[1];
  }

  /** Build-mode clicks on the kitchen or the counter place nothing. */
  method ClickOnFixtures() returns (scene: GameScene)
    ensures scene.Valid() && scene.isBuildMode
    ensures scene.tables == [] && scene.tablesData == []
  {
    scene := new GameScene(NoSave);
    scene.ToggleBuildMode();
    var kitchen := scene.PlaceTable(Point(120, 120));
    var counter := scene.PlaceTable(Point(350, 170));
    assert kitchen == None && counter == None;
  }

  /**
   * Reloading from what a save writes restores the coins, the pizza and a
   * free table at every saved position, with nobody in the restaurant.
   */
  method Reload(scene: GameScene) returns (reloaded: GameScene)
    requires scene.Valid()
    ensures reloaded.Valid()
    ensures reloaded.coins == scene.coins && reloaded.pizza == scene.pizza
    ensures Positions(reloaded.tables) == Positions(scene.tables)
    ensures forall j :: 0 <= j < |reloaded.tables| ==> reloaded.tables[j].occupied == 0
    ensures reloaded.queue == [] && reloaded.seated == []
  {
    reloaded := new GameScene(Stored(scene.Persist()));
  }
}
