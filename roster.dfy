/**
 * The scene's records — customers and tables — and the consistency
 * conditions that every callback of the scene keeps: what the queue and
 * seated lists hold, which seat a customer holds and where customers
 * stand. Each condition is a
 * predicate over plain values, with a lemma per kind of change that keeps
 * it.
 */
module Roster {
  import opened Wrappers
  import opened Lists
  import opened Layout
  import opened Seating

  /** Lifecycle of a customer; a customer removed from every list stays in its last state. */
  datatype CustomerState = Queued | WalkingSeat | Seated | Eating | Leaving {
    /** The states of a customer in the queue list. */
    predicate InLine() { Queued? || WalkingSeat? }
    /** The states of a customer in the seated list. */
    predicate AtTable() { Seated? || Eating? || Leaving? }
    /** The states of a customer that has been served at least once. */
    predicate Served() { Eating? || Leaving? }
  }

  /** The per-customer record: lifecycle state, claimed seat, and where it stands. */
  datatype Customer = Customer(state: CustomerState, seat: Option<SeatRef>, pos: Point)

  /** A placed table: its position and its occupied-seat counter. */
  datatype Table = Table(pos: Point, occupied: int)

  /** The position of every table, in placement order. */
  function Positions(ts: seq<Table>): seq<Point>
  {
    seq(|ts|, j requires 0 <= j < |ts| => ts[j].pos)
  }

  /** A spawn is skipped once queue and seated together hold more than this many. */
  const PopulationCap: int := 12

  /** Ids are handed out from 1 upwards, and every id handed out has a record. */
  ghost predicate Registry(customers: map<nat, Customer>, nextId: nat)
  {
    1 <= nextId && forall id :: id in customers <==> 1 <= id < nextId
  }

  /**
   * The queue and seated lists: duplicate-free, disjoint, made of known
   * customers in the matching states, no queued customer missing from the
   * queue, and at most one more than the population cap in all.
   */
  ghost predicate Lines(customers: map<nat, Customer>, queue: seq<nat>, seated: seq<nat>)
  {
    NoDup(queue) && NoDup(seated) &&
    (forall id :: id in queue ==> id in customers && id !in seated && customers[id].state.InLine()) &&
    (forall id :: id in seated ==> id in customers && customers[id].state.AtTable()) &&
    (forall id :: id in customers && customers[id].state == Queued ==> id in queue) &&
    |queue| + |seated| <= PopulationCap + 1
  }

  /**
   * One customer against the tables: a seat is held exactly when the
   * customer has left the queued state, it is always seat 0 of the first
   * table, and a customer that has reached it stands there.
   */
  ghost predicate CustomerFits(c: Customer, tables: seq<Table>)
  {
    (c.seat.None? <==> c.state == Queued) &&
    (c.seat.Some? ==> c.seat.value == SeatRef(0, 0) && 0 < |tables|) &&
    (c.state.AtTable() ==> 0 < |tables| && c.pos == StandPoint(tables[0].pos, 0))
  }

  ghost predicate Fits(customers: map<nat, Customer>, tables: seq<Table>)
  {
    forall id :: id in customers ==> CustomerFits(customers[id], tables)
  }

  /** Only the first table's counter ever moves. */
  ghost predicate OnlyFirstTableUsed(tables: seq<Table>)
  {
    forall j :: 0 < j < |tables| ==> tables[j].occupied == 0
  }

  /** The customer at queue index `i` stands in slot `i`. */
  ghost predicate QueueLaidOut(customers: map<nat, Customer>, queue: seq<nat>)
  {
    forall i :: 0 <= i < |queue| ==> queue[i] in customers && customers[queue[i]].pos == QueueSlot(i)
  }

  /** The saved layout and the live tables hold the same positions. */
  ghost predicate SameLayout(tablesData: seq<Point>, tables: seq<Table>)
  {
    forall p :: p in tablesData <==> p in Positions(tables)
  }

  /** Every condition above except where queued customers stand. */
  ghost predicate Bookkeeping(customers: map<nat, Customer>, queue: seq<nat>, seated: seq<nat>,
                              tables: seq<Table>, tablesData: seq<Point>, nextId: nat)
  {
    Registry(customers, nextId) &&
    Lines(customers, queue, seated) &&
    Fits(customers, tables) &&
    OnlyFirstTableUsed(tables) &&
    SameLayout(tablesData, tables)
  }

  /** Every condition above, over the scene's fields. */
  ghost predicate Consistent(customers: map<nat, Customer>, queue: seq<nat>, seated: seq<nat>,
                             tables: seq<Table>, tablesData: seq<Point>, nextId: nat)
  {
    Bookkeeping(customers, queue, seated, tables, tablesData, nextId) &&
    QueueLaidOut(customers, queue)
  }

  /**
   * However long the queue grows, every queued customer stands on the
   * floor, clear of the kitchen and the counter, and no two of them share a
   * spot.
   */
  lemma QueueStandsOnFloor(customers: map<nat, Customer>, queue: seq<nat>, seated: seq<nat>)
    requires Lines(customers, queue, seated) && QueueLaidOut(customers, queue)
    ensures forall id :: id in queue ==>
      var p := customers[id].pos;
      WithinMargins(p) && !Contains(Kitchen, p) && !Contains(Counter, p)
    ensures forall i, j :: 0 <= i < j < |queue| ==> customers[queue[i]].pos != customers[queue[j]].pos
  {
    forall id | id in queue
      ensures WithinMargins(customers[id].pos) &&
        !Contains(Kitchen, customers[id].pos) && !Contains(Counter, customers[id].pos)
    {
      var i :| 0 <= i < |queue| && queue[i] == id;
      assert i <= PopulationCap;
    }
    forall i, j | 0 <= i < j < |queue| ensures customers[queue[i]].pos != customers[queue[j]].pos {
      QueueSlotsApart(i, j);
    }
  }

  /** A new queued customer with a fresh id, standing in the next slot, keeps every condition. */
  lemma SpawnKeeps(customers: map<nat, Customer>, queue: seq<nat>, seated: seq<nat>, tables: seq<Table>,
                   nextId: nat)
    requires Registry(customers, nextId) && Lines(customers, queue, seated) && Fits(customers, tables)
    requires QueueLaidOut(customers, queue)
    requires |queue| + |seated| <= PopulationCap
    ensures var cs := customers[nextId := Customer(Queued, None, QueueSlot(|queue|))];
      nextId !in customers &&
      Registry(cs, nextId + 1) && Lines(cs, queue + [nextId], seated) && Fits(cs, tables) &&
      QueueLaidOut(cs, queue + [nextId])
  {
    var cs := customers[nextId := Customer(Queued, None, QueueSlot(|queue|))];
    var q := queue + [nextId];
    assert nextId !in customers;
    forall i, j | 0 <= i < j < |q| ensures q[i] != q[j] {
      if j == |queue| { assert q[i] in queue; }
    }
    forall i | 0 <= i < |q| ensures q[i] in cs && cs[q[i]].pos == QueueSlot(i) {
      if i < |queue| { assert q[i] in queue; }
    }
  }

  /** Changing one customer's record keeps the lists consistent when its new state fits its list. */
  lemma LinesUpdate(customers: map<nat, Customer>, queue: seq<nat>, seated: seq<nat>, id: nat, c: Customer)
    requires Lines(customers, queue, seated) && id in customers
    requires id in queue ==> c.state.InLine()
    requires id in seated ==> c.state.AtTable()
    requires c.state == Queued ==> id in queue
    ensures Lines(customers[id := c], queue, seated)
  {
  }

  /** Changing one customer's record to one that fits the tables keeps all records fitting. */
  lemma FitsUpdate(customers: map<nat, Customer>, tables: seq<Table>, id: nat, c: Customer)
    requires Fits(customers, tables) && CustomerFits(c, tables)
    ensures Fits(customers[id := c], tables)
  {
  }

  /** Records fit any table list with the same first table. */
  lemma FitsSameFirst(customers: map<nat, Customer>, tables: seq<Table>, tables': seq<Table>)
    requires Fits(customers, tables)
    requires 0 < |tables| ==> 0 < |tables'| && tables'[0].pos == tables[0].pos
    ensures Fits(customers, tables')
  {
    forall id | id in customers ensures CustomerFits(customers[id], tables') {
      assert CustomerFits(customers[id], tables);
    }
  }

  /** Changing one customer's record without moving it keeps the queue laid out. */
  lemma LaidOutUpdate(customers: map<nat, Customer>, queue: seq<nat>, id: nat, c: Customer)
    requires QueueLaidOut(customers, queue) && id in customers && c.pos == customers[id].pos
    ensures QueueLaidOut(customers[id := c], queue)
  {
  }

  /** A walking customer that reaches its seat moves from the queue to the end of the seated list. */
  lemma LinesArrive(customers: map<nat, Customer>, queue: seq<nat>, seated: seq<nat>, id: nat, c: Customer)
    requires Lines(customers, queue, seated) && id in queue && c.state == Seated
    ensures Lines(customers[id := c], Without(queue, id), seated + [id])
  {
    WithoutLength(queue, id);
    WithoutNoDup(queue, id);
    var q', s', cs' := Without(queue, id), seated + [id], customers[id := c];
    assert id !in seated;
    forall i, j | 0 <= i < j < |s'| ensures s'[i] != s'[j] {
      if j == |seated| { assert s'[i] in seated; }
    }
    forall x | x in cs' && cs'[x].state == Queued ensures x in q' {
      assert x != id && x in queue;
    }
  }

  /**
   * Moving only the queued customers, each to the slot of its index, keeps
   * the bookkeeping and lays the queue out.
   */
  lemma RelayoutKeeps(customers: map<nat, Customer>, customers': map<nat, Customer>, queue: seq<nat>,
                      seated: seq<nat>, tables: seq<Table>, tablesData: seq<Point>, nextId: nat)
    requires Bookkeeping(customers, queue, seated, tables, tablesData, nextId)
    requires customers'.Keys == customers.Keys
    requires forall i :: 0 <= i < |queue| ==> customers'[queue[i]] == customers[queue[i]].(pos := QueueSlot(i))
    requires forall id :: id in customers ==>
      customers'[id].state == customers[id].state && customers'[id].seat == customers[id].seat
    requires forall id :: id in customers && id !in queue ==> customers'[id] == customers[id]
    ensures Consistent(customers', queue, seated, tables, tablesData, nextId)
  {
    forall id | id in customers' ensures CustomerFits(customers'[id], tables) {
      assert CustomerFits(customers[id], tables);
      if id in queue {
        assert customers[id].state.InLine();
      }
    }
  }

  /**
   * A walking customer `id` reaching its seat: it is seated where its seat
   * is, and moves from the queue to the end of the seated list. Everything
   * but the queue layout still holds.
   */
  lemma ArriveKeeps(customers: map<nat, Customer>, queue: seq<nat>, seated: seq<nat>, tables: seq<Table>,
                    tablesData: seq<Point>, nextId: nat, id: nat, arrived: Customer)
    requires Consistent(customers, queue, seated, tables, tablesData, nextId)
    requires id in queue && customers[id].state == WalkingSeat
    requires customers[id].seat.Some? && 0 < |tables|
    requires arrived == customers[id].(state := Seated, pos := StandPoint(tables[0].pos, 0))
    ensures Bookkeeping(customers[id := arrived], Without(queue, id), seated + [id], tables, tablesData, nextId)
  {
    assert CustomerFits(customers[id], tables);
    LinesArrive(customers, queue, seated, id, arrived);
    FitsUpdate(customers, tables, id, arrived);
  }

  /** A customer that finishes leaving drops out of the seated list. */
  lemma LinesLeave(customers: map<nat, Customer>, queue: seq<nat>, seated: seq<nat>, id: nat)
    requires Lines(customers, queue, seated)
    ensures Lines(customers, queue, Without(seated, id))
  {
    WithoutNoDup(seated, id);
  }
}
