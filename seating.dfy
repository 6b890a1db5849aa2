/**
 * Seat allocation: the per-table seat list a table reports and the
 * first-fit scan over the tables in placement order.
 */
module Seating {
  import opened Wrappers
  import opened Layout

  /** One entry of a table's seat list: where the seat is and whether it is taken. */
  datatype SeatSlot = SeatSlot(pos: Point, occupied: bool)

  /** A claimed seat: index of the table in placement order and seat index on it. */
  datatype SeatRef = SeatRef(table: nat, idx: nat)

  /**
   * The seat list a table at `t` reports. It is built afresh on every
   * request, so both seats always read as free.
   */
  function WorldSeatPos(t: Point): seq<SeatSlot>
  {
    [SeatSlot(SeatCentre(t, 0), false), SeatSlot(SeatCentre(t, 1), false)]
  }

  /** `seats.findIndex(s => !s.occupied)`: the first free seat, or -1. */
  function FindFree(seats: seq<SeatSlot>): (k: int)
    ensures -1 <= k < |seats|
    ensures k >= 0 ==> !seats[k].occupied && forall s :: 0 <= s < k ==> seats[s].occupied
    ensures k < 0 ==> forall s :: 0 <= s < |seats| ==> seats[s].occupied
  {
    if |seats| == 0 then -1
    else if !seats[0].occupied then 0
    else
      var k := FindFree(seats[1..]);
      if k < 0 then -1 else k + 1
  }

  /**
   * `r` is the first-fit choice over `tables`: the first free seat, tables
   * in order and seats of each table in order, or `None` exactly when every
   * seat is taken.
   */
  ghost predicate IsFirstFit(tables: seq<seq<SeatSlot>>, r: Option<SeatRef>)
  {
    match r
    case None =>
      forall j, s :: 0 <= j < |tables| && 0 <= s < |tables[j]| ==> tables[j][s].occupied
    case Some(ref) =>
      var t, k := ref.table, ref.idx;
      t < |tables| && k < |tables[t]| && !tables[t][k].occupied &&
      (forall s :: 0 <= s < k ==> tables[t][s].occupied) &&
      (forall j, s :: 0 <= j < t && 0 <= s < |tables[j]| ==> tables[j][s].occupied)
  }

  /** The seat lists of tables placed at `ps`, as each table reports them. */
  function FreshSeatLists(ps: seq<Point>): seq<seq<SeatSlot>>
  {
    seq(|ps|, j requires 0 <= j < |ps| => WorldSeatPos(ps[j]))
  }

  /**
   * Over seat lists that every table reports with both seats free, first
   * fit finds nothing without tables and otherwise always seat 0 of the
   * first table.
   */
  lemma FreshListsSeatFirst(ps: seq<Point>, r: Option<SeatRef>)
    requires IsFirstFit(FreshSeatLists(ps), r)
    ensures |ps| == 0 <==> r.None?
    ensures 0 < |ps| ==> r == Some(SeatRef(0, 0))
  {
    var lists := FreshSeatLists(ps);
    if 0 < |ps| {
      assert lists[0] == WorldSeatPos(ps[0]) && !lists[0][0].occupied;
    }
  }

  /** First-fit scan over the tables in placement order. */
  method FirstFit(tables: seq<seq<SeatSlot>>) returns (r: Option<SeatRef>)
    ensures IsFirstFit(tables, r)
  {
    var i := 0;
    while i < |tables|
      invariant 0 <= i <= |tables|
      invariant forall j, s :: 0 <= j < i && 0 <= s < |tables[j]| ==> tables[j][s].occupied
    {
      var free := FindFree(tables[i]);
      if free >= 0 {
        return Some(SeatRef(i, free));
      }
      i := i + 1;
    }
    return None;
  }
}
