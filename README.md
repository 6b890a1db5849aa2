# Mini restaurant scene — a Dafny model

This project models the game scene of a small browser restaurant game
(`main.js`, class `GameScene`). Customers arrive at the door on a timer and
line up in a queue. Each arrival makes one attempt to claim a seat at a
placed table. Once seated, a customer can be served a pizza, pays after a
meal, and walks out. The player cooks pizzas, serves the seated customer
nearest to the counter, and, in build mode, places two-seat tables by
clicking the floor. Coins, pizza stock and table positions are saved after
cooking, after placing a table and after a customer leaves.

The model is imperative, like the scene. `Game.GameScene` is a class whose
fields are the scene's own: `coins`, `pizza`, `tablesData`, `isBuildMode`,
the live `tables`, the `queue` and `seated` lists, and `nextCustomerId`.
One more field, `seatTimers`, stands for the scene clock's pending events.
It holds the customers whose seating attempt, scheduled at spawn, has not
fired yet. Each handler, timer callback and tween completion of the scene
is one method with a `modifies` frame of exactly the fields it writes.
`TrySeat` can only fire for a customer with a pending attempt, and it uses
that attempt up. So a customer left queued after its attempt
(`GameScene.Stranded`) stays queued through every later callback.

Customers are display objects that carry a `meta` record. The model keeps
these records in a map from customer id to `Customer`, and the two lists
hold ids. A customer removed from the seated list stays in the map, because
the scene's callbacks still hold a reference to it.

Every scene callback keeps `Valid()`: the constructor, `ToggleBuildMode`,
`PlaceTable`, `SpawnCustomer`, `TrySeat`, `ArriveAtSeat`, `CookPizza`,
`ServeNearest`, `FinishEating` and `FinishLeaving`. `TakeSeat` and
`RelayoutQueue` are the two halves of `ArriveAtSeat`: `TakeSeat` keeps only
`Bookkeeping` (the queue is not laid out again until `RelayoutQueue` runs),
and `RelayoutQueue`, like the start-up helpers `SpawnTable` and
`RestoreTables`, makes no `Valid()` claim of its own. `Valid()` bundles the
following conditions:
- ids are handed out from 1 upwards;
- the queue and the seated list are duplicate-free, disjoint, and match
  the customers' states;
- a customer holds a seat exactly when it is no longer queued, and that
  seat is always seat 0 of the first table;
- only the first table's counter ever moves;
- each queued customer stands in the slot of its queue index;
- the saved layout and the live tables hold the same positions;
- every pending seating attempt belongs to a known customer.

Module layout:
- `Lists`: the `filter` used to drop a customer from a list, and its
  properties.
- `Layout`: the field's geometry (kitchen, counter, margins, queue slots,
  seat positions) and the nearest-to-counter choice.
- `Seating`: the seat list a table reports, and the first-fit scan.
- `Persistence`: the save record as written, and as read back.
- `Roster`: the customer and table records, the consistency conditions,
  and the lemmas that keep them.
- `Game`: the scene.
- `Scenarios`: whole sessions driven through the scene's methods.

## Behaviour of the code against its own comments

The code's comments describe two-seat tables (`main.js:7`, and
`capacity: 2` at `main.js:105`) and a concurrency limit on arrivals
(`main.js:122`). The model follows what the code does:

- **Seat claims.** A table's seat list is rebuilt with both seats free on
  every request (`main.js:108-111`). Marking a seat taken therefore changes
  nothing that a later scan reads. As a result, every seating attempt at a
  scene with tables claims seat 0 of the first table (`GameScene.TrySeat`).
- **Seat capacity.** The first table's counter is not bounded by the
  capacity of 2. It reaches 3 after three arrivals (`Scenarios.Overcommit`).
- **Negative seat counter.** Serving a customer who is already eating
  schedules a second payout and a second release. This can drive the
  counter below zero (`Scenarios.DoubleServe`).
- **Population cap.** The spawn guard skips only when queue and seated
  together exceed 12. So they reach 13 (`Scenarios.Crowd`).
- **One attempt per arrival.** A customer whose single seating attempt
  finds no table is never tried again. If the queue fills before the first
  table is placed, nobody is ever seated (`Scenarios.LateTable`).
- **Duplicate layout after a reload.** Placing a table checks the recorded
  layout for the exact position (`main.js:117`), but a save writes the
  position of every live table (`main.js:244`). Two clicks on one spot
  therefore save that spot twice, and a reload starts from a layout that
  holds it twice (`Scenarios.DuplicateLayout`). A duplicate-free layout
  stays duplicate-free only until such a save is read back.

Within the model, every customer at a table stands at seat 0 of the first
table, so the nearest seated customer is always the first in the seated
list (`GameScene.ServeNearest`). The game need not agree: there a leaving
customer walks off during a tween while it is still in the seated list.

## Model

| member | source | states |
|---|---|---|
| Lists.Without | main.js:162 | `filter(x => x !== g)`: the result holds every element except `g`, with the same multiplicities, and nothing else |
| Lists.WithoutIndex | main.js:162 | filtering keeps the order: an element after `g` moves up by one index, one before it keeps its index |
| Lists.WithoutLength | main.js:222 | on a duplicate-free list, filtering out a present element shortens it by exactly one; filtering out an absent one changes nothing |
| Lists.WithoutNoDup | main.js:222 | filtering keeps a list duplicate-free |
| Layout.NearestIndex | main.js:194-199 | the head of the stable sort by distance to the counter: a minimum of the distance, before which every element is strictly farther |
| Layout.ContainsMatchesBounds | main.js:74-75 | for the even-sized kitchen and counter, the closed containment of `Layout.Contains` is the engine's test on the bounds given by corner and size |
| Layout.MarginsKeepTableOnField | main.js:77 | a click within the margins puts the whole 64x36 table top (`TableTop`, drawn at main.js:100) and both radius-12 seat circles on the 960x540 field |
| Layout.QueueSlotsApart | main.js:134 | a later queue index stands in the same column, at least one 28 px step further up |
| Layout.SquaredDistanceOrder | main.js:195-197 | comparing squared distances to the counter orders customers as comparing their distances does |
| Seating.FreshListsSeatFirst | main.js:108-111 | over seat lists reported with both seats free, first fit finds nothing exactly when there are no tables, and otherwise always seat 0 of the first table |
| Seating.FindFree | main.js:148 | `findIndex(s => !s.occupied)`: the first free seat, with every earlier seat taken, or -1 exactly when all are taken |
| Seating.FirstFit | main.js:145-168 | tables in order, seats in order: the first free seat found, with every earlier table full; none exactly when every seat is taken |
| Roster.QueueStandsOnFloor | main.js:134 | every queued customer stands within the margins, clear of the kitchen and the counter, and no two share a spot |
| Roster.SpawnKeeps | main.js:123-135 | below the cap, a fresh id queued in the next slot keeps ids, lists, seats and queue layout consistent |
| Roster.LinesArrive | main.js:159-162 | moving the arriving customer from the queue to the end of the seated list keeps both lists duplicate-free and disjoint and keeps every queued customer in the queue |
| Roster.ArriveKeeps | main.js:159-162 | a walking customer seated at its seat and moved between the lists keeps every condition except the queue layout |
| Roster.RelayoutKeeps | main.js:172-176 | moving only the queued customers, each to the slot of its index, restores the whole invariant |
| Roster.LinesLeave | main.js:222 | dropping a customer from the seated list keeps the lists consistent |
| Game.GameScene.Persist | main.js:240-245 | the written record carries the coins, the pizza and one position per live table, and in a consistent scene those are exactly the positions of the recorded layout |
| Game.GameScene.constructor | main.js:27-37 | each saved field or its default (0, 0, no tables), empty lists, ids from 1, one free live table per saved position |
| Game.GameScene.RestoreTables | main.js:62 | one live table with a zero counter per saved position, in order; the saved layout is unchanged |
| Game.GameScene.SpawnTable | main.js:99-118 | appends a table with a zero counter; records its position unless that exact position is already recorded, so a duplicate-free layout stays duplicate-free |
| Game.GameScene.ToggleBuildMode | main.js:86-89 | flips build mode and nothing else |
| Game.GameScene.PlaceTable | main.js:71-81 | a table is placed and the game saved exactly when in build mode and the click is outside the kitchen and the counter and within the margins; otherwise nothing changes |
| Game.GameScene.SpawnCustomer | main.js:121-139 | above the cap nothing changes; otherwise the next id joins the end of the queue, queued, at slot (880, 460 - 28 * index), with one seating attempt scheduled; queue plus seated never exceeds 13; stranded customers stay stranded |
| Game.GameScene.TrySeat | main.js:141-170 | fires only with a pending attempt, which it uses up; no-op unless the customer is queued and a table exists; otherwise the first table's counter grows by one and the customer walks to seat 0 of that table |
| Game.GameScene.RelayoutQueue | main.js:172-176 | every queued customer moves to the slot of its current index; states, seats and all other customers are unchanged |
| Game.GameScene.ArriveAtSeat | main.js:158-164 | the customer is seated at its seat, appended to the seated list and dropped from the queue, with no customer lost or duplicated; the rest of the queue keeps its order and moves up |
| Game.GameScene.TakeSeat | main.js:159-162 | the list moves of an arrival, before the queue is laid out again |
| Game.GameScene.CookPizza | main.js:178-185 | one more pizza, coins unchanged, and the save written |
| Game.GameScene.ServeNearest | main.js:187-203 | nothing without pizza or seated customers; otherwise one pizza is used and the seated customer at minimal distance to the counter starts eating, which is always the first in the seated list; pizza never goes below zero |
| Game.GameScene.FinishEating | main.js:205-218 | the payout (6 to 12) is added to the coins, the counter of the customer's table drops by one, and the customer starts leaving |
| Game.GameScene.FinishLeaving | main.js:219-224 | exactly that customer leaves the seated list and the game is saved; queue, tables and economy unchanged |
| Scenarios.FirstTable | main.js:71-81 | a first launch plus one build-mode click on free floor gives exactly one free table |
| Scenarios.FirstGuestWalking | main.js:121-156 | the first customer's one attempt sends it to seat 0 of the table; the counter is 1 and no attempt is left pending |
| Scenarios.FirstGuestSeated | main.js:121-164 | the first customer is sent to the table and sits down; the table counter is 1 |
| Scenarios.FullVisit | main.js:187-224 | cook, serve, pay and leave: coins equal the payout, pizza 0, the table free again, both lists empty |
| Scenarios.SendNewcomer | main.js:121-154 | every newcomer at a scene with tables is sent to seat 0 of the first table |
| Scenarios.Overcommit | main.js:146-154 | three arrivals at one two-seat table all get seat 0; its counter reaches 3 |
| Scenarios.FillQueue | main.js:121-142 | with no tables, n arrivals each followed by its failed attempt queue min(n, 13) customers, all stranded |
| Scenarios.Crowd | main.js:121-135 | with no tables, n spawns queue min(n, 13) customers |
| Scenarios.LateTable | main.js:123-138 | a table placed after the queue has filled leaves 13 stranded customers, nobody seated and no attempt pending |
| Scenarios.ServedTwice | main.js:187-203 | two serves with one customer seated pick that customer twice and use two pizzas |
| Scenarios.DoubleServe | main.js:205-218 | both meals of a twice-served customer pay out and release the seat; the counter ends at -1 |
| Scenarios.ClickOnFixtures | main.js:74-75 | build-mode clicks on the kitchen and on the counter place nothing |
| Scenarios.DuplicateLayout | main.js:115-117 | two build-mode clicks on one spot record it once in the layout, but a save of both live tables read back gives a layout holding the spot twice, with two free tables there |
| Scenarios.Reload | main.js:240-245 | restarting from what a save writes restores coins, pizza and every table position, with free tables and no customers |

## Left out

- Rendering is not modelled: shapes, text, `flashAt`, the top bar, the button labels, and the Phaser game configuration.
- The save button (`persist(true)`) writes the same record as `GameScene.Persist`. Its "saved" message is not modelled.
- The reset button is modelled as a restart from `NoSave`. Removing the key from storage and reloading the page are not modelled.
- Storage access and JSON (de)serialisation are not modelled. A save is read as a `SaveData` record with optional fields; a missing or unreadable one is `NoSave`.
- Timers and tweens are modelled as methods the environment calls. Their durations and easing are not modelled. Only the seating timer's once-per-spawn firing is tracked, through `seatTimers`.
- The end-of-meal and end-of-walk callbacks are accepted for any served customer. This is a superset of the orders the timers can produce.
- Tween positions are not interpolated. A tween's completion places the customer at its end point, and a relayout puts queued customers in their slots at once.
- A leaving customer keeps its seat position until removal. Its walk off the field is not modelled.
- Game.GameScene.ServeNearest: measures distance on these modelled positions. In the game, a leaving customer partway through its exit walk may be nearer to the counter or farther from it, so the game may serve another customer, or serve that one, where the model does not.
- The random payout is not modelled as randomness. `Phaser.Math.Between(6, 12)` becomes the `earn` parameter of `GameScene.FinishEating`, bounded to [6, 12].
- Pointer and object coordinates are whole numbers here; in the game they are floating point.
- Distances are compared as squared integer distances rather than `Phaser.Math.Distance.Between`. Squaring preserves the order.
- JavaScript's stable sort is modelled by the first minimum.
- Rectangle containment uses closed edges, as `Phaser.Geom.Rectangle.ContainsPoint` does on the drawn bounds. Stroke width is not modelled.
- The seat list's `occupied = true` mark on the freshly built list is not stored, since no later read sees it.
- Removing a display object (`g.destroy()`) is not modelled. The record stays in the customer map.
- Overlapping relayout tweens are not modelled.
