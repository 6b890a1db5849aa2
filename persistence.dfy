/**
 * The save record kept in the browser's key-value store: coins, pizza stock
 * and table positions. Reading it yields a record whose fields may be
 * missing; a missing or unreadable save reads as a record with no fields.
 */
module Persistence {
  import opened Wrappers
  import opened Layout

  /** What the scene writes: every field present. */
  datatype Snapshot = Snapshot(coins: int, pizza: int, tables: seq<Point>)

  /** What the scene reads back: any field may be absent. */
  datatype SaveData = SaveData(coins: Option<int>, pizza: Option<int>, tables: Option<seq<Point>>)

  /** The read of a missing or corrupt save, and of a save just erased by reset. */
  const NoSave: SaveData := SaveData(None, None, None)

  /** Reading back a snapshot that was written: every field is present and unchanged. */
  function Stored(s: Snapshot): SaveData
  {
    SaveData(Some(s.coins), Some(s.pizza), Some(s.tables))
  }
}
