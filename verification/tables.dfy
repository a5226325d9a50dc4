/** Split CSV tables and the ways reading them stops. */
module Tables {
  type Table = seq<seq<string>>

  /** Why loading stops. Each is an os.Exit, a runtime panic, or a send on a
      full channel that blocks forever in the source. */
  datatype LoadError =
    | EmptyTable                    // rawProfileData[0] on a table without rows
    | ShortRow(row: nat, col: nat)  // a cell index past the end of the row
    | BadNumber(row: nat, col: nat) // the cell does not parse
    | TooManyRows(row: nat)         // a profile row past the last hour
    | NegativeCount(row: nat)       // make(chan, count) with count < 0
    | IdOutOfRange(row: nat, id: int) // pool index id - 1 out of bounds
    | QueueFull(row: nat)           // dispatch channel already holds Cnt indices
    | NoSuchGroup(row: nat, id: int)  // pool slot id - 1 is nil
    | BufferFull(row: nat, id: int)   // the group's parcel channel is full
}
