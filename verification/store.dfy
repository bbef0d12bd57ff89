/**
 * A table of the local store, written with `if_exists='append'`
 * (src/data.py, `get_prices` and `get_balance_sheet`): rows are only ever
 * added at the end, never overwritten or removed.
 */
module Store {

  class Table<T> {
    /** The table's rows, oldest first. */
    var rows: seq<T>

    /** A table that already holds `existing`, or a new one when that is empty. */
    constructor (existing: seq<T>)
      ensures rows == existing
    {
      rows := existing;
    }

    /** `df.to_sql(table, conn, if_exists='append', index=False)`. */
    method Append(frame: seq<T>)
      modifies this
      ensures rows == old(rows) + frame
      ensures |rows| == |old(rows)| + |frame|
      ensures rows[..|old(rows)|] == old(rows)
    {
      rows := rows + frame;
    }
  }
}
