/** The append-only row writers the scripts hand to their recursive walkers (`csv.DictWriter`,
    an open text file): only the sequence of rows written so far is modelled. */
module Sink {

  class Writer<T> {
    var rows: seq<T>

    constructor ()
      ensures rows == []
    {
      rows := [];
    }

    /** `writer.writerow(r)` / `f.write(r)`: `r` goes after everything written before. */
    method WriteRow(r: T)
      modifies this
      ensures rows == old(rows) + [r]
    {
      rows := rows + [r];
    }
  }
}
