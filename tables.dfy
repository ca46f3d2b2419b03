/** The contents of a data frame, as the normaliser produces them and the merge consumes them. */
module Tables {
  import opened Normalizers

  /** Every row has exactly `w` cells. */
  ghost predicate AllWidth(rows: seq<seq<Cell>>, w: nat) {
    forall i :: 0 <= i < |rows| ==> |rows[i]| == w
  }

  /** Column labels in order, and the rows, one cell per column. */
  datatype Table = Table(columns: seq<string>, rows: seq<seq<Cell>>) {

    /** Every row has one cell per column. */
    ghost predicate WellFormed() {
      AllWidth(rows, |columns|)
    }
  }
}
