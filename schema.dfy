/**
 * Schema resolution and table normalisation: the inner loop of `normalize_files`, which renames
 * each column after the first field spec listing it as an alias and runs that spec's value
 * normaliser over the column's cells.
 */
module Schema {
  import opened Wrappers
  import opened Normalizers
  import opened Tables

  /** One entry of the schema mapping's `columns` list: canonical name, type tag, aliases. */
  datatype FieldSpec = FieldSpec(name: string, ty: string, values: seq<string>)

  // ---------------------------------------------------------------- resolution

  /** The position of the first spec, in document order, whose aliases contain `col`. */
  function FirstMatch(specs: seq<FieldSpec>, col: string): (r: Option<nat>)
    ensures r.Some? ==> r.value < |specs| && col in specs[r.value].values
    ensures r.Some? ==> forall k :: 0 <= k < r.value ==> col !in specs[k].values
    ensures r.None? <==> forall k :: 0 <= k < |specs| ==> col !in specs[k].values
  {
    if specs == [] then None
    else if col in specs[0].values then Some(0)
    else
      match FirstMatch(specs[1..], col)
      case None => None
      case Some(k) => Some(k + 1)
  }

  /** Specs after the winning one are never consulted: appending more specs cannot change the winner. */
  lemma FirstMatchIgnoresLater(specs: seq<FieldSpec>, col: string, k: nat, more: seq<FieldSpec>)
    requires FirstMatch(specs, col) == Some(k)
    ensures FirstMatch(specs[..k + 1] + more, col) == Some(k)
  {
    var s := specs[..k + 1] + more;
    assert s[k] == specs[k];
    assert forall m :: 0 <= m < k ==> s[m] == specs[m];
  }

  /** The column's canonical name, or its raw name when no spec lists it. */
  function ResolvedName(specs: seq<FieldSpec>, col: string): (r: string)
    ensures (forall k :: 0 <= k < |specs| ==> col !in specs[k].values) ==> r == col
    ensures (exists k :: 0 <= k < |specs| && col in specs[k].values) ==>
              exists k :: 0 <= k < |specs| && col in specs[k].values && r == specs[k].name
    ensures forall k :: 0 <= k < |specs| && col in specs[k].values && (forall m :: 0 <= m < k ==> col !in specs[m].values)
              ==> r == specs[k].name
  {
    match FirstMatch(specs, col)
    case Some(k) => specs[k].name
    case None => col
  }

  /** The renamed column sequence: same length, same order, each column resolved on its own. */
  function ResolveNames(specs: seq<FieldSpec>, cols: seq<string>): (r: seq<string>)
    ensures |r| == |cols|
    ensures forall j, j' :: 0 <= j < |cols| && 0 <= j' < |cols| && cols[j] == cols[j'] ==> r[j] == r[j']
    ensures forall j :: 0 <= j < |cols| && (forall k :: 0 <= k < |specs| ==> cols[j] !in specs[k].values) ==>
              r[j] == cols[j]
    ensures forall j :: 0 <= j < |cols| ==> r[j] == ResolvedName(specs, cols[j])
  {
    seq(|cols|, j requires 0 <= j < |cols| => ResolvedName(specs, cols[j]))
  }

  /** Resolving one more column extends the resolved prefix by that column's name. */
  lemma ResolveNamesStep(specs: seq<FieldSpec>, cols: seq<string>, j: nat)
    requires j < |cols|
    ensures ResolveNames(specs, cols[..j + 1]) == ResolveNames(specs, cols[..j]) + [ResolvedName(specs, cols[j])]
  {
    assert forall m :: 0 <= m < j ==> cols[..j + 1][m] == cols[..j][m];
  }

  // ---------------------------------------------------------------- normalisation

  /**
   * A value normaliser selected by type tag, as `normalize_value` is: the table normaliser below
   * is stated for any such function and instantiated with `ValueNormalizer`.
   */
  type TypedNormalizer = (string, Cell) -> Result<Cell, Error>

  /** `lambda x: normalize_value(ty, x)` for every tag `ty`, with the given date parser. */
  function ValueNormalizer(parse: DateParser): TypedNormalizer {
    (ty: string, c: Cell) => NormalizeValue(ty, c, parse)
  }

  ghost predicate HasColumn(rows: seq<seq<Cell>>, j: nat) {
    forall i :: 0 <= i < |rows| ==> j < |rows[i]|
  }

  /**
   * `Series.apply(lambda x: normalize_value(ty, x))` on column `j`: every row's cell `j` normalised,
   * row count unchanged; the first row whose normaliser raises aborts the whole column.
   */
  function NormalizeColumn(rows: seq<seq<Cell>>, j: nat, ty: string, norm: TypedNormalizer)
    : (r: Result<seq<seq<Cell>>, Error>)
    requires HasColumn(rows, j)
    ensures r.Ok? <==> forall i :: 0 <= i < |rows| ==> norm(ty, rows[i][j]).Ok?
    ensures r.Ok? ==> |r.value| == |rows|
    ensures r.Ok? ==> forall i :: 0 <= i < |rows| ==>
                        r.value[i] == rows[i][j := norm(ty, rows[i][j]).value]
  {
    if rows == [] then Ok([])
    else
      var n := |rows| - 1;
      assert forall i :: 0 <= i < n ==> rows[..n][i] == rows[i];
      match NormalizeColumn(rows[..n], j, ty, norm)
      case Err(e) => Err(e)
      case Ok(done) =>
        match norm(ty, rows[n][j])
        case Err(e) => Err(e)
        case Ok(v) => Ok(done + [rows[n][j := v]])
  }

  /** A failing column reports the error of its first failing row. */
  lemma {:induction false} NormalizeColumnFailure(rows: seq<seq<Cell>>, j: nat, ty: string, norm: TypedNormalizer)
    returns (i: nat)
    requires HasColumn(rows, j)
    requires NormalizeColumn(rows, j, ty, norm).Err?
    ensures i < |rows| && norm(ty, rows[i][j]) == Err(NormalizeColumn(rows, j, ty, norm).error)
    ensures forall i' :: 0 <= i' < i ==> norm(ty, rows[i'][j]).Ok?
  {
    var n := |rows| - 1;
    assert forall i :: 0 <= i < n ==> rows[..n][i] == rows[i];
    if NormalizeColumn(rows[..n], j, ty, norm).Err? {
      i := NormalizeColumnFailure(rows[..n], j, ty, norm);
    } else {
      i := n;
    }
  }

  /** Once a prefix of the rows fails, the whole column fails with that prefix's error. */
  lemma {:induction false} NormalizeColumnErrorStops(rows: seq<seq<Cell>>, k: nat, j: nat, ty: string, norm: TypedNormalizer)
    requires HasColumn(rows, j) && k <= |rows|
    requires NormalizeColumn(rows[..k], j, ty, norm).Err?
    ensures NormalizeColumn(rows, j, ty, norm) == NormalizeColumn(rows[..k], j, ty, norm)
    decreases |rows| - k
  {
    if k < |rows| {
      var n := |rows| - 1;
      assert rows[..n][..k] == rows[..k];
      NormalizeColumnErrorStops(rows[..n], k, j, ty, norm);
    } else {
      assert rows[..k] == rows;
    }
  }

  /** What cell `(i, j)` becomes: the winning spec's normaliser, or unchanged when no spec matches. */
  function CellResult(t: Table, specs: seq<FieldSpec>, norm: TypedNormalizer, i: nat, j: nat): Result<Cell, Error>
    requires t.WellFormed() && i < |t.rows| && j < |t.columns|
  {
    match FirstMatch(specs, t.columns[j])
    case None => Ok(t.rows[i][j])
    case Some(k) => norm(specs[k].ty, t.rows[i][j])
  }

  /** The rows after the first `n` columns have been processed, in column order. */
  function NormalizeFirstColumns(t: Table, specs: seq<FieldSpec>, norm: TypedNormalizer, n: nat)
    : (r: Result<seq<seq<Cell>>, Error>)
    requires t.WellFormed() && n <= |t.columns|
    ensures r.Ok? ==> |r.value| == |t.rows| && forall i :: 0 <= i < |t.rows| ==> |r.value[i]| == |t.columns|
  {
    if n == 0 then Ok(t.rows)
    else
      match NormalizeFirstColumns(t, specs, norm, n - 1)
      case Err(e) => Err(e)
      case Ok(rs) =>
        match FirstMatch(specs, t.columns[n - 1])
        case None => Ok(rs)
        case Some(k) => NormalizeColumn(rs, n - 1, specs[k].ty, norm)
  }

  /** The normalised table: resolved column names over the rows with every column processed. */
  function NormalizeTable(t: Table, specs: seq<FieldSpec>, norm: TypedNormalizer): (r: Result<Table, Error>)
    requires t.WellFormed()
    ensures r.Ok? ==> r.value.WellFormed() && |r.value.columns| == |t.columns| && |r.value.rows| == |t.rows|
  {
    match NormalizeFirstColumns(t, specs, norm, |t.columns|)
    case Err(e) => Err(e)
    case Ok(rs) => Ok(Table(ResolveNames(specs, t.columns), rs))
  }

  lemma NormalizeTableResult(t: Table, specs: seq<FieldSpec>, norm: TypedNormalizer)
    requires t.WellFormed()
    ensures NormalizeFirstColumns(t, specs, norm, |t.columns|).Err? ==>
              NormalizeTable(t, specs, norm) == Err(NormalizeFirstColumns(t, specs, norm, |t.columns|).error)
    ensures NormalizeFirstColumns(t, specs, norm, |t.columns|).Ok? ==>
              var rs := NormalizeFirstColumns(t, specs, norm, |t.columns|).value;
              NormalizeTable(t, specs, norm) == Ok(Table(ResolveNames(specs, t.columns), rs)) &&
              Table(ResolveNames(specs, t.columns), rs).WellFormed()
  {
  }

  /** Column `j` processed on top of the first `j`, as the frame's scan does it. */
  lemma NextColumn(t: Table, specs: seq<FieldSpec>, norm: TypedNormalizer, j: nat, before: seq<seq<Cell>>,
                   after: Result<seq<seq<Cell>>, Error>)
    requires t.WellFormed() && j < |t.columns|
    requires NormalizeFirstColumns(t, specs, norm, j) == Ok(before)
    requires match FirstMatch(specs, t.columns[j])
      case None => after == Ok(before)
      case Some(k) => NormalizeColumn(before, j, specs[k].ty, norm) == after
    ensures NormalizeFirstColumns(t, specs, norm, j + 1) == after
  {
  }

  /** Once a column fails, processing further columns keeps that error. */
  lemma {:induction false} NormalizeFirstColumnsErrorStops(t: Table, specs: seq<FieldSpec>, norm: TypedNormalizer, k: nat, n: nat)
    requires t.WellFormed() && k <= n <= |t.columns|
    requires NormalizeFirstColumns(t, specs, norm, k).Err?
    ensures NormalizeFirstColumns(t, specs, norm, n) == NormalizeFirstColumns(t, specs, norm, k)
    decreases n - k
  {
    if k < n {
      NormalizeFirstColumnsErrorStops(t, specs, norm, k, n - 1);
    }
  }

  /** Cell `(i, j)` holds the first-matching spec's normalisation of the original cell. */
  ghost predicate CellsDone(t: Table, specs: seq<FieldSpec>, norm: TypedNormalizer, rs: seq<seq<Cell>>, n: nat)
    requires t.WellFormed() && n <= |t.columns|
  {
    |rs| == |t.rows| &&
    (forall i :: 0 <= i < |rs| ==> |rs[i]| == |t.columns|) &&
    (forall i, j :: 0 <= i < |rs| && 0 <= j < n ==> CellResult(t, specs, norm, i, j) == Ok(rs[i][j])) &&
    (forall i, j :: 0 <= i < |rs| && n <= j < |t.columns| ==> rs[i][j] == t.rows[i][j])
  }

  /** Every cell of the first `n` columns normalises without error. */
  ghost predicate FirstColumnsOk(t: Table, specs: seq<FieldSpec>, norm: TypedNormalizer, n: nat)
    requires t.WellFormed() && n <= |t.columns|
  {
    forall i, j :: 0 <= i < |t.rows| && 0 <= j < n ==> CellResult(t, specs, norm, i, j).Ok?
  }

  /** The error reported is that of the first failing cell, columns first, then rows. */
  ghost predicate FirstFailure(t: Table, specs: seq<FieldSpec>, norm: TypedNormalizer, n: nat, e: Error)
    requires t.WellFormed() && n <= |t.columns|
  {
    exists i, j :: 0 <= i < |t.rows| && 0 <= j < n &&
      CellResult(t, specs, norm, i, j) == Err(e) &&
      FirstColumnsOk(t, specs, norm, j) &&
      forall i' :: 0 <= i' < i ==> CellResult(t, specs, norm, i', j).Ok?
  }

  lemma {:induction false} NormalizeFirstColumnsSpec(t: Table, specs: seq<FieldSpec>, norm: TypedNormalizer, n: nat)
    requires t.WellFormed() && n <= |t.columns|
    ensures NormalizeFirstColumns(t, specs, norm, n).Ok? <==> FirstColumnsOk(t, specs, norm, n)
    ensures NormalizeFirstColumns(t, specs, norm, n).Ok? ==>
              CellsDone(t, specs, norm, NormalizeFirstColumns(t, specs, norm, n).value, n)
    ensures NormalizeFirstColumns(t, specs, norm, n).Err? ==>
              FirstFailure(t, specs, norm, n, NormalizeFirstColumns(t, specs, norm, n).error)
  {
    if n == 0 {
      assert CellsDone(t, specs, norm, t.rows, 0);
    } else {
      NormalizeFirstColumnsSpec(t, specs, norm, n - 1);
      var prev := NormalizeFirstColumns(t, specs, norm, n - 1);
      if prev.Err? {
        FailureExtends(t, specs, norm, n - 1, prev.error);
      } else {
        ColumnStep(t, specs, norm, n - 1, prev.value);
      }
    }
  }

  /** A failure within the first `n` columns is the first failure within the first `n + 1`. */
  lemma FailureExtends(t: Table, specs: seq<FieldSpec>, norm: TypedNormalizer, n: nat, e: Error)
    requires t.WellFormed() && n < |t.columns|
    requires FirstFailure(t, specs, norm, n, e)
    ensures FirstFailure(t, specs, norm, n + 1, e) && !FirstColumnsOk(t, specs, norm, n + 1)
  {
    var i, j :| 0 <= i < |t.rows| && 0 <= j < n &&
      CellResult(t, specs, norm, i, j) == Err(e) &&
      FirstColumnsOk(t, specs, norm, j) &&
      forall i' :: 0 <= i' < i ==> CellResult(t, specs, norm, i', j).Ok?;
  }

  /** Processing column `j` after the first `j` are done: the induction step. */
  lemma ColumnStep(t: Table, specs: seq<FieldSpec>, norm: TypedNormalizer, j: nat, rs: seq<seq<Cell>>)
    requires t.WellFormed() && j < |t.columns|
    requires FirstColumnsOk(t, specs, norm, j)
    requires CellsDone(t, specs, norm, rs, j)
    requires NormalizeFirstColumns(t, specs, norm, j) == Ok(rs)
    ensures NormalizeFirstColumns(t, specs, norm, j + 1).Ok? <==> FirstColumnsOk(t, specs, norm, j + 1)
    ensures NormalizeFirstColumns(t, specs, norm, j + 1).Ok? ==>
              CellsDone(t, specs, norm, NormalizeFirstColumns(t, specs, norm, j + 1).value, j + 1)
    ensures NormalizeFirstColumns(t, specs, norm, j + 1).Err? ==>
              FirstFailure(t, specs, norm, j + 1, NormalizeFirstColumns(t, specs, norm, j + 1).error)
  {
    match FirstMatch(specs, t.columns[j])
    case None =>
      ColumnStepUnmatched(t, specs, norm, j, rs);
    case Some(k) =>
      ColumnStepMatched(t, specs, norm, j, rs, k);
  }

  /** The induction step for a column that no spec matches: the rows are left as they are. */
  lemma ColumnStepUnmatched(t: Table, specs: seq<FieldSpec>, norm: TypedNormalizer, j: nat, rs: seq<seq<Cell>>)
    requires t.WellFormed() && j < |t.columns|
    requires FirstColumnsOk(t, specs, norm, j)
    requires CellsDone(t, specs, norm, rs, j)
    requires NormalizeFirstColumns(t, specs, norm, j) == Ok(rs)
    requires FirstMatch(specs, t.columns[j]).None?
    ensures NormalizeFirstColumns(t, specs, norm, j + 1) == Ok(rs)
    ensures FirstColumnsOk(t, specs, norm, j + 1) && CellsDone(t, specs, norm, rs, j + 1)
  {
    forall i | 0 <= i < |rs| ensures CellResult(t, specs, norm, i, j) == Ok(rs[i][j]) {
      assert rs[i][j] == t.rows[i][j];
    }
  }

  /** The induction step for a column that some spec matches. */
  lemma ColumnStepMatched(t: Table, specs: seq<FieldSpec>, norm: TypedNormalizer, j: nat, rs: seq<seq<Cell>>, k: nat)
    requires t.WellFormed() && j < |t.columns|
    requires FirstColumnsOk(t, specs, norm, j)
    requires CellsDone(t, specs, norm, rs, j)
    requires NormalizeFirstColumns(t, specs, norm, j) == Ok(rs)
    requires FirstMatch(specs, t.columns[j]) == Some(k)
    ensures NormalizeFirstColumns(t, specs, norm, j + 1).Ok? <==> FirstColumnsOk(t, specs, norm, j + 1)
    ensures NormalizeFirstColumns(t, specs, norm, j + 1).Ok? ==>
              CellsDone(t, specs, norm, NormalizeFirstColumns(t, specs, norm, j + 1).value, j + 1)
    ensures NormalizeFirstColumns(t, specs, norm, j + 1).Err? ==>
              FirstFailure(t, specs, norm, j + 1, NormalizeFirstColumns(t, specs, norm, j + 1).error)
  {
    var ty := specs[k].ty;
    var r := NormalizeColumn(rs, j, ty, norm);
    assert NormalizeFirstColumns(t, specs, norm, j + 1) == r;
    forall i | 0 <= i < |rs| ensures CellResult(t, specs, norm, i, j) == norm(ty, rs[i][j]) {
      assert rs[i][j] == t.rows[i][j];
    }
    if r.Err? {
      var i := NormalizeColumnFailure(rs, j, ty, norm);
      assert CellResult(t, specs, norm, i, j) == Err(r.error);
      assert !FirstColumnsOk(t, specs, norm, j + 1);
    } else {
      var u := r.value;
      forall i, j' | 0 <= i < |u| && 0 <= j' < j + 1
        ensures CellResult(t, specs, norm, i, j') == Ok(u[i][j'])
      {
        assert u[i] == rs[i][j := norm(ty, rs[i][j]).value];
      }
      forall i, j' | 0 <= i < |u| && j + 1 <= j' < |t.columns|
        ensures u[i][j'] == t.rows[i][j']
      {
        assert u[i] == rs[i][j := norm(ty, rs[i][j]).value];
      }
    }
  }

  /**
   * Table normalisation: column `j` is renamed to the first spec listing it (or keeps its name),
   * the row count and the row width are kept, each cell of a matched column is that spec's
   * normalisation of the original cell and every other cell is untouched. It fails exactly when
   * some matched cell's normaliser raises, and then with the first such cell's error, in the
   * order the loop visits them (column by column, row by row).
   */
  lemma NormalizeTableSpec(t: Table, specs: seq<FieldSpec>, norm: TypedNormalizer)
    requires t.WellFormed()
    ensures NormalizeTable(t, specs, norm).Ok? <==> FirstColumnsOk(t, specs, norm, |t.columns|)
    ensures NormalizeTable(t, specs, norm).Err? ==>
              FirstFailure(t, specs, norm, |t.columns|, NormalizeTable(t, specs, norm).error)
    ensures NormalizeTable(t, specs, norm).Ok? ==>
              var u := NormalizeTable(t, specs, norm).value;
              u.WellFormed() && |u.columns| == |t.columns| && |u.rows| == |t.rows| &&
              (forall j :: 0 <= j < |t.columns| ==> u.columns[j] == ResolvedName(specs, t.columns[j])) &&
              (forall i, j :: 0 <= i < |t.rows| && 0 <= j < |t.columns| ==>
                 CellResult(t, specs, norm, i, j) == Ok(u.rows[i][j]))
  {
    NormalizeFirstColumnsSpec(t, specs, norm, |t.columns|);
  }

  /** A table none of whose labels any spec lists comes through unchanged. */
  lemma NormalizeTableUnmatched(t: Table, specs: seq<FieldSpec>, norm: TypedNormalizer)
    requires t.WellFormed()
    requires forall j :: 0 <= j < |t.columns| ==> FirstMatch(specs, t.columns[j]).None?
    ensures NormalizeTable(t, specs, norm) == Ok(t)
  {
    NormalizeTableSpec(t, specs, norm);
    assert FirstColumnsOk(t, specs, norm, |t.columns|);
    var u := NormalizeTable(t, specs, norm).value;
    assert u.columns == t.columns;
    forall i | 0 <= i < |t.rows|
      ensures u.rows[i] == t.rows[i]
    {
      assert forall j :: 0 <= j < |t.columns| ==> CellResult(t, specs, norm, i, j) == Ok(t.rows[i][j]);
    }
    assert u.rows == t.rows;
  }

  /** A schema none of whose `date` specs matches a column never makes normalisation fail. */
  lemma NormalizeTableTotalWithoutDates(t: Table, specs: seq<FieldSpec>, parse: DateParser)
    requires t.WellFormed()
    requires forall j :: 0 <= j < |t.columns| && FirstMatch(specs, t.columns[j]).Some? ==>
               specs[FirstMatch(specs, t.columns[j]).value].ty != DateType
    ensures NormalizeTable(t, specs, ValueNormalizer(parse)).Ok?
  {
    var norm := ValueNormalizer(parse);
    NormalizeTableSpec(t, specs, norm);
    forall i, j | 0 <= i < |t.rows| && 0 <= j < |t.columns|
      ensures CellResult(t, specs, norm, i, j).Ok?
    {
      match FirstMatch(specs, t.columns[j])
      case None =>
      case Some(k) =>
        assert norm(specs[k].ty, t.rows[i][j]) == NormalizeValue(specs[k].ty, t.rows[i][j], parse);
    }
  }

  // ---------------------------------------------------------------- the data frame

  /** A pandas data frame as `normalize_files` mutates it: its labels and its rows. */
  class DataFrame {
    var columns: seq<string>
    var rows: seq<seq<Cell>>

    ghost predicate Valid()
      reads this
    {
      Value().WellFormed()
    }

    function Value(): Table
      reads this
    {
      Table(columns, rows)
    }

    /** `pd.read_csv`: the frame holds the table read from the file. */
    constructor (t: Table)
      requires t.WellFormed()
      ensures Valid() && Value() == t
    {
      columns := t.columns;
      rows := t.rows;
    }

    /**
     * `df[fld] = df[fld].apply(lambda x: normalize_value(ty, x))`. The new column is computed
     * before it is stored, so a raising normaliser leaves the frame as it was.
     */
    method ApplyColumn(j: nat, ty: string, norm: TypedNormalizer) returns (err: Option<Error>)
      requires Valid() && j < |columns|
      modifies this`rows
      ensures Valid()
      ensures NormalizeColumn(old(rows), j, ty, norm) == if err.None? then Ok(rows) else Err(err.value)
      ensures err.Some? ==> rows == old(rows)
    {
      var rs := rows;
      var out: seq<seq<Cell>> := [];
      var i := 0;
      while i < |rs|
        invariant 0 <= i <= |rs|
        invariant NormalizeColumn(rs[..i], j, ty, norm) == Ok(out)
      {
        var v := norm(ty, rs[i][j]);
        assert rs[..i + 1][..i] == rs[..i];
        if v.Err? {
          NormalizeColumnErrorStops(rs, i + 1, j, ty, norm);
          return Some(v.error);
        }
        out := out + [rs[i][j := v.value]];
        i := i + 1;
      }
      assert rs[..i] == rs;
      rows := out;
      err := None;
    }

    /**
     * The scan over the specs for raw column `j`, whose label was just appended to `labels`: the
     * first spec whose aliases list the label wins, the label is popped and replaced by the spec's
     * name, the spec's normaliser is applied to the column, and the scan stops.
     */
    method ScanSpecs(j: nat, specs: seq<FieldSpec>, norm: TypedNormalizer, labels: seq<string>)
      returns (newLabels: seq<string>, err: Option<Error>)
      requires Valid() && j < |columns| && labels != [] && labels[|labels| - 1] == columns[j]
      modifies this`rows
      ensures Valid()
      ensures newLabels == labels[..|labels| - 1] + [ResolvedName(specs, columns[j])]
      ensures match FirstMatch(specs, columns[j])
        case None => err.None? && rows == old(rows)
        case Some(k) => NormalizeColumn(old(rows), j, specs[k].ty, norm) == if err.None? then Ok(rows) else Err(err.value)
    {
      var fld := columns[j];
      newLabels := labels;
      var m := 0;
      while m < |specs|
        invariant 0 <= m <= |specs|
        invariant forall m' :: 0 <= m' < m ==> fld !in specs[m'].values
        invariant rows == old(rows)
      {
        if fld in specs[m].values {
          newLabels := newLabels[..|newLabels| - 1];
          newLabels := newLabels + [specs[m].name];
          err := ApplyColumn(j, specs[m].ty, norm);
          return;
        }
        m := m + 1;
      }
      err := None;
    }

    /**
     * One pass of the loop over raw columns: append the label of column `j`, then scan the specs
     * for it. Against the reference, this processes column `j` on top of the first `j`.
     */
    method ProcessColumn(ghost t0: Table, j: nat, specs: seq<FieldSpec>, norm: TypedNormalizer, labels: seq<string>)
      returns (newLabels: seq<string>, err: Option<Error>)
      requires Valid() && t0.WellFormed() && columns == t0.columns && j < |columns|
      requires labels == ResolveNames(specs, columns[..j])
      requires NormalizeFirstColumns(t0, specs, norm, j) == Ok(rows)
      modifies this`rows
      ensures Valid()
      ensures err.None? ==> NormalizeFirstColumns(t0, specs, norm, j + 1) == Ok(rows)
      ensures err.None? ==> newLabels == ResolveNames(specs, columns[..j + 1])
      ensures err.Some? ==> NormalizeFirstColumns(t0, specs, norm, j + 1) == Err(err.value)
    {
      ghost var before := rows;
      newLabels := labels + [columns[j]];
      newLabels, err := ScanSpecs(j, specs, norm, newLabels);
      NextColumn(t0, specs, norm, j, before, if err.None? then Ok(rows) else Err(err.value));
      ResolveNamesStep(specs, columns, j);
    }

    /**
     * The body of the loop over files in `normalize_files`: every raw column processed in order,
     * then the frame relabelled. The first column whose normaliser raises aborts the frame.
     */
    method NormalizeSchema(specs: seq<FieldSpec>, norm: TypedNormalizer) returns (err: Option<Error>)
      requires Valid()
      modifies this
      ensures err.None? ==> Valid() && NormalizeTable(old(Value()), specs, norm) == Ok(Value())
      ensures err.Some? ==> NormalizeTable(old(Value()), specs, norm) == Err(err.value)
    {
      ghost var t0 := Value();
      NormalizeTableResult(t0, specs, norm);
      var newColumns: seq<string> := [];
      var j := 0;
      while j < |columns|
        invariant 0 <= j <= |columns|
        invariant columns == t0.columns && Valid()
        invariant newColumns == ResolveNames(specs, columns[..j])
        invariant NormalizeFirstColumns(t0, specs, norm, j) == Ok(rows)
      {
        newColumns, err := ProcessColumn(t0, j, specs, norm, newColumns);
        if err.Some? {
          NormalizeFirstColumnsErrorStops(t0, specs, norm, j + 1, |columns|);
          return;
        }
        j := j + 1;
      }
      assert columns[..j] == columns;
      columns := newColumns;
      err := None;
    }
  }

  // ---------------------------------------------------------------- all files

  /**
   * `normalize_files` without its I/O: each raw table, in the order given, is loaded into a frame,
   * normalised against the specs and collected. The first table that fails aborts the run. The
   * pipeline's normaliser is `ValueNormalizer(parse)`.
   */
  method NormalizeFiles(raw: seq<Table>, specs: seq<FieldSpec>, norm: TypedNormalizer)
    returns (r: Result<seq<Table>, Error>)
    requires forall t :: t in raw ==> t.WellFormed()
    ensures r.Ok? <==> forall i :: 0 <= i < |raw| ==> NormalizeTable(raw[i], specs, norm).Ok?
    ensures r.Ok? ==> |r.value| == |raw|
    ensures r.Ok? ==> forall i :: 0 <= i < |raw| ==>
                        NormalizeTable(raw[i], specs, norm) == Ok(r.value[i])
    ensures r.Err? ==> exists i :: 0 <= i < |raw| &&
                        NormalizeTable(raw[i], specs, norm) == Err(r.error) &&
                        (forall i' :: 0 <= i' < i ==> NormalizeTable(raw[i'], specs, norm).Ok?)
  {
    var dfList: seq<Table> := [];
    var i := 0;
    while i < |raw|
      invariant 0 <= i <= |raw|
      invariant |dfList| == i
      invariant forall m :: 0 <= m < i ==> NormalizeTable(raw[m], specs, norm) == Ok(dfList[m])
    {
      assert raw[i] in raw;
      var df := new DataFrame(raw[i]);
      var err := df.NormalizeSchema(specs, norm);
      if err.Some? {
        return Err(err.value);
      }
      dfList := dfList + [df.Value()];
      i := i + 1;
    }
    r := Ok(dfList);
  }
}
