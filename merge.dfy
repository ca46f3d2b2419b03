/**
 * The merge engine (`merge_dataFrames`): a left fold of full outer joins over the normalised
 * tables, joining on `name` and `created_date` when both the accumulator and the next table have
 * a `created_date` column, and on `name` alone otherwise.
 */
module Merge {
  import opened Wrappers
  import opened Normalizers
  import opened Tables

  const NameKey: string := "name"
  const DateKey: string := "created_date"

  /** `df_list[0]` on an empty list (IndexError), or a join key absent from a table (KeyError). */
  datatype MergeError = EmptyTableList | MissingKey(key: string)

  /** The key rule, evaluated against the accumulator as it is now and the next table. */
  function JoinKeys(acc: Table, next: Table): (keys: seq<string>)
    ensures |keys| >= 1 && keys[0] == NameKey
    ensures DateKey in keys <==> DateKey in acc.columns && DateKey in next.columns
    ensures forall q :: 0 <= q < |keys| ==> keys[q] == NameKey || keys[q] == DateKey
  {
    if DateKey in acc.columns && DateKey in next.columns then [NameKey, DateKey] else [NameKey]
  }

  // ---------------------------------------------------------------- column positions

  ghost predicate Below(ps: seq<nat>, w: nat) {
    forall q :: 0 <= q < |ps| ==> ps[q] < w
  }

  /** The position of the first column labelled `c`. */
  function IndexOf(cols: seq<string>, c: string): (p: nat)
    requires c in cols
    ensures p < |cols| && cols[p] == c
    ensures forall q :: 0 <= q < p ==> cols[q] != c
  {
    if cols[0] == c then 0 else 1 + IndexOf(cols[1..], c)
  }

  /** The first key, in key order, that one of the two label sequences lacks. */
  function FirstAbsentKey(keys: seq<string>, a: seq<string>, b: seq<string>): (r: Option<string>)
    ensures r.None? <==> forall q :: 0 <= q < |keys| ==> keys[q] in a && keys[q] in b
    ensures r.Some? ==> r.value in keys && (r.value !in a || r.value !in b)
  {
    if keys == [] then None
    else if keys[0] !in a || keys[0] !in b then Some(keys[0])
    else FirstAbsentKey(keys[1..], a, b)
  }

  /** The positions of the columns not used as keys, in order. */
  function NonKeyPositions(cols: seq<string>, keys: seq<string>, n: nat): (ps: seq<nat>)
    requires n <= |cols|
    ensures forall q :: 0 <= q < |ps| ==> ps[q] < n && cols[ps[q]] !in keys
    ensures forall p :: 0 <= p < n && cols[p] !in keys ==> p in ps
  {
    if n == 0 then []
    else NonKeyPositions(cols, keys, n - 1) + (if cols[n - 1] in keys then [] else [n - 1])
  }

  /** The cells of `row` at the positions `ps`, in that order. */
  function Project(row: seq<Cell>, ps: seq<nat>): (r: seq<Cell>)
    requires Below(ps, |row|)
    ensures |r| == |ps|
  {
    seq(|ps|, q requires 0 <= q < |ps| => row[ps[q]])
  }

  function Fill(n: nat): (r: seq<Cell>)
    ensures |r| == n && forall q :: 0 <= q < n ==> r[q] == Missing
  {
    seq(n, _ => Missing)
  }

  /**
   * Where the join finds its inputs: the key positions in the left and right rows, the right
   * table's non-key positions, and, for each left column that is a key, the position of the same
   * key in a right row (used to fill the key of a row only the right table has).
   */
  datatype Plan = Plan(lw: nat, rw: nat, lk: seq<nat>, rk: seq<nat>, extra: seq<nat>, fromRight: seq<Option<nat>>) {
    ghost predicate Valid() {
      |lk| == |rk| && Below(lk, lw) && Below(rk, rw) && Below(extra, rw) &&
      |fromRight| == lw && forall p :: 0 <= p < lw && fromRight[p].Some? ==> fromRight[p].value < rw
    }
  }

  function MakePlan(left: Table, right: Table, keys: seq<string>): (plan: Plan)
    requires forall q :: 0 <= q < |keys| ==> keys[q] in left.columns && keys[q] in right.columns
    ensures plan.Valid() && plan.lw == |left.columns| && plan.rw == |right.columns| && |plan.lk| == |keys|
    ensures forall q :: 0 <= q < |keys| ==> left.columns[plan.lk[q]] == keys[q] && right.columns[plan.rk[q]] == keys[q]
    ensures forall q :: 0 <= q < |keys| ==> plan.fromRight[plan.lk[q]] == Some(plan.rk[q])
  {
    var lc, rc := left.columns, right.columns;
    Plan(|lc|, |rc|,
      seq(|keys|, q requires 0 <= q < |keys| => IndexOf(lc, keys[q])),
      seq(|keys|, q requires 0 <= q < |keys| => IndexOf(rc, keys[q])),
      NonKeyPositions(rc, keys, |rc|),
      seq(|lc|, p requires 0 <= p < |lc| => if lc[p] in keys then Some(IndexOf(rc, lc[p])) else None))
  }

  // ---------------------------------------------------------------- rows

  /** The two rows agree on every join key. */
  ghost predicate SameKey(plan: Plan, l: seq<Cell>, r: seq<Cell>)
    requires plan.Valid() && |l| == plan.lw && |r| == plan.rw
  {
    Project(l, plan.lk) == Project(r, plan.rk)
  }

  /** A left row and a matching right row, combined: the left row, then the right row's non-key cells. */
  function Combined(plan: Plan, l: seq<Cell>, r: seq<Cell>): (o: seq<Cell>)
    requires plan.Valid() && |l| == plan.lw && |r| == plan.rw
  {
    l + Project(r, plan.extra)
  }

  /** A left row without a match: the right table's non-key columns are `Missing`. */
  function LeftOnly(plan: Plan, l: seq<Cell>): seq<Cell>
    requires plan.Valid() && |l| == plan.lw
  {
    l + Fill(|plan.extra|)
  }

  /** A right row without a match: its key cells in the left key columns, `Missing` in the other left columns. */
  function RightOnly(plan: Plan, r: seq<Cell>): (o: seq<Cell>)
    requires plan.Valid() && |r| == plan.rw
    ensures |o| == plan.lw + |plan.extra|
  {
    seq(plan.lw, p requires 0 <= p < plan.lw =>
      match plan.fromRight[p]
      case Some(x) => r[x]
      case None => Missing)
    + Project(r, plan.extra)
  }

  /** The right rows whose key is `key`, in order. */
  function Matches(plan: Plan, key: seq<Cell>, rrows: seq<seq<Cell>>): (ms: seq<seq<Cell>>)
    requires plan.Valid() && AllWidth(rrows, plan.rw)
    ensures AllWidth(ms, plan.rw)
    ensures forall r :: r in ms <==> r in rrows && Project(r, plan.rk) == key
    ensures ms == [] <==> forall j :: 0 <= j < |rrows| ==> Project(rrows[j], plan.rk) != key
  {
    if rrows == [] then []
    else
      var n := |rrows| - 1;
      var last := rrows[n];
      assert rrows == rrows[..n] + [last];
      Matches(plan, key, rrows[..n]) + (if Project(last, plan.rk) == key then [last] else [])
  }

  /** What one left row contributes: one combined row per match, or the row itself `Missing`-filled. */
  function LeftBlock(plan: Plan, l: seq<Cell>, rrows: seq<seq<Cell>>): (b: seq<seq<Cell>>)
    requires plan.Valid() && |l| == plan.lw && AllWidth(rrows, plan.rw)
    ensures AllWidth(b, plan.lw + |plan.extra|)
  {
    var ms := Matches(plan, Project(l, plan.lk), rrows);
    if ms == [] then [LeftOnly(plan, l)]
    else seq(|ms|, m requires 0 <= m < |ms| => Combined(plan, l, ms[m]))
  }

  /** The blocks of `xss` laid end to end, in order. */
  function Flatten<T>(xss: seq<seq<T>>): seq<T> {
    if xss == [] then [] else Flatten(xss[..|xss| - 1]) + xss[|xss| - 1]
  }

  lemma {:induction false} FlattenHas<T>(xss: seq<seq<T>>, i: nat, x: T)
    requires i < |xss| && x in xss[i]
    ensures x in Flatten(xss)
  {
    var n := |xss| - 1;
    if i < n {
      assert xss[..n][i] == xss[i];
      FlattenHas(xss[..n], i, x);
    }
  }

  lemma {:induction false} FlattenFrom<T>(xss: seq<seq<T>>, x: T) returns (i: nat)
    requires x in Flatten(xss)
    ensures i < |xss| && x in xss[i]
  {
    var n := |xss| - 1;
    if x in xss[n] {
      i := n;
    } else {
      i := FlattenFrom(xss[..n], x);
      assert xss[..n][i] == xss[i];
    }
  }

  lemma {:induction false} FlattenWidth(xss: seq<seq<seq<Cell>>>, w: nat)
    requires forall i :: 0 <= i < |xss| ==> AllWidth(xss[i], w)
    ensures AllWidth(Flatten(xss), w)
  {
    if xss != [] {
      var n := |xss| - 1;
      assert forall i :: 0 <= i < n ==> xss[..n][i] == xss[i];
      FlattenWidth(xss[..n], w);
    }
  }

  /** One block per left row, in left-row order. */
  function LeftBlocks(plan: Plan, lrows: seq<seq<Cell>>, rrows: seq<seq<Cell>>): (bs: seq<seq<seq<Cell>>>)
    requires plan.Valid() && AllWidth(lrows, plan.lw) && AllWidth(rrows, plan.rw)
    ensures |bs| == |lrows| && forall i :: 0 <= i < |lrows| ==> bs[i] == LeftBlock(plan, lrows[i], rrows)
  {
    seq(|lrows|, i requires 0 <= i < |lrows| => LeftBlock(plan, lrows[i], rrows))
  }

  /** The left rows' blocks, in left-row order. */
  function LeftRows(plan: Plan, lrows: seq<seq<Cell>>, rrows: seq<seq<Cell>>): (out: seq<seq<Cell>>)
    requires plan.Valid() && AllWidth(lrows, plan.lw) && AllWidth(rrows, plan.rw)
    ensures AllWidth(out, plan.lw + |plan.extra|)
  {
    var bs := LeftBlocks(plan, lrows, rrows);
    FlattenWidth(bs, plan.lw + |plan.extra|);
    Flatten(bs)
  }

  /** Some left row has the same key as `r`. */
  predicate HasLeftMatch(plan: Plan, r: seq<Cell>, lrows: seq<seq<Cell>>)
    requires plan.Valid() && |r| == plan.rw && AllWidth(lrows, plan.lw)
  {
    exists i :: 0 <= i < |lrows| && Project(lrows[i], plan.lk) == Project(r, plan.rk)
  }

  /** The right rows no left row matches, `Missing`-filled, in right-row order. */
  function RightRows(plan: Plan, lrows: seq<seq<Cell>>, rrows: seq<seq<Cell>>): (out: seq<seq<Cell>>)
    requires plan.Valid() && AllWidth(lrows, plan.lw) && AllWidth(rrows, plan.rw)
    ensures AllWidth(out, plan.lw + |plan.extra|)
  {
    if rrows == [] then []
    else
      var n := |rrows| - 1;
      RightRows(plan, lrows, rrows[..n]) +
        (if HasLeftMatch(plan, rrows[n], lrows) then [] else [RightOnly(plan, rrows[n])])
  }

  // ---------------------------------------------------------------- the join

  /** Left labels: a non-key label the right table also has gets pandas' `_x` suffix. */
  function LeftLabels(left: Table, right: Table, keys: seq<string>): seq<string> {
    seq(|left.columns|, p requires 0 <= p < |left.columns| =>
      var c := left.columns[p];
      if c !in keys && c in right.columns then c + "_x" else c)
  }

  /** Labels of the right table's non-key columns: one the left table also has gets `_y`. */
  function RightLabels(left: Table, right: Table, extra: seq<nat>): seq<string>
    requires Below(extra, |right.columns|)
  {
    seq(|extra|, q requires 0 <= q < |extra| =>
      var c := right.columns[extra[q]];
      if c in left.columns then c + "_y" else c)
  }

  /** The joined labels: the left labels, then the labels of the right table's non-key columns. */
  function Labels(left: Table, right: Table, keys: seq<string>): seq<string>
    requires forall q :: 0 <= q < |keys| ==> keys[q] in left.columns && keys[q] in right.columns
  {
    LeftLabels(left, right, keys) + RightLabels(left, right, MakePlan(left, right, keys).extra)
  }

  /**
   * `pd.merge(left, right, on=keys, how='outer')`, simplified: the left columns, then the right
   * table's non-key columns; every pair of rows that agree on the keys combined, every left row
   * without a match kept with `Missing` for the right columns, then every right row without a
   * match kept with its keys and `Missing` for the left columns.
   */
  function OuterJoin(left: Table, right: Table, keys: seq<string>): (r: Result<Table, MergeError>)
    requires left.WellFormed() && right.WellFormed()
    ensures r.Err? <==> exists q :: 0 <= q < |keys| && (keys[q] !in left.columns || keys[q] !in right.columns)
    ensures r.Ok? ==> r.value.WellFormed()
  {
    match FirstAbsentKey(keys, left.columns, right.columns)
    case Some(k) => Err(MissingKey(k))
    case None =>
      var plan := MakePlan(left, right, keys);
      Ok(Table(Labels(left, right, keys), LeftRows(plan, left.rows, right.rows) + RightRows(plan, left.rows, right.rows)))
  }

  // ---------------------------------------------------------------- what the join keeps

  /** Where an output row comes from. */
  datatype Origin = Pair(i: nat, j: nat) | LeftAlone(i: nat) | RightAlone(j: nat)

  /** `o` is the output row that `src` stands for, and `src` is a case the join produces. */
  ghost predicate Explains(plan: Plan, lrows: seq<seq<Cell>>, rrows: seq<seq<Cell>>, src: Origin, o: seq<Cell>)
    requires plan.Valid() && AllWidth(lrows, plan.lw) && AllWidth(rrows, plan.rw)
  {
    match src
    case Pair(i, j) =>
      i < |lrows| && j < |rrows| && SameKey(plan, lrows[i], rrows[j]) &&
      o == Combined(plan, lrows[i], rrows[j])
    case LeftAlone(i) =>
      i < |lrows| && (forall j :: 0 <= j < |rrows| ==> !SameKey(plan, lrows[i], rrows[j])) &&
      o == LeftOnly(plan, lrows[i])
    case RightAlone(j) =>
      j < |rrows| && (forall i :: 0 <= i < |lrows| ==> !SameKey(plan, lrows[i], rrows[j])) &&
      o == RightOnly(plan, rrows[j])
  }

  lemma LeftRowsHaveBlock(plan: Plan, lrows: seq<seq<Cell>>, rrows: seq<seq<Cell>>, i: nat, o: seq<Cell>)
    requires plan.Valid() && AllWidth(lrows, plan.lw) && AllWidth(rrows, plan.rw)
    requires i < |lrows| && o in LeftBlock(plan, lrows[i], rrows)
    ensures o in LeftRows(plan, lrows, rrows)
  {
    FlattenHas(LeftBlocks(plan, lrows, rrows), i, o);
  }

  lemma LeftRowsFromBlock(plan: Plan, lrows: seq<seq<Cell>>, rrows: seq<seq<Cell>>, o: seq<Cell>)
    returns (i: nat)
    requires plan.Valid() && AllWidth(lrows, plan.lw) && AllWidth(rrows, plan.rw)
    requires o in LeftRows(plan, lrows, rrows)
    ensures i < |lrows| && o in LeftBlock(plan, lrows[i], rrows)
  {
    i := FlattenFrom(LeftBlocks(plan, lrows, rrows), o);
  }

  lemma {:induction false} RightRowsHaveUnmatched(plan: Plan, lrows: seq<seq<Cell>>, rrows: seq<seq<Cell>>, j: nat)
    requires plan.Valid() && AllWidth(lrows, plan.lw) && AllWidth(rrows, plan.rw)
    requires j < |rrows| && !HasLeftMatch(plan, rrows[j], lrows)
    ensures RightOnly(plan, rrows[j]) in RightRows(plan, lrows, rrows)
  {
    var n := |rrows| - 1;
    if j < n {
      assert rrows[..n][j] == rrows[j];
      RightRowsHaveUnmatched(plan, lrows, rrows[..n], j);
    }
  }

  lemma {:induction false} RightRowsFromUnmatched(plan: Plan, lrows: seq<seq<Cell>>, rrows: seq<seq<Cell>>, o: seq<Cell>)
    returns (j: nat)
    requires plan.Valid() && AllWidth(lrows, plan.lw) && AllWidth(rrows, plan.rw)
    requires o in RightRows(plan, lrows, rrows)
    ensures j < |rrows| && !HasLeftMatch(plan, rrows[j], lrows) && o == RightOnly(plan, rrows[j])
  {
    var n := |rrows| - 1;
    if !HasLeftMatch(plan, rrows[n], lrows) && o == RightOnly(plan, rrows[n]) {
      j := n;
    } else {
      j := RightRowsFromUnmatched(plan, lrows, rrows[..n], o);
      assert rrows[..n][j] == rrows[j];
    }
  }

  lemma LeftBlockOrigin(plan: Plan, lrows: seq<seq<Cell>>, rrows: seq<seq<Cell>>, i: nat, o: seq<Cell>)
    returns (src: Origin)
    requires plan.Valid() && AllWidth(lrows, plan.lw) && AllWidth(rrows, plan.rw)
    requires i < |lrows| && o in LeftBlock(plan, lrows[i], rrows)
    ensures Explains(plan, lrows, rrows, src, o)
  {
    var l := lrows[i];
    var ms := Matches(plan, Project(l, plan.lk), rrows);
    if ms == [] {
      src := LeftAlone(i);
      forall j | 0 <= j < |rrows| ensures !SameKey(plan, l, rrows[j]) {
        assert rrows[j] in rrows;
      }
    } else {
      var m :| 0 <= m < |ms| && o == Combined(plan, l, ms[m]);
      assert ms[m] in ms;
      var j :| 0 <= j < |rrows| && rrows[j] == ms[m];
      src := Pair(i, j);
    }
  }

  lemma JoinRowOrigin(plan: Plan, lrows: seq<seq<Cell>>, rrows: seq<seq<Cell>>, o: seq<Cell>) returns (src: Origin)
    requires plan.Valid() && AllWidth(lrows, plan.lw) && AllWidth(rrows, plan.rw)
    requires o in LeftRows(plan, lrows, rrows) + RightRows(plan, lrows, rrows)
    ensures Explains(plan, lrows, rrows, src, o)
  {
    if o in LeftRows(plan, lrows, rrows) {
      var i := LeftRowsFromBlock(plan, lrows, rrows, o);
      src := LeftBlockOrigin(plan, lrows, rrows, i, o);
    } else {
      var j := RightRowsFromUnmatched(plan, lrows, rrows, o);
      src := RightAlone(j);
    }
  }

  /** A successful join is the joined labels over the left rows' blocks, then the unmatched right rows. */
  lemma OuterJoinShape(left: Table, right: Table, keys: seq<string>)
    requires left.WellFormed() && right.WellFormed() && OuterJoin(left, right, keys).Ok?
    ensures forall q :: 0 <= q < |keys| ==> keys[q] in left.columns && keys[q] in right.columns
    ensures var plan := MakePlan(left, right, keys);
      OuterJoin(left, right, keys).value ==
        Table(Labels(left, right, keys), LeftRows(plan, left.rows, right.rows) + RightRows(plan, left.rows, right.rows))
  {
  }

  /** Every row of a successful join is a matched pair, an unmatched left row or an unmatched right row. */
  lemma OuterJoinRowOrigin(left: Table, right: Table, keys: seq<string>, o: seq<Cell>) returns (src: Origin)
    requires left.WellFormed() && right.WellFormed() && OuterJoin(left, right, keys).Ok?
    requires o in OuterJoin(left, right, keys).value.rows
    ensures Explains(MakePlan(left, right, keys), left.rows, right.rows, src, o)
  {
    OuterJoinShape(left, right, keys);
    src := JoinRowOrigin(MakePlan(left, right, keys), left.rows, right.rows, o);
  }

  lemma LeftRowsKeepPair(plan: Plan, lrows: seq<seq<Cell>>, rrows: seq<seq<Cell>>, i: nat, j: nat)
    requires plan.Valid() && AllWidth(lrows, plan.lw) && AllWidth(rrows, plan.rw)
    requires i < |lrows| && j < |rrows| && SameKey(plan, lrows[i], rrows[j])
    ensures Combined(plan, lrows[i], rrows[j]) in LeftRows(plan, lrows, rrows)
  {
    var l, o := lrows[i], Combined(plan, lrows[i], rrows[j]);
    var ms := Matches(plan, Project(l, plan.lk), rrows);
    assert rrows[j] in ms;
    var m :| 0 <= m < |ms| && ms[m] == rrows[j];
    assert LeftBlock(plan, l, rrows)[m] == o;
    LeftRowsHaveBlock(plan, lrows, rrows, i, o);
  }

  lemma LeftRowsKeepUnmatched(plan: Plan, lrows: seq<seq<Cell>>, rrows: seq<seq<Cell>>, i: nat)
    requires plan.Valid() && AllWidth(lrows, plan.lw) && AllWidth(rrows, plan.rw)
    requires i < |lrows| && forall j :: 0 <= j < |rrows| ==> !SameKey(plan, lrows[i], rrows[j])
    ensures LeftOnly(plan, lrows[i]) in LeftRows(plan, lrows, rrows)
  {
    var l := lrows[i];
    LeftRowsHaveBlock(plan, lrows, rrows, i, LeftOnly(plan, l));
  }

  lemma JoinKeepsRow(plan: Plan, lrows: seq<seq<Cell>>, rrows: seq<seq<Cell>>, src: Origin, o: seq<Cell>)
    requires plan.Valid() && AllWidth(lrows, plan.lw) && AllWidth(rrows, plan.rw)
    requires Explains(plan, lrows, rrows, src, o)
    ensures o in LeftRows(plan, lrows, rrows) + RightRows(plan, lrows, rrows)
  {
    match src
    case Pair(i, j) =>
      LeftRowsKeepPair(plan, lrows, rrows, i, j);
    case LeftAlone(i) =>
      LeftRowsKeepUnmatched(plan, lrows, rrows, i);
    case RightAlone(j) =>
      assert !HasLeftMatch(plan, rrows[j], lrows);
      RightRowsHaveUnmatched(plan, lrows, rrows, j);
  }

  /** Every output row the join is meant to produce is there: nothing is dropped. */
  lemma OuterJoinKeepsEveryRow(left: Table, right: Table, keys: seq<string>, src: Origin, o: seq<Cell>)
    requires left.WellFormed() && right.WellFormed() && OuterJoin(left, right, keys).Ok?
    requires Explains(MakePlan(left, right, keys), left.rows, right.rows, src, o)
    ensures o in OuterJoin(left, right, keys).value.rows
  {
    OuterJoinShape(left, right, keys);
    JoinKeepsRow(MakePlan(left, right, keys), left.rows, right.rows, src, o);
  }

  /** A right row kept alone carries its key values in the left table's key columns. */
  lemma RightOnlyKeepsKey(left: Table, right: Table, keys: seq<string>, r: seq<Cell>)
    requires left.WellFormed() && right.WellFormed() && OuterJoin(left, right, keys).Ok?
    requires |r| == |right.columns|
    ensures var plan := MakePlan(left, right, keys);
      Project(RightOnly(plan, r)[..plan.lw], plan.lk) == Project(r, plan.rk)
  {
  }

  // ---------------------------------------------------------------- what the join keeps of the labels

  /** A suffixed label is never one of the two key names. */
  lemma SuffixedIsNoKey(c: string, x: char)
    requires x == 'x' || x == 'y'
    ensures c + ['_', x] != DateKey && c + ['_', x] != NameKey
  {
    var s := c + ['_', x];
    assert s[|s| - 1] == x;
    assert DateKey[|DateKey| - 1] == 'e' && NameKey[|NameKey| - 1] == 'e';
  }

  /** A label of either table that is not a key of a shared name survives the join unchanged. */
  lemma LabelsKeepUnshared(left: Table, right: Table, keys: seq<string>, c: string)
    requires forall q :: 0 <= q < |keys| ==> keys[q] in left.columns && keys[q] in right.columns
    requires c in left.columns || c in right.columns
    requires c in keys || !(c in left.columns && c in right.columns)
    ensures c in Labels(left, right, keys)
  {
    var ll := LeftLabels(left, right, keys);
    if c in left.columns {
      var p := IndexOf(left.columns, c);
      assert ll[p] == c;
    } else {
      var plan := MakePlan(left, right, keys);
      var rl := RightLabels(left, right, plan.extra);
      var e := IndexOf(right.columns, c);
      assert e in plan.extra;
      var q :| 0 <= q < |plan.extra| && plan.extra[q] == e;
      assert rl[q] == c;
      assert (ll + rl)[|ll| + q] == c;
    }
  }

  /** A joined label that is one of the key names is that label of one of the two tables. */
  lemma LabelsComeFromTables(left: Table, right: Table, keys: seq<string>, c: string)
    requires forall q :: 0 <= q < |keys| ==> keys[q] in left.columns && keys[q] in right.columns
    requires c in Labels(left, right, keys) && (c == DateKey || c == NameKey)
    ensures c in left.columns || c in right.columns
  {
    var extra := MakePlan(left, right, keys).extra;
    var ll, rl := LeftLabels(left, right, keys), RightLabels(left, right, extra);
    assert c in ll + rl;
    if c in ll {
      LeftLabelFromLeft(left, right, keys, c);
    } else {
      RightLabelFromRight(left, right, extra, c);
    }
  }

  lemma LeftLabelFromLeft(left: Table, right: Table, keys: seq<string>, c: string)
    requires c in LeftLabels(left, right, keys) && (c == DateKey || c == NameKey)
    ensures c in left.columns
  {
    var k :| 0 <= k < |left.columns| && LeftLabels(left, right, keys)[k] == c;
    SuffixedIsNoKey(left.columns[k], 'x');
  }

  lemma RightLabelFromRight(left: Table, right: Table, extra: seq<nat>, c: string)
    requires Below(extra, |right.columns|)
    requires c in RightLabels(left, right, extra) && (c == DateKey || c == NameKey)
    ensures c in right.columns
  {
    var k :| 0 <= k < |extra| && RightLabels(left, right, extra)[k] == c;
    SuffixedIsNoKey(right.columns[extra[k]], 'y');
  }

  /**
   * With the key rule of the fold, `created_date` is a joined label exactly when one of the two
   * tables has it: when both have it it is a key, so it is never suffixed away.
   */
  lemma LabelsKeepDate(left: Table, right: Table)
    requires NameKey in left.columns && NameKey in right.columns
    ensures DateKey in Labels(left, right, JoinKeys(left, right)) <==> DateKey in left.columns || DateKey in right.columns
  {
    var keys := JoinKeys(left, right);
    if DateKey in left.columns || DateKey in right.columns {
      LabelsKeepUnshared(left, right, keys, DateKey);
    }
    if DateKey in Labels(left, right, keys) {
      LabelsComeFromTables(left, right, keys, DateKey);
    }
  }

  // ---------------------------------------------------------------- the fold

  ghost predicate AllWellFormed(tables: seq<Table>) {
    forall i :: 0 <= i < |tables| ==> tables[i].WellFormed()
  }

  /** A join on given keys, as the fold uses it. */
  type Joiner = (Table, Table, seq<string>) --> Result<Table, MergeError>

  /** `join` accepts any two rectangular tables and returns a rectangular one. */
  ghost predicate Rectangular(join: Joiner) {
    forall a: Table, b: Table, k: seq<string> {:trigger join.requires(a, b, k)} ::
      a.WellFormed() && b.WellFormed() ==>
        join.requires(a, b, k) && (join(a, b, k).Ok? ==> join(a, b, k).value.WellFormed())
  }

  /** Under the fold's key rule, `join` keeps `created_date` exactly when one side has it. */
  ghost predicate KeepsDateColumn(join: Joiner)
    requires Rectangular(join)
  {
    forall a: Table, b: Table {:trigger join(a, b, JoinKeys(a, b))} ::
      a.WellFormed() && b.WellFormed() && join(a, b, JoinKeys(a, b)).Ok? ==>
        (DateKey in join(a, b, JoinKeys(a, b)).value.columns <==> DateKey in a.columns || DateKey in b.columns)
  }

  /** Under the fold's key rule, `join` succeeds exactly when both sides have `name`, and keeps it. */
  ghost predicate NeedsNames(join: Joiner)
    requires Rectangular(join)
  {
    forall a: Table, b: Table {:trigger join(a, b, JoinKeys(a, b))} ::
      a.WellFormed() && b.WellFormed() ==>
        (join(a, b, JoinKeys(a, b)).Ok? <==> NameKey in a.columns && NameKey in b.columns) &&
        (join(a, b, JoinKeys(a, b)).Ok? ==> NameKey in join(a, b, JoinKeys(a, b)).value.columns)
  }

  /** The loop of `merge_dataFrames` as a left fold: join each next table onto the accumulator. */
  function Fold(tables: seq<Table>, join: Joiner): (r: Result<Table, MergeError>)
    requires AllWellFormed(tables) && Rectangular(join)
    ensures r.Ok? ==> r.value.WellFormed()
    decreases |tables|
  {
    if tables == [] then Err(EmptyTableList)
    else if |tables| == 1 then Ok(tables[0])
    else
      var n := |tables| - 1;
      match Fold(tables[..n], join)
      case Err(e) => Err(e)
      case Ok(acc) => join(acc, tables[n], JoinKeys(acc, tables[n]))
  }

  /** The outer join as a value the fold can take. */
  function OuterJoinFn(): (join: Joiner)
    ensures Rectangular(join)
  {
    (a: Table, b: Table, k: seq<string>) requires a.WellFormed() && b.WellFormed() => OuterJoin(a, b, k)
  }

  /** `merge_dataFrames` over the outer join. */
  function MergeAll(tables: seq<Table>): (r: Result<Table, MergeError>)
    requires AllWellFormed(tables)
    ensures r.Ok? ==> r.value.WellFormed()
    ensures tables == [] ==> r == Err(EmptyTableList)
    ensures |tables| == 1 ==> r == Ok(tables[0])
  {
    Fold(tables, OuterJoinFn())
  }

  lemma OuterJoinKeepsDateColumn()
    ensures KeepsDateColumn(OuterJoinFn())
  {
    forall a: Table, b: Table | a.WellFormed() && b.WellFormed() && OuterJoin(a, b, JoinKeys(a, b)).Ok?
      ensures DateKey in OuterJoin(a, b, JoinKeys(a, b)).value.columns <==> DateKey in a.columns || DateKey in b.columns
    {
      LabelsKeepDate(a, b);
    }
  }

  lemma OuterJoinNeedsNames()
    ensures NeedsNames(OuterJoinFn())
  {
    forall a: Table, b: Table | a.WellFormed() && b.WellFormed() && OuterJoin(a, b, JoinKeys(a, b)).Ok?
      ensures NameKey in OuterJoin(a, b, JoinKeys(a, b)).value.columns
    {
      LabelsKeepUnshared(a, b, JoinKeys(a, b), NameKey);
    }
  }

  /** Once a join fails, the fold fails with that error whatever tables follow. */
  lemma {:induction false} FoldErrorStops(tables: seq<Table>, join: Joiner, k: nat, e: MergeError)
    requires AllWellFormed(tables) && Rectangular(join) && 1 <= k <= |tables|
    requires Fold(tables[..k], join) == Err(e)
    ensures Fold(tables, join) == Err(e)
  {
    if k < |tables| {
      var n := |tables| - 1;
      assert tables[..n][..k] == tables[..k];
      FoldErrorStops(tables[..n], join, k, e);
    } else {
      assert tables[..k] == tables;
    }
  }

  /** The accumulator has a `created_date` column exactly when one of the tables folded so far has one. */
  lemma {:induction false} FoldDateColumn(tables: seq<Table>, join: Joiner)
    requires AllWellFormed(tables) && Rectangular(join) && KeepsDateColumn(join)
    requires Fold(tables, join).Ok?
    ensures DateKey in Fold(tables, join).value.columns <==>
      exists j :: 0 <= j < |tables| && DateKey in tables[j].columns
  {
    if |tables| > 1 {
      var n := |tables| - 1;
      var acc := Fold(tables[..n], join).value;
      FoldDateColumn(tables[..n], join);
      assert Fold(tables, join) == join(acc, tables[n], JoinKeys(acc, tables[n]));
      if DateKey in acc.columns {
        var j :| 0 <= j < n && DateKey in tables[..n][j].columns;
        assert DateKey in tables[j].columns;
      }
      if exists j :: 0 <= j < n && DateKey in tables[j].columns {
        var j :| 0 <= j < n && DateKey in tables[j].columns;
        assert DateKey in tables[..n][j].columns;
      }
    }
  }

  /** Step `k` of the fold joins the accumulator so far with table `k`. */
  lemma FoldStep(tables: seq<Table>, join: Joiner, k: nat)
    requires AllWellFormed(tables) && Rectangular(join)
    requires 1 <= k < |tables| && Fold(tables[..k], join).Ok?
    ensures var acc := Fold(tables[..k], join).value;
      Fold(tables[..k + 1], join) == join(acc, tables[k], JoinKeys(acc, tables[k]))
  {
    var ts := tables[..k + 1];
    assert ts[..k] == tables[..k] && ts[k] == tables[k];
  }

  /**
   * Step `k` of the fold joins the accumulator with table `k` on `name` and `created_date`
   * exactly when table `k` and some earlier table both have a `created_date` column.
   */
  lemma FoldStepKeys(tables: seq<Table>, join: Joiner, k: nat)
    requires AllWellFormed(tables) && Rectangular(join) && KeepsDateColumn(join)
    requires 1 <= k < |tables| && Fold(tables[..k], join).Ok?
    ensures var acc := Fold(tables[..k], join).value;
      Fold(tables[..k + 1], join) == join(acc, tables[k], JoinKeys(acc, tables[k]))
    ensures JoinKeys(Fold(tables[..k], join).value, tables[k]) == [NameKey, DateKey] <==>
      (exists j :: 0 <= j < k && DateKey in tables[j].columns) && DateKey in tables[k].columns
    ensures JoinKeys(Fold(tables[..k], join).value, tables[k]) == [NameKey] <==>
      !((exists j :: 0 <= j < k && DateKey in tables[j].columns) && DateKey in tables[k].columns)
  {
    FoldStep(tables, join, k);
    FoldDateColumn(tables[..k], join);
    if exists j :: 0 <= j < k && DateKey in tables[j].columns {
      var j :| 0 <= j < k && DateKey in tables[j].columns;
      assert DateKey in tables[..k][j].columns;
    }
    if exists j :: 0 <= j < k && DateKey in tables[..k][j].columns {
      var j :| 0 <= j < k && DateKey in tables[..k][j].columns;
      assert DateKey in tables[j].columns;
    }
  }

  /** Two or more tables fold without error exactly when every one of them has a `name` column. */
  lemma {:induction false} FoldNeedsNames(tables: seq<Table>, join: Joiner)
    requires AllWellFormed(tables) && Rectangular(join) && NeedsNames(join) && |tables| >= 2
    ensures Fold(tables, join).Ok? <==> forall j :: 0 <= j < |tables| ==> NameKey in tables[j].columns
    ensures Fold(tables, join).Ok? ==> NameKey in Fold(tables, join).value.columns
  {
    var n := |tables| - 1;
    var prefix := tables[..n];
    if n == 1 {
      assert prefix == [tables[0]];
    } else {
      FoldNeedsNames(prefix, join);
    }
    assert forall j :: 0 <= j < n ==> prefix[j] == tables[j];
  }

  /** `merge_dataFrames` ends with a `created_date` column exactly when some input table has one. */
  lemma MergeDateColumn(tables: seq<Table>)
    requires AllWellFormed(tables) && MergeAll(tables).Ok?
    ensures DateKey in MergeAll(tables).value.columns <==>
      exists j :: 0 <= j < |tables| && DateKey in tables[j].columns
  {
    OuterJoinKeepsDateColumn();
    FoldDateColumn(tables, OuterJoinFn());
  }

  /** Step `k` of `merge_dataFrames` joins on both keys exactly when table `k` and an earlier table have `created_date`. */
  lemma MergeStepKeys(tables: seq<Table>, k: nat)
    requires AllWellFormed(tables) && 1 <= k < |tables| && MergeAll(tables[..k]).Ok?
    ensures var acc := MergeAll(tables[..k]).value;
      MergeAll(tables[..k + 1]) == OuterJoin(acc, tables[k], JoinKeys(acc, tables[k]))
    ensures JoinKeys(MergeAll(tables[..k]).value, tables[k]) == [NameKey, DateKey] <==>
      (exists j :: 0 <= j < k && DateKey in tables[j].columns) && DateKey in tables[k].columns
  {
    OuterJoinKeepsDateColumn();
    FoldStepKeys(tables, OuterJoinFn(), k);
  }

  /** Two or more tables merge without error exactly when every one of them has a `name` column. */
  lemma MergeNeedsNames(tables: seq<Table>)
    requires AllWellFormed(tables) && |tables| >= 2
    ensures MergeAll(tables).Ok? <==> forall j :: 0 <= j < |tables| ==> NameKey in tables[j].columns
  {
    OuterJoinNeedsNames();
    FoldNeedsNames(tables, OuterJoinFn());
  }

  // ---------------------------------------------------------------- the loop

  /** One pass of the loop: choose the keys for the accumulator and table `k`, and join them. */
  method JoinNext(tables: seq<Table>, join: Joiner, k: nat, acc: Table) returns (joined: Result<Table, MergeError>)
    requires AllWellFormed(tables) && Rectangular(join)
    requires 1 <= k < |tables| && Fold(tables[..k], join) == Ok(acc)
    ensures joined == Fold(tables[..k + 1], join)
  {
    var keys := if DateKey in acc.columns && DateKey in tables[k].columns then [NameKey, DateKey] else [NameKey];
    FoldStep(tables, join, k);
    joined := join(acc, tables[k], keys);
  }

  /**
   * The loop of `merge_dataFrames`: `i` runs over every position, and the join with table
   * `i + 1` happens while `i` is not the last one.
   */
  method MergeFrames(tables: seq<Table>) returns (r: Result<Table, MergeError>)
    requires AllWellFormed(tables)
    ensures r == MergeAll(tables)
    ensures |tables| == 1 ==> r == Ok(tables[0])
  {
    if |tables| == 0 {
      return Err(EmptyTableList);
    }
    var join := OuterJoinFn();
    var acc := tables[0];
    assert tables[..1] == [tables[0]];
    for i := 0 to |tables|
      invariant Fold(tables[..if i < |tables| then i + 1 else |tables|], join) == Ok(acc)
    {
      if i < |tables| - 1 {
        var joined := JoinNext(tables, join, i + 1, acc);
        if joined.Err? {
          FoldErrorStops(tables, join, i + 2, joined.error);
          return joined;
        }
        acc := joined.value;
      }
    }
    assert tables[..|tables|] == tables;
    r := Ok(acc);
  }
}
