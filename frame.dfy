/** The part of a pandas DataFrame that the pipeline relies on: labelled
    columns in order, rows as maps from label to cell, boolean-mask selection,
    concatenation, renaming, and in-place column insertion and assignment.
    A row is identified by its position; pandas' index is not modelled. */
module Frame {

  datatype Option<+T> = None | Some(value: T)

  /** One cell: missing (NaN or None), an integer, a float, a string or a boolean. */
  datatype Cell = Null | Int(i: int) | Num(x: real) | Text(s: string) | Flag(b: bool)

  type Row = map<string, Cell>

  datatype Table = Table(columns: seq<string>, rows: seq<Row>)

  /** The Python exceptions the modelled pandas operations raise. */
  datatype Error =
    | KeyError(name: string)
    | TypeError(name: string)
    | AttributeError(name: string)
    | ValueError(reason: string)
    | IndexError(position: int)

  datatype Result<+T> = Ok(value: T) | Err(error: Error)

  /** A column of values to insert or assign: a broadcast scalar or one cell per row. */
  datatype Column = Scalar(cell: Cell) | Cells(cells: seq<Cell>)

  function Get(row: Row, name: string): Cell {
    if name in row then row[name] else Null
  }

  predicate Distinct<T(==)>(s: seq<T>) {
    forall i, j :: 0 <= i < j < |s| ==> s[i] != s[j]
  }

  /** No label is repeated and every row carries exactly the table's labels. */
  ghost predicate WellFormed(t: Table) {
    && Distinct(t.columns)
    && forall row :: row in t.rows ==> row.Keys == set c | c in t.columns
  }

  /** `df.columns.get_loc(name)` on unique labels: the position of the column with
      that label (the first one, should the label be repeated). */
  function IndexOf(labels: seq<string>, name: string): (i: nat)
    requires name in labels
    ensures i < |labels| && labels[i] == name && name !in labels[..i]
  {
    if labels[0] == name then 0 else 1 + IndexOf(labels[1..], name)
  }

  /** The numeric value a comparison sees; Python compares booleans as 0 and 1. */
  function Numeric(c: Cell): Option<real> {
    match c
    case Int(i) => Some(i as real)
    case Num(x) => Some(x)
    case Flag(b) => Some(if b then 1.0 else 0.0)
    case _ => None
  }

  predicate StartsWith(s: string, pattern: string) {
    |pattern| <= |s| && s[..|pattern|] == pattern
  }

  /** `pattern in s`, the test `str.contains` makes for a pattern with no regex metacharacters. */
  predicate Contains(s: string, pattern: string)
    decreases |s|
  {
    StartsWith(s, pattern) || (s != [] && Contains(s[1..], pattern))
  }

  // ---------------------------------------------------------------------------
  // Boolean masks

  /** The per-row conditions that the pipeline's boolean masks test. */
  datatype Check =
    | AtLeast(name: string, bound: real)               // df[name] >= bound
    | Within(name: string, lower: real, upper: real)   // (df[name] >= lower) & (df[name] <= upper)
    | Present(name: string)                            // dropna(subset=[name])
    | Lacks(name: string, pattern: string)             // ~df[name].str.contains(pattern)

  /** Whether a row passes a check. A missing value fails every comparison, as NaN does. */
  predicate Passes(row: Row, check: Check) {
    match check
    case AtLeast(l, b) => Numeric(Get(row, l)).Some? && Numeric(Get(row, l)).value >= b
    case Within(l, lo, hi) =>
      Numeric(Get(row, l)).Some? && lo <= Numeric(Get(row, l)).value <= hi
    case Present(l) => Get(row, l) != Null
    case Lacks(l, p) => Get(row, l).Text? && !Contains(Get(row, l).s, p)
  }

  /** Whether evaluating the check on this cell raises: text compared with a
      number, or a string method applied to a value that is not a string. */
  predicate Raises(c: Cell, check: Check) {
    match check
    case AtLeast(_, _) => c.Text?
    case Within(_, _, _) => c.Text?
    case Present(_) => false
    case Lacks(_, _) => !c.Text?
  }

  predicate PassesAll(row: Row, checks: seq<Check>) {
    forall k :: 0 <= k < |checks| ==> Passes(row, checks[k])
  }

  /** The rows that pass every check, in their original order. */
  function Keep(rows: seq<Row>, checks: seq<Check>): (kept: seq<Row>)
    ensures |kept| <= |rows|
    ensures forall row :: row in kept <==> row in rows && PassesAll(row, checks)
  {
    if rows == [] then []
    else (if PassesAll(rows[0], checks) then [rows[0]] else []) + Keep(rows[1..], checks)
  }

  /** A mask keeps every copy of a passing row and no copy of a failing one. */
  lemma {:induction false} KeepKeepsEveryCopy(rows: seq<Row>, checks: seq<Check>, row: Row)
    ensures multiset(Keep(rows, checks))[row] == if PassesAll(row, checks) then multiset(rows)[row] else 0
    decreases |rows|
  {
    if rows != [] {
      KeepKeepsEveryCopy(rows[1..], checks, row);
      assert rows == [rows[0]] + rows[1..];
    }
  }

  /** `a` is `b` with some elements left out and the rest in their order. */
  ghost predicate IsSubsequence<T>(a: seq<T>, b: seq<T>)
    decreases |b|
  {
    a == [] || (b != [] && ((a[0] == b[0] && IsSubsequence(a[1..], b[1..])) || IsSubsequence(a, b[1..])))
  }

  /** Masking never reorders: the kept rows are a subsequence of the input. */
  lemma {:induction false} KeepIsSubsequence(rows: seq<Row>, checks: seq<Check>)
    ensures IsSubsequence(Keep(rows, checks), rows)
  {
    if rows != [] {
      KeepIsSubsequence(rows[1..], checks);
      var rest := Keep(rows[1..], checks);
      if PassesAll(rows[0], checks) {
        assert Keep(rows, checks) == [rows[0]] + rest;
        assert ([rows[0]] + rest)[1..] == rest;
      } else {
        assert Keep(rows, checks) == rest;
      }
    }
  }

  lemma {:induction false} KeepNothing(rows: seq<Row>)
    ensures Keep(rows, []) == rows
  {
    if rows != [] {
      KeepNothing(rows[1..]);
      assert rows == [rows[0]] + rows[1..];
    }
  }

  /** Applying masks one after the other is the same as one mask with all the checks. */
  lemma {:induction false} KeepThenKeep(rows: seq<Row>, first: seq<Check>, second: seq<Check>)
    ensures Keep(Keep(rows, first), second) == Keep(rows, first + second)
  {
    if rows != [] {
      KeepThenKeep(rows[1..], first, second);
      var r := rows[0];
      assert PassesAll(r, first + second) <==> PassesAll(r, first) && PassesAll(r, second) by {
        if PassesAll(r, first) && PassesAll(r, second) {
          forall k | 0 <= k < |first + second| ensures Passes(r, (first + second)[k]) {
            if k >= |first| {
              assert (first + second)[k] == second[k - |first|];
            } else {
              assert (first + second)[k] == first[k];
            }
          }
        }
        if PassesAll(r, first + second) {
          forall k | 0 <= k < |first| ensures Passes(r, first[k]) {
            assert (first + second)[k] == first[k];
          }
          forall k | 0 <= k < |second| ensures Passes(r, second[k]) {
            assert (first + second)[|first| + k] == second[k];
          }
        }
      }
      if PassesAll(r, first) {
        assert Keep(rows, first) == [r] + Keep(rows[1..], first);
        assert ([r] + Keep(rows[1..], first))[1..] == Keep(rows[1..], first);
      } else {
        assert Keep(rows, first) == Keep(rows[1..], first);
      }
    }
  }

  /** The `.str` accessor refuses a column that holds values but no string at all. */
  predicate NoStrings(rows: seq<Row>, name: string) {
    && (exists row :: row in rows && Get(row, name) != Null)
    && forall row :: row in rows ==> !Get(row, name).Text?
  }

  /** One boolean-mask step `df[mask]`, where the mask evaluates `check`:
      KeyError when the column is absent, AttributeError when a string method is
      applied to a column without strings, TypeError when some row's cell makes
      the comparison raise, otherwise the rows that pass, columns unchanged. */
  function Select(t: Table, check: Check): (r: Result<Table>)
    ensures check.name !in t.columns ==> r == Err(KeyError(check.name))
    ensures check.name in t.columns && check.Lacks? && NoStrings(t.rows, check.name) ==>
      r == Err(AttributeError(check.name))
    ensures r.Err? && check.name in t.columns && !(check.Lacks? && NoStrings(t.rows, check.name)) ==>
      r == Err(TypeError(check.name))
    ensures r.Ok? <==> check.name in t.columns && forall row :: row in t.rows ==> !Raises(Get(row, check.name), check)
    ensures r.Ok? ==> r.value == Table(t.columns, Keep(t.rows, [check]))
  {
    if check.name !in t.columns then Err(KeyError(check.name))
    else if check.Lacks? && NoStrings(t.rows, check.name) then Err(AttributeError(check.name))
    else if exists row :: row in t.rows && Raises(Get(row, check.name), check) then Err(TypeError(check.name))
    else Ok(Table(t.columns, Keep(t.rows, [check])))
  }

  /** Masks applied one after the other, `df = df[mask]` once per check: the first
      step that raises ends the sequence. */
  function SelectAll(t: Table, checks: seq<Check>): (r: Result<Table>)
    decreases |checks|
  {
    if checks == [] then Ok(t)
    else
      match SelectAll(t, checks[..|checks| - 1])
      case Err(e) => Err(e)
      case Ok(u) => Select(u, checks[|checks| - 1])
  }

  /** Step `k` of a mask sequence succeeds: its column exists and no row that
      survived the earlier steps makes its comparison raise. */
  predicate StepSucceeds(t: Table, checks: seq<Check>, k: int)
    requires 0 <= k < |checks|
  {
    && checks[k].name in t.columns
    && forall row :: row in Keep(t.rows, checks[..k]) ==> !Raises(Get(row, checks[k].name), checks[k])
  }

  /** Applying the masks one at a time keeps the rows that pass all of them, in
      order, with the columns unchanged. */
  lemma {:induction false} SelectAllKeeps(t: Table, checks: seq<Check>)
    ensures SelectAll(t, checks).Ok? ==> SelectAll(t, checks).value == Table(t.columns, Keep(t.rows, checks))
    decreases |checks|
  {
    if checks == [] {
      KeepNothing(t.rows);
    } else {
      var n := |checks| - 1;
      SelectAllKeeps(t, checks[..n]);
      assert checks[..n] + [checks[n]] == checks;
      if SelectAll(t, checks[..n]).Ok? {
        KeepThenKeep(t.rows, checks[..n], [checks[n]]);
      }
    }
  }

  /** Applying the masks one at a time succeeds exactly when every step does. */
  lemma {:induction false} SelectAllSucceeds(t: Table, checks: seq<Check>)
    ensures SelectAll(t, checks).Ok? <==> forall k :: 0 <= k < |checks| ==> StepSucceeds(t, checks, k)
    decreases |checks|
  {
    if checks != [] {
      var n := |checks| - 1;
      var init := checks[..n];
      SelectAllSucceeds(t, init);
      EarlierStepsAgree(t, checks, n);
      if SelectAll(t, init).Err? {
        var k :| 0 <= k < n && !StepSucceeds(t, init, k);
        assert !StepSucceeds(t, checks, k);
      } else {
        LastStep(t, checks);
      }
    }
  }

  /** When the earlier steps succeed, the whole sequence succeeds exactly when the last step does. */
  lemma LastStep(t: Table, checks: seq<Check>)
    requires checks != [] && SelectAll(t, checks[..|checks| - 1]).Ok?
    ensures SelectAll(t, checks).Ok? <==> StepSucceeds(t, checks, |checks| - 1)
  {
    var n := |checks| - 1;
    SelectAllKeeps(t, checks[..n]);
    var u := SelectAll(t, checks[..n]).value;
    assert SelectAll(t, checks) == Select(u, checks[n]);
  }

  lemma EarlierStepsAgree(t: Table, checks: seq<Check>, n: nat)
    requires n <= |checks|
    ensures forall k :: 0 <= k < n ==> (StepSucceeds(t, checks, k) <==> StepSucceeds(t, checks[..n], k))
  {
    forall k | 0 <= k < n
      ensures StepSucceeds(t, checks, k) <==> StepSucceeds(t, checks[..n], k)
    {
      assert checks[..k] == checks[..n][..k];
    }
  }

  /** Once a step has raised, applying more masks does not recover. */
  lemma {:induction false} SelectAllErrSticks(t: Table, checks: seq<Check>, i: nat)
    requires i <= |checks| && SelectAll(t, checks[..i]).Err?
    ensures SelectAll(t, checks) == SelectAll(t, checks[..i])
    decreases |checks| - i
  {
    if i < |checks| {
      assert checks[..i + 1][..i] == checks[..i];
      SelectAllErrSticks(t, checks, i + 1);
    } else {
      assert checks[..i] == checks;
    }
  }

  lemma {:induction false} KeepPreservesWellFormed(t: Table, checks: seq<Check>)
    requires WellFormed(t)
    ensures WellFormed(Table(t.columns, Keep(t.rows, checks)))
  {
  }

  // ---------------------------------------------------------------------------
  // pd.concat(frames, ignore_index=True)

  /** The labels of `u` from position `n` on come from `more`, ordered by where they first appear in it. */
  ghost predicate InOrderOf(u: seq<string>, n: nat, more: seq<string>) {
    && n <= |u|
    && (forall i :: n <= i < |u| ==> u[i] in more)
    && forall i, j :: n <= i < j < |u| ==>
      u[i] in more && u[j] in more && IndexOf(more, u[i]) < IndexOf(more, u[j])
  }

  /** `acc` followed by the labels of `more` it does not hold yet, in order of first appearance. */
  function Union(acc: seq<string>, more: seq<string>): (u: seq<string>)
    ensures |acc| <= |u| && u[..|acc|] == acc
    ensures forall c :: c in u <==> c in acc || c in more
    ensures forall i :: |acc| <= i < |u| ==> u[i] !in acc
    ensures InOrderOf(u, |acc|, more)
    ensures Distinct(acc) ==> Distinct(u)
    decreases |more|
  {
    if more == [] then acc
    else
      var next := if more[0] in acc then acc else acc + [more[0]];
      var u := Union(next, more[1..]);
      UnionStep(acc, more, u);
      u
  }

  /** One label of `more` taken: the order among the rest carries over to `more`. */
  lemma UnionStep(acc: seq<string>, more: seq<string>, u: seq<string>)
    requires more != []
    requires var next := if more[0] in acc then acc else acc + [more[0]];
      && |next| <= |u| && u[..|next|] == next
      && InOrderOf(u, |next|, more[1..])
      && forall i :: |next| <= i < |u| ==> u[i] !in next
    ensures InOrderOf(u, |acc|, more)
  {
    forall c | c in more[1..] && c != more[0] ensures IndexOf(more, c) == 1 + IndexOf(more[1..], c) {
    }
  }

  /** The labels of all frames, one frame after another. */
  function Labels(frames: seq<Table>): seq<string> {
    if frames == [] then [] else frames[0].columns + Labels(frames[1..])
  }

  /** Taking the union with two label lists in turn is taking it with both at once. */
  lemma {:induction false} UnionOfAppend(acc: seq<string>, a: seq<string>, b: seq<string>)
    ensures Union(Union(acc, a), b) == Union(acc, a + b)
    decreases |a|
  {
    if a == [] {
      assert a + b == b;
    } else {
      assert (a + b)[0] == a[0] && (a + b)[1..] == a[1..] + b;
      UnionOfAppend(if a[0] in acc then acc else acc + [a[0]], a[1..], b);
    }
  }

  /** The frames' labels folded into `acc` one frame at a time. */
  function UnionAll(acc: seq<string>, frames: seq<Table>): (u: seq<string>)
    ensures |acc| <= |u| && u[..|acc|] == acc
    ensures forall c :: c in u <==> c in acc || exists k :: 0 <= k < |frames| && c in frames[k].columns
    ensures Distinct(acc) ==> Distinct(u)
    decreases |frames|
  {
    if frames == [] then acc
    else
      var u := UnionAll(Union(acc, frames[0].columns), frames[1..]);
      assert forall k :: 0 < k < |frames| ==> frames[k] == frames[1..][k - 1];
      u
  }

  /** Folding frame by frame is taking the union with all their labels at once. */
  lemma {:induction false} UnionAllIsUnion(acc: seq<string>, frames: seq<Table>)
    ensures UnionAll(acc, frames) == Union(acc, Labels(frames))
    decreases |frames|
  {
    if frames != [] {
      UnionAllIsUnion(Union(acc, frames[0].columns), frames[1..]);
      UnionOfAppend(acc, frames[0].columns, Labels(frames[1..]));
    }
  }

  /** The columns of the concatenation: the union of the inputs' labels in order of appearance. */
  function AllColumns(frames: seq<Table>): seq<string> {
    UnionAll([], frames)
  }

  /** The concatenation's columns are every label of every input once, ordered by
      where each first appears, frame after frame. */
  lemma AllColumnsInOrder(frames: seq<Table>)
    ensures forall c :: c in AllColumns(frames) <==> c in Labels(frames)
    ensures InOrderOf(AllColumns(frames), 0, Labels(frames))
    ensures Distinct(AllColumns(frames))
  {
    UnionAllIsUnion([], frames);
  }

  function AllRows(frames: seq<Table>): (rows: seq<Row>)
    ensures |rows| == TotalRows(frames)
  {
    if frames == [] then [] else frames[0].rows + AllRows(frames[1..])
  }

  function TotalRows(frames: seq<Table>): nat {
    if frames == [] then 0 else |frames[0].rows| + TotalRows(frames[1..])
  }

  /** A row of the concatenation: the labels it lacks are filled with NaN. */
  function Pad(row: Row, labels: seq<string>): Row {
    map c | c in labels :: Get(row, c)
  }

  /** Concatenation keeps every row, in order, padded to the union of the labels;
      pandas refuses to concatenate nothing. */
  function Concat(frames: seq<Table>): (r: Result<Table>)
    ensures r.Err? <==> frames == []
    ensures r.Ok? ==> r.value.columns == AllColumns(frames) && |r.value.rows| == TotalRows(frames)
    ensures r.Ok? ==> forall c :: c in r.value.columns <==> exists k :: 0 <= k < |frames| && c in frames[k].columns
    ensures r.Ok? ==> WellFormed(r.value)
    ensures r.Ok? ==> forall i :: 0 <= i < |r.value.rows| ==> r.value.rows[i] == Pad(AllRows(frames)[i], r.value.columns)
  {
    if frames == [] then Err(ValueError("No objects to concatenate"))
    else
      var labels := AllColumns(frames);
      var rows := AllRows(frames);
      var t := Table(labels, seq(|rows|, i requires 0 <= i < |rows| => Pad(rows[i], labels)));
      assert forall row :: row in t.rows ==> row.Keys == set c | c in labels;
      Ok(t)
  }

  // ---------------------------------------------------------------------------
  // df.rename(columns={from: to})

  function RenameLabel(labels: seq<string>, from: string, to: string): (r: seq<string>)
    ensures |r| == |labels|
    ensures forall i :: 0 <= i < |labels| ==> r[i] == if labels[i] == from then to else labels[i]
  {
    seq(|labels|, i requires 0 <= i < |labels| => if labels[i] == from then to else labels[i])
  }

  function RenameKey(row: Row, from: string, to: string): Row {
    if from in row then (row - {from})[to := row[from]] else row
  }

  /** Renaming a label that is absent leaves the frame as it is (pandas ignores it).
      A frame cannot hold the same label twice, so the new label must be free. */
  function Rename(t: Table, from: string, to: string): (r: Table)
    requires from in t.columns ==> to !in t.columns
    ensures WellFormed(t) ==> WellFormed(r)
    ensures r.columns == RenameLabel(t.columns, from, to)
    ensures from in t.columns ==> to in r.columns && from !in r.columns
    ensures |r.rows| == |t.rows|
    ensures forall i :: 0 <= i < |r.rows| ==> r.rows[i] == RenameKey(t.rows[i], from, to)
    ensures WellFormed(t) && from in t.columns ==>
      forall i :: 0 <= i < |r.rows| ==> Get(r.rows[i], to) == Get(t.rows[i], from)
  {
    var rows := seq(|t.rows|, i requires 0 <= i < |t.rows| => RenameKey(t.rows[i], from, to));
    var r := Table(RenameLabel(t.columns, from, to), rows);
    assert WellFormed(t) ==> WellFormed(r) by {
      if WellFormed(t) {
        RenameLabelDistinct(t.columns, from, to);
        forall row | row in r.rows ensures row.Keys == set c | c in r.columns {
          var i :| 0 <= i < |rows| && rows[i] == row;
          assert t.rows[i] in t.rows;
          RenameKeyKeys(t.rows[i], t.columns, from, to);
        }
      }
    }
    r
  }

  /** Renaming into a free label keeps the labels distinct. */
  lemma RenameLabelDistinct(labels: seq<string>, from: string, to: string)
    requires Distinct(labels) && (from in labels ==> to !in labels)
    ensures Distinct(RenameLabel(labels, from, to))
  {
    var r := RenameLabel(labels, from, to);
    forall i, j | 0 <= i < j < |r| ensures r[i] != r[j] {
      assert labels[i] != labels[j];
      assert labels[i] in labels && labels[j] in labels;
    }
  }

  /** A renamed row carries exactly the renamed labels. */
  lemma RenameKeyKeys(row: Row, labels: seq<string>, from: string, to: string)
    requires row.Keys == set c | c in labels
    requires from in labels ==> to !in labels
    ensures RenameKey(row, from, to).Keys == set c | c in RenameLabel(labels, from, to)
  {
    var r := RenameLabel(labels, from, to);
    forall c ensures c in RenameKey(row, from, to).Keys <==> c in r {
      if c in r {
        var i :| 0 <= i < |r| && r[i] == c;
        assert labels[i] in labels;
      }
      if c in labels && c != from {
        var i :| 0 <= i < |labels| && labels[i] == c;
        assert r[i] == c;
      }
      if from in labels && c == to {
        var i :| 0 <= i < |labels| && labels[i] == from;
        assert r[i] == to;
      }
    }
  }

  // ---------------------------------------------------------------------------
  // In-place operations

  function ValueAt(value: Column, i: nat): Cell
    requires value.Cells? ==> i < |value.cells|
  {
    if value.Scalar? then value.cell else value.cells[i]
  }

  /** Every row given the value of the column `name` at its position. */
  function WithColumn(rows: seq<Row>, name: string, value: Column): (r: seq<Row>)
    requires value.Cells? ==> |value.cells| == |rows|
    ensures |r| == |rows|
    ensures forall i :: 0 <= i < |rows| ==> r[i] == rows[i][name := ValueAt(value, i)]
  {
    seq(|rows|, i requires 0 <= i < |rows| => rows[i][name := ValueAt(value, i)])
  }

  /** Rows that carried exactly `labels` carry exactly `labels` and `name` once the column is set. */
  lemma {:induction false} WithColumnLabels(rows: seq<Row>, name: string, value: Column, labels: set<string>)
    requires value.Cells? ==> |value.cells| == |rows|
    requires forall row :: row in rows ==> row.Keys == labels
    ensures forall row :: row in WithColumn(rows, name, value) ==> row.Keys == labels + {name}
  {
    var r := WithColumn(rows, name, value);
    forall row | row in r ensures row.Keys == labels + {name} {
      var i :| 0 <= i < |r| && r[i] == row;
      assert rows[i] in rows;
    }
  }

  /** The exception `df.insert(loc, name, value)` raises, in the order pandas checks. */
  function InsertError(t: Table, loc: int, name: string, value: Column): Option<Error> {
    if name in t.columns then Some(ValueError("cannot insert " + name + ", already exists"))
    else if value.Cells? && |value.cells| != |t.rows| then Some(ValueError("Length of values does not match length of index"))
    else if !(0 <= loc <= |t.columns|) then Some(IndexError(loc))
    else None
  }

  /** A DataFrame object, for the steps the pipeline performs on a frame in place. */
  class DataFrame {
    var columns: seq<string>
    var rows: seq<Row>

    constructor (t: Table)
      ensures Value() == t
    {
      columns := t.columns;
      rows := t.rows;
    }

    function Value(): Table
      reads this
    {
      Table(columns, rows)
    }

    /** `df.insert(loc, name, value)`: the new column sits at position `loc`,
        the others keep their order, and every row gains the label. */
    method Insert(loc: int, name: string, value: Column) returns (raised: Option<Error>)
      modifies this
      ensures raised == InsertError(old(Value()), loc, name, value)
      ensures raised.Some? ==> Value() == old(Value())
      ensures raised.None? ==> columns == old(columns)[..loc] + [name] + old(columns)[loc..]
      ensures raised.None? ==> |rows| == |old(rows)|
      ensures raised.None? ==> forall i :: 0 <= i < |rows| ==> rows[i] == old(rows)[i][name := ValueAt(value, i)]
      ensures WellFormed(old(Value())) ==> WellFormed(Value())
    {
      raised := InsertError(Value(), loc, name, value);
      if raised.None? {
        var before := Value();
        columns := columns[..loc] + [name] + columns[loc..];
        rows := WithColumn(rows, name, value);
        assert WellFormed(before) ==> WellFormed(Value()) by {
          if WellFormed(before) {
            assert (set c | c in columns) == (set c | c in before.columns) + {name};
            WithColumnLabels(before.rows, name, value, set c | c in before.columns);
            forall i, j | 0 <= i < j < |columns| ensures columns[i] != columns[j] {
              if i < loc && j < loc {
                assert columns[i] == before.columns[i] && columns[j] == before.columns[j];
              } else if i < loc && j > loc {
                assert columns[i] == before.columns[i] && columns[j] == before.columns[j - 1];
              } else if i > loc {
                assert columns[i] == before.columns[i - 1] && columns[j] == before.columns[j - 1];
              } else if i < loc {
                assert columns[i] == before.columns[i];
              } else {
                assert columns[j] == before.columns[j - 1];
              }
            }
          }
        }
      }
    }

    /** `df[name] = value`: an existing column is overwritten where it stands,
        a new one is appended after the others. */
    method Assign(name: string, value: Column) returns (raised: Option<Error>)
      modifies this
      ensures raised.Some? <==> value.Cells? && |value.cells| != |old(rows)|
      ensures raised.Some? ==> Value() == old(Value())
      ensures raised.None? ==> columns == if name in old(columns) then old(columns) else old(columns) + [name]
      ensures raised.None? ==> |rows| == |old(rows)|
      ensures raised.None? ==> forall i :: 0 <= i < |rows| ==> rows[i] == old(rows)[i][name := ValueAt(value, i)]
      ensures WellFormed(old(Value())) ==> WellFormed(Value())
    {
      if value.Cells? && |value.cells| != |rows| {
        raised := Some(ValueError("Length of values does not match length of index"));
      } else {
        raised := None;
        var before := Value();
        if name !in columns {
          columns := columns + [name];
        }
        rows := WithColumn(rows, name, value);
        assert WellFormed(before) ==> WellFormed(Value()) by {
          if WellFormed(before) {
            assert (set c | c in columns) == (set c | c in before.columns) + {name};
            WithColumnLabels(before.rows, name, value, set c | c in before.columns);
          }
        }
      }
    }
  }
}
