/** Row cleaning before modelling (project/notebook.py:311-336, 373-384): drop
    values close to zero, drop IQR outliers column by column, and attach the
    grouped building category, dropping rows whose class has none. */
module Cleaning {
  import opened Frame
  import opened Categories

  /** `thresholds`: a row is kept only when each column is at least its bound. */
  const Thresholds: seq<(string, real)> :=
    [("SALE PRICE", 100000.0), ("GROSS SQUARE FEET", 100.0), ("LAND SQUARE FEET", 100.0)]

  /** With the notebook's own thresholds, a filtering that succeeds found all three
      columns, and every surviving sale is priced at least $100,000 on at least
      100 square feet of building and of land. */
  lemma NotebookFloors(t: Table)
    requires SelectAll(t, Floors(Thresholds)).Ok?
    ensures "SALE PRICE" in t.columns && "GROSS SQUARE FEET" in t.columns && "LAND SQUARE FEET" in t.columns
    ensures forall row :: row in SelectAll(t, Floors(Thresholds)).value.rows ==>
      && Numeric(Get(row, "SALE PRICE")).Some? && Numeric(Get(row, "SALE PRICE")).value >= 100000.0
      && Numeric(Get(row, "GROSS SQUARE FEET")).Some? && Numeric(Get(row, "GROSS SQUARE FEET")).value >= 100.0
      && Numeric(Get(row, "LAND SQUARE FEET")).Some? && Numeric(Get(row, "LAND SQUARE FEET")).value >= 100.0
  {
    var checks := Floors(Thresholds);
    SelectAllKeeps(t, checks);
    SelectAllSucceeds(t, checks);
    assert checks[0] == AtLeast("SALE PRICE", 100000.0);
    assert checks[1] == AtLeast("GROSS SQUARE FEET", 100.0);
    assert checks[2] == AtLeast("LAND SQUARE FEET", 100.0);
    assert StepSucceeds(t, checks, 0) && StepSucceeds(t, checks, 1) && StepSucceeds(t, checks, 2);
    forall row | row in Keep(t.rows, checks)
      ensures Passes(row, checks[0]) && Passes(row, checks[1]) && Passes(row, checks[2])
    {
      assert PassesAll(row, checks);
    }
  }

  /** The mask `df[col] >= threshold` for each threshold, in order. */
  function Floors(thresholds: seq<(string, real)>): (checks: seq<Check>)
    ensures |checks| == |thresholds|
    ensures forall k :: 0 <= k < |thresholds| ==> checks[k] == AtLeast(thresholds[k].0, thresholds[k].1)
  {
    seq(|thresholds|, k requires 0 <= k < |thresholds| => AtLeast(thresholds[k].0, thresholds[k].1))
  }

  /** Cells 316-317: reassign `data_clean` to its rows at or above each threshold in turn.
      A missing column raises KeyError and text in a compared column raises TypeError. */
  method RemoveNearZero(t: Table, thresholds: seq<(string, real)>) returns (r: Result<Table>)
    ensures r == SelectAll(t, Floors(thresholds))
    ensures r.Ok? <==> forall k :: 0 <= k < |thresholds| ==> StepSucceeds(t, Floors(thresholds), k)
    ensures r.Ok? ==> r.value == Table(t.columns, Keep(t.rows, Floors(thresholds)))
    ensures r.Ok? ==> forall row, k :: row in r.value.rows && 0 <= k < |thresholds| ==>
      Numeric(Get(row, thresholds[k].0)).Some? && Numeric(Get(row, thresholds[k].0)).value >= thresholds[k].1
  {
    var checks := Floors(thresholds);
    SelectAllKeeps(t, checks);
    SelectAllSucceeds(t, checks);
    var data := t;
    for i := 0 to |thresholds|
      invariant SelectAll(t, checks[..i]) == Ok(data)
    {
      var step := Select(data, AtLeast(thresholds[i].0, thresholds[i].1));
      assert checks[..i + 1][..i] == checks[..i];
      if step.Err? {
        SelectAllErrSticks(t, checks, i + 1);
        return step;
      }
      data := step.value;
    }
    assert checks[..|thresholds|] == checks;
    r := Ok(data);
    forall row, k | row in r.value.rows && 0 <= k < |thresholds|
      ensures Numeric(Get(row, thresholds[k].0)).Some? && Numeric(Get(row, thresholds[k].0)).value >= thresholds[k].1
    {
      assert Passes(row, checks[k]);
    }
  }

  // ---------------------------------------------------------------------------
  // IQR outliers

  /** The values `Series.quantile` works on: the column's non-missing numbers, in row order. */
  function Values(rows: seq<Row>, name: string): (v: seq<real>)
    ensures |v| <= |rows|
    ensures forall x :: x in v <==> exists row :: row in rows && Numeric(Get(row, name)) == Some(x)
    ensures (forall row :: row in rows ==> Numeric(Get(row, name)).Some?) ==> |v| == |rows|
    ensures (forall row :: row in rows ==> Numeric(Get(row, name)).None?) ==> v == []
    decreases |rows|
  {
    if rows == [] then []
    else
      var c := Numeric(Get(rows[0], name));
      var rest := Values(rows[1..], name);
      assert forall row :: row in rows <==> row == rows[0] || row in rows[1..];
      (if c.Some? then [c.value] else []) + rest
  }

  /** The values keep the row order: those of one block of rows come before those of the next. */
  lemma {:induction false} ValuesOfAppend(a: seq<Row>, b: seq<Row>, name: string)
    ensures Values(a + b, name) == Values(a, name) + Values(b, name)
    decreases |a|
  {
    if a != [] {
      assert (a + b)[1..] == a[1..] + b;
      ValuesOfAppend(a[1..], b, name);
    } else {
      assert a + b == b;
    }
  }

  /** `Series.quantile(q)`; pandas' interpolation between order statistics is not modelled. */
  type Quantile = (seq<real>, real) -> real

  /** The bounds cells 325-331 compute for one column of the current data:
      `Q1 - 1.5 * IQR .. Q3 + 1.5 * IQR`. A missing column raises KeyError and a
      column holding text raises TypeError. */
  function Fence(u: Table, name: string, quantile: Quantile): (r: Result<Check>)
    ensures name !in u.columns ==> r == Err(KeyError(name))
    ensures r.Ok? <==> name in u.columns && forall row :: row in u.rows ==> !Get(row, name).Text?
    ensures r.Ok? ==> r.value.Within? && r.value.name == name && Select(u, r.value).Ok?
  {
    if name !in u.columns then Err(KeyError(name))
    else if exists row :: row in u.rows && Get(row, name).Text? then Err(TypeError(name))
    else
      var q1 := quantile(Values(u.rows, name), 0.25);
      var q3 := quantile(Values(u.rows, name), 0.75);
      var iqr := q3 - q1;
      Ok(Within(name, q1 - 1.5 * iqr, q3 + 1.5 * iqr))
  }

  /** The SALE PRICE and GROSS SQUARE FEET cells of the frame of
      project/helpers_test.py:138-151: prices 100 to 400 and a missing one, areas
      100 to 500. */
  predicate ThresholdSample(rows: seq<Row>) {
    && |rows| == 5
    && Get(rows[0], "SALE PRICE") == Num(100.0) && Get(rows[1], "SALE PRICE") == Num(200.0)
    && Get(rows[2], "SALE PRICE") == Num(300.0) && Get(rows[3], "SALE PRICE") == Num(400.0)
    && Get(rows[4], "SALE PRICE") == Null
    && Get(rows[1], "GROSS SQUARE FEET") == Int(200) && Get(rows[2], "GROSS SQUARE FEET") == Int(300)
    && Get(rows[3], "GROSS SQUARE FEET") == Int(400)
  }

  /** The SALE PRICE mask of that test drops the first row (100) and the last (no price). */
  lemma {:induction false} SamplePriceMask(r: seq<Row>)
    requires ThresholdSample(r)
    ensures Keep(r, [AtLeast("SALE PRICE", 150.0)]) == r[1..4]
  {
    var c := [AtLeast("SALE PRICE", 150.0)];
    assert c[0] == AtLeast("SALE PRICE", 150.0);
    assert !PassesAll(r[0], c) && PassesAll(r[1], c) && PassesAll(r[2], c) && PassesAll(r[3], c) && !PassesAll(r[4], c);
    assert Keep(r[4..], c) == [] by {
      assert r[4..][1..] == [];
    }
    assert Keep(r[3..], c) == [r[3]] by {
      assert r[3..][1..] == r[4..];
    }
    assert Keep(r[2..], c) == [r[2], r[3]] by {
      assert r[2..][1..] == r[3..];
    }
    assert Keep(r[1..], c) == [r[1], r[2], r[3]] by {
      assert r[1..][1..] == r[2..];
    }
    assert r[1..4] == [r[1], r[2], r[3]];
  }

  /** The first mask of that test keeps the rows priced 200, 300 and 400. */
  lemma SamplePriceStep(t: Table)
    requires "SALE PRICE" in t.columns && ThresholdSample(t.rows)
    ensures Select(t, AtLeast("SALE PRICE", 150.0)) == Ok(Table(t.columns, t.rows[1..4]))
  {
    SamplePriceMask(t.rows);
    assert forall row :: row in t.rows ==> !Raises(Get(row, "SALE PRICE"), AtLeast("SALE PRICE", 150.0));
  }

  /** The second mask keeps all three of those rows: their areas are 200 to 400. */
  lemma SampleAreaStep(u: Table)
    requires "GROSS SQUARE FEET" in u.columns && |u.rows| == 3
    requires Get(u.rows[0], "GROSS SQUARE FEET") == Int(200) && Get(u.rows[1], "GROSS SQUARE FEET") == Int(300)
    requires Get(u.rows[2], "GROSS SQUARE FEET") == Int(400)
    ensures Select(u, AtLeast("GROSS SQUARE FEET", 150.0)) == Ok(u)
  {
    var c := AtLeast("GROSS SQUARE FEET", 150.0);
    assert [c][0] == c;
    assert forall row :: row in u.rows ==> PassesAll(row, [c]);
    KeepEverything(u.rows, [c]);
  }

  /** The thresholds of project/helpers_test.py:217 on that frame: the row below 150
      and the row with no price are dropped, three rows remain, the lowest at 200. */
  lemma SampleThresholds(t: Table)
    requires "SALE PRICE" in t.columns && "GROSS SQUARE FEET" in t.columns && ThresholdSample(t.rows)
    ensures SelectAll(t, Floors([("SALE PRICE", 150.0), ("GROSS SQUARE FEET", 150.0)])) ==
      Ok(Table(t.columns, t.rows[1..4]))
  {
    var checks := Floors([("SALE PRICE", 150.0), ("GROSS SQUARE FEET", 150.0)]);
    assert checks[..1][..0] == [] && checks[..1][0] == AtLeast("SALE PRICE", 150.0);
    SamplePriceStep(t);
    assert SelectAll(t, checks[..1]) == Ok(Table(t.columns, t.rows[1..4]));
    var u := Table(t.columns, t.rows[1..4]);
    assert u.rows[0] == t.rows[1] && u.rows[1] == t.rows[2] && u.rows[2] == t.rows[3];
    SampleAreaStep(u);
  }

  /** Cells 322-336 as a specification: for each column in turn, its fence is computed
      on the rows that survived the previous columns, then applied. The result also
      carries the fences used. */
  function IqrFilter(t: Table, labels: seq<string>, quantile: Quantile): (r: Result<(Table, seq<Check>)>)
    ensures r.Ok? ==> |r.value.1| == |labels|
    decreases |labels|
  {
    if labels == [] then Ok((t, []))
    else
      match IqrFilter(t, labels[..|labels| - 1], quantile)
      case Err(e) => Err(e)
      case Ok((u, fences)) =>
        match Fence(u, labels[|labels| - 1], quantile)
        case Err(e) => Err(e)
        case Ok(fence) =>
          match Select(u, fence)
          case Err(e) => Err(e)
          case Ok(v) => Ok((v, fences + [fence]))
  }

  /** The outlier filter keeps the columns, keeps exactly the rows inside every fence
      in their order, and computes fence `k` on the rows that survived fences 0..k-1. */
  lemma {:induction false} IqrFilterKeeps(t: Table, labels: seq<string>, quantile: Quantile)
    requires IqrFilter(t, labels, quantile).Ok?
    ensures var (u, fences) := IqrFilter(t, labels, quantile).value;
      && u == Table(t.columns, Keep(t.rows, fences))
      && |fences| == |labels|
      && forall k :: 0 <= k < |labels| ==>
           Fence(Table(t.columns, Keep(t.rows, fences[..k])), labels[k], quantile) == Ok(fences[k])
    decreases |labels|
  {
    if labels == [] {
      KeepNothing(t.rows);
    } else {
      var n := |labels| - 1;
      IqrFilterKeeps(t, labels[..n], quantile);
      var (u, fences) := IqrFilter(t, labels[..n], quantile).value;
      var fence := Fence(u, labels[n], quantile).value;
      KeepThenKeep(t.rows, fences, [fence]);
      var all := fences + [fence];
      assert all[..n] == fences;
      forall k | 0 <= k < n
        ensures Fence(Table(t.columns, Keep(t.rows, all[..k])), labels[k], quantile) == Ok(all[k])
      {
        assert all[..k] == fences[..k];
        assert labels[..n][k] == labels[k];
      }
    }
  }

  /** Every row the outlier filter keeps lies inside every fence, bounds included. */
  lemma {:induction false} IqrSurvivorsInside(t: Table, labels: seq<string>, quantile: Quantile, row: Row, k: int)
    requires IqrFilter(t, labels, quantile).Ok?
    requires row in IqrFilter(t, labels, quantile).value.0.rows && 0 <= k < |labels|
    ensures var fence := IqrFilter(t, labels, quantile).value.1[k];
      && fence.Within? && fence.name == labels[k]
      && Numeric(Get(row, labels[k])).Some?
      && fence.lower <= Numeric(Get(row, labels[k])).value <= fence.upper
  {
    IqrFilterKeeps(t, labels, quantile);
    var (u, fences) := IqrFilter(t, labels, quantile).value;
    assert PassesAll(row, fences);
    assert Passes(row, fences[k]);
  }

  /** One more column: its fence is computed on, and applied to, the frame the earlier columns left. */
  lemma IqrFilterStep(t: Table, labels: seq<string>, quantile: Quantile, i: nat)
    requires i < |labels| && IqrFilter(t, labels[..i], quantile).Ok?
    ensures var (u, fences) := IqrFilter(t, labels[..i], quantile).value;
      IqrFilter(t, labels[..i + 1], quantile) ==
        match Fence(u, labels[i], quantile)
        case Err(e) => Err(e)
        case Ok(fence) => Ok((Select(u, fence).value, fences + [fence]))
  {
    assert labels[..i + 1][..i] == labels[..i];
  }

  /** Once a column has raised, the later columns are never reached. */
  lemma {:induction false} IqrErrSticks(t: Table, labels: seq<string>, quantile: Quantile, i: nat)
    requires i <= |labels| && IqrFilter(t, labels[..i], quantile).Err?
    ensures IqrFilter(t, labels, quantile) == IqrFilter(t, labels[..i], quantile)
    decreases |labels| - i
  {
    if i < |labels| {
      assert labels[..i + 1][..i] == labels[..i];
      IqrErrSticks(t, labels, quantile, i + 1);
    } else {
      assert labels[..i] == labels;
    }
  }

  /** One pass of the loop body of cells 325-336 on the current `data_clean`: the
      quartiles of the column, the fences 1.5 IQR beyond them, and the rows inside. */
  method OutlierStep(data: Table, col: string, quantile: Quantile) returns (r: Result<(Table, Check)>)
    ensures r.Err? <==> Fence(data, col, quantile).Err?
    ensures r.Err? ==> r.error == Fence(data, col, quantile).error
    ensures r.Ok? ==> r.value.1 == Fence(data, col, quantile).value
    ensures r.Ok? ==> Select(data, r.value.1) == Ok(r.value.0)
  {
    if col !in data.columns {
      return Err(KeyError(col));
    }
    if exists row :: row in data.rows && Get(row, col).Text? {
      return Err(TypeError(col));
    }
    var q1 := quantile(Values(data.rows, col), 0.25);
    var q3 := quantile(Values(data.rows, col), 0.75);
    var iqr := q3 - q1;
    var lower := q1 - 1.5 * iqr;
    var upper := q3 + 1.5 * iqr;
    var fence := Within(col, lower, upper);
    var step := Select(data, fence);
    r := Ok((step.value, fence));
  }

  /** Cells 322-336: for each column, compute Q1, Q3 and the IQR of the current
      `data_clean`, then keep the rows inside the bounds. Returns the fences applied. */
  method RemoveOutliers(t: Table, labels: seq<string>, quantile: Quantile) returns (r: Result<Table>, fences: seq<Check>)
    ensures r.Ok? ==> IqrFilter(t, labels, quantile) == Ok((r.value, fences))
    ensures r.Err? ==> IqrFilter(t, labels, quantile) == Err(r.error)
    ensures r.Ok? ==> r.value == Table(t.columns, Keep(t.rows, fences)) && |fences| == |labels|
  {
    var data := t;
    fences := [];
    for i := 0 to |labels|
      invariant IqrFilter(t, labels[..i], quantile) == Ok((data, fences))
    {
      var step := OutlierStep(data, labels[i], quantile);
      IqrFilterStep(t, labels, quantile, i);
      if step.Err? {
        r := Err(step.error);
        IqrErrSticks(t, labels, quantile, i + 1);
        return;
      }
      data, fences := step.value.0, fences + [step.value.1];
    }
    assert labels[..|labels|] == labels;
    r := Ok(data);
    IqrFilterKeeps(t, labels, quantile);
  }

  // ---------------------------------------------------------------------------
  // Grouped building category

  /** `combined["BUILDING CLASS CATEGORY"].map(invert_mapping)`. */
  function GroupColumn(rows: seq<Row>): (groups: seq<Cell>)
    ensures |groups| == |rows|
    ensures forall i :: 0 <= i < |rows| ==> groups[i] == GroupOf(Get(rows[i], "BUILDING CLASS CATEGORY"))
  {
    seq(|rows|, i requires 0 <= i < |rows| => GroupOf(Get(rows[i], "BUILDING CLASS CATEGORY")))
  }

  /** The rows with GROUPED CATEGORY set to the group of their building class. */
  function Regrouped(rows: seq<Row>): (r: seq<Row>)
    ensures |r| == |rows|
    ensures forall i :: 0 <= i < |rows| ==>
      r[i] == rows[i]["GROUPED CATEGORY" := GroupOf(Get(rows[i], "BUILDING CLASS CATEGORY"))]
  {
    seq(|rows|, i requires 0 <= i < |rows| =>
      rows[i]["GROUPED CATEGORY" := GroupOf(Get(rows[i], "BUILDING CLASS CATEGORY"))])
  }

  /** A mask that every row passes keeps them all. */
  lemma {:induction false} KeepEverything(rows: seq<Row>, checks: seq<Check>)
    requires forall row :: row in rows ==> PassesAll(row, checks)
    ensures Keep(rows, checks) == rows
  {
    if rows != [] {
      assert rows[0] in rows;
      KeepEverything(rows[1..], checks);
      assert rows == [rows[0]] + rows[1..];
    }
  }

  /** When every class has a group, dropping the NaN groups drops nothing. */
  lemma {:induction false} NothingUngrouped(rows: seq<Row>)
    requires forall i :: 0 <= i < |rows| ==> GroupOf(Get(rows[i], "BUILDING CLASS CATEGORY")) != Null
    ensures Keep(Regrouped(rows), [Present("GROUPED CATEGORY")]) == Regrouped(rows)
  {
    var r := Regrouped(rows);
    forall row | row in r ensures PassesAll(row, [Present("GROUPED CATEGORY")]) {
      var i :| 0 <= i < |r| && r[i] == row;
      assert Get(row, "GROUPED CATEGORY") == GroupOf(Get(rows[i], "BUILDING CLASS CATEGORY"));
      assert [Present("GROUPED CATEGORY")][0] == Present("GROUPED CATEGORY");
    }
    KeepEverything(r, [Present("GROUPED CATEGORY")]);
  }

  /** Each row left after the drop has a group, and it is the group of its own class. */
  lemma {:induction false} GroupedSurvivors(rows: seq<Row>)
    ensures forall row :: row in Keep(Regrouped(rows), [Present("GROUPED CATEGORY")]) ==>
      Get(row, "GROUPED CATEGORY").Text? && Get(row, "GROUPED CATEGORY") == GroupOf(Get(row, "BUILDING CLASS CATEGORY"))
  {
    var r := Regrouped(rows);
    forall row | row in Keep(r, [Present("GROUPED CATEGORY")])
      ensures Get(row, "GROUPED CATEGORY").Text? && Get(row, "GROUPED CATEGORY") == GroupOf(Get(row, "BUILDING CLASS CATEGORY"))
    {
      assert Passes(row, [Present("GROUPED CATEGORY")][0]);
      var i :| 0 <= i < |r| && r[i] == row;
    }
  }

  /** Cells 373-384: map BUILDING CLASS CATEGORY through the inverted
      `intermediary_mapping` into GROUPED CATEGORY (in place), and when some row
      got NaN, warn and drop those rows. */
  method GroupCategories(t: Table) returns (r: Result<Table>, warned: bool)
    ensures r.Err? <==> "BUILDING CLASS CATEGORY" !in t.columns
    ensures r.Err? ==> r.error == KeyError("BUILDING CLASS CATEGORY") && !warned
    ensures r.Ok? ==> (warned <==> exists i :: 0 <= i < |t.rows| && GroupOf(Get(t.rows[i], "BUILDING CLASS CATEGORY")) == Null)
    ensures r.Ok? ==> r.value.columns == if "GROUPED CATEGORY" in t.columns then t.columns else t.columns + ["GROUPED CATEGORY"]
    ensures r.Ok? ==> r.value.rows == Keep(Regrouped(t.rows), [Present("GROUPED CATEGORY")])
    ensures r.Ok? ==> forall row :: row in r.value.rows ==>
      Get(row, "GROUPED CATEGORY").Text? && Get(row, "GROUPED CATEGORY") == GroupOf(Get(row, "BUILDING CLASS CATEGORY"))
    ensures r.Ok? && WellFormed(t) ==> WellFormed(r.value)
  {
    if "BUILDING CLASS CATEGORY" !in t.columns {
      return Err(KeyError("BUILDING CLASS CATEGORY")), false;
    }
    var groups := GroupColumn(t.rows);
    var frame := new DataFrame(t);
    var raised := frame.Assign("GROUPED CATEGORY", Cells(groups));
    assert frame.rows == Regrouped(t.rows);
    var result := frame.Value();
    warned := exists i :: 0 <= i < |groups| && groups[i] == Null;
    if warned {
      result := Table(result.columns, Keep(result.rows, [Present("GROUPED CATEGORY")]));
    } else {
      NothingUngrouped(t.rows);
    }
    GroupedSurvivors(t.rows);
    r := Ok(result);
  }
}
