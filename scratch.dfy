/** The category experiment in project/scratch.py:4-30: a ZILLOW CATEGORY column
    inserted right after BUILDING CLASS CATEGORY, filled, like a GROUPED CATEGORY
    column, by mapping the class through the inverted `intermediary_mapping`, a
    warning when some class has no group, and a drop of the rows without one. */
module Scratch {
  import opened Frame
  import opened Categories
  import opened Cleaning

  /** The three labels involved are different columns. */
  lemma LabelsDiffer()
    ensures "ZILLOW CATEGORY" != "BUILDING CLASS CATEGORY"
    ensures "GROUPED CATEGORY" != "BUILDING CLASS CATEGORY"
    ensures "ZILLOW CATEGORY" != "GROUPED CATEGORY"
  {
    assert |"ZILLOW CATEGORY"| == 15;
    assert |"GROUPED CATEGORY"| == 16;
    assert |"BUILDING CLASS CATEGORY"| == 23;
  }

  /** One row with both new columns set to the group `g` of its class. */
  function Tagged(row: Row, g: Cell): Row {
    row["ZILLOW CATEGORY" := g]["GROUPED CATEGORY" := g]
  }

  /** The rows, each tagged with its own entry of `groups`. */
  function Zillowed(rows: seq<Row>, groups: seq<Cell>): (r: seq<Row>)
    requires |groups| == |rows|
    ensures |r| == |rows|
    ensures forall i :: 0 <= i < |rows| ==> r[i] == Tagged(rows[i], groups[i])
  {
    seq(|rows|, i requires 0 <= i < |rows| => Tagged(rows[i], groups[i]))
  }

  /** Rows with the same classes get the same groups. */
  lemma SameClassesSameGroups(a: seq<Row>, b: seq<Row>)
    requires |a| == |b|
    requires forall i :: 0 <= i < |a| ==> Get(a[i], "BUILDING CLASS CATEGORY") == Get(b[i], "BUILDING CLASS CATEGORY")
    ensures GroupColumn(a) == GroupColumn(b)
  {
  }

  /** Setting ZILLOW CATEGORY leaves every row's class as it was. */
  lemma ClassUntouched(rows: seq<Row>, values: seq<Cell>, updated: seq<Row>)
    requires |values| == |rows| && |updated| == |rows|
    requires forall i :: 0 <= i < |rows| ==> updated[i] == rows[i]["ZILLOW CATEGORY" := values[i]]
    ensures forall i :: 0 <= i < |rows| ==>
      Get(updated[i], "BUILDING CLASS CATEGORY") == Get(rows[i], "BUILDING CLASS CATEGORY")
  {
    LabelsDiffer();
  }

  /** The empty ZILLOW CATEGORY inserted first makes no difference to the tags. */
  lemma {:induction false} InsertedThenTagged(rows: seq<Row>, inserted: seq<Row>, groups: seq<Cell>)
    requires |inserted| == |rows| && |groups| == |rows|
    requires forall i :: 0 <= i < |rows| ==> inserted[i] == rows[i]["ZILLOW CATEGORY" := Null]
    ensures Zillowed(inserted, groups) == Zillowed(rows, groups)
  {
    forall i | 0 <= i < |rows| ensures Tagged(inserted[i], groups[i]) == Tagged(rows[i], groups[i]) {
      assert inserted[i]["ZILLOW CATEGORY" := groups[i]] == rows[i]["ZILLOW CATEGORY" := groups[i]];
    }
  }

  /** `dropna(subset=['ZILLOW CATEGORY'])` keeps a row exactly when its group is not NaN. */
  lemma {:induction false} ZillowDropsUngrouped(rows: seq<Row>, groups: seq<Cell>)
    requires |groups| == |rows|
    ensures forall i :: 0 <= i < |rows| ==>
      (Zillowed(rows, groups)[i] in Keep(Zillowed(rows, groups), [Present("ZILLOW CATEGORY")]) <==> groups[i] != Null)
  {
    var z := Zillowed(rows, groups);
    forall i | 0 <= i < |rows|
      ensures z[i] in Keep(z, [Present("ZILLOW CATEGORY")]) <==> groups[i] != Null
    {
      assert [Present("ZILLOW CATEGORY")][0] == Present("ZILLOW CATEGORY");
      assert z[i] in z;
    }
  }

  /** Each row left after the drop holds its class's group in both new columns. */
  lemma {:induction false} ZillowSurvivors(rows: seq<Row>)
    ensures forall row :: row in Keep(Zillowed(rows, GroupColumn(rows)), [Present("ZILLOW CATEGORY")]) ==>
      && Get(row, "ZILLOW CATEGORY").Text?
      && Get(row, "ZILLOW CATEGORY") == Get(row, "GROUPED CATEGORY")
      && Get(row, "ZILLOW CATEGORY") == GroupOf(Get(row, "BUILDING CLASS CATEGORY"))
  {
    LabelsDiffer();
    var z := Zillowed(rows, GroupColumn(rows));
    forall row | row in Keep(z, [Present("ZILLOW CATEGORY")])
      ensures && Get(row, "ZILLOW CATEGORY").Text?
              && Get(row, "ZILLOW CATEGORY") == Get(row, "GROUPED CATEGORY")
              && Get(row, "ZILLOW CATEGORY") == GroupOf(Get(row, "BUILDING CLASS CATEGORY"))
    {
      assert Passes(row, [Present("ZILLOW CATEGORY")][0]);
      var i :| 0 <= i < |z| && z[i] == row;
      assert Get(row, "BUILDING CLASS CATEGORY") == Get(rows[i], "BUILDING CLASS CATEGORY");
    }
  }

  /** Cells 16 and 24 of the experiment: ZILLOW CATEGORY and GROUPED CATEGORY both
      become the mapped class, in place; returns whether some class mapped to NaN. */
  method FillCategories(frame: DataFrame) returns (warned: bool)
    requires "ZILLOW CATEGORY" in frame.columns
    modifies frame
    ensures frame.columns ==
      if "GROUPED CATEGORY" in old(frame.columns) then old(frame.columns) else old(frame.columns) + ["GROUPED CATEGORY"]
    ensures frame.rows == Zillowed(old(frame.rows), GroupColumn(old(frame.rows)))
    ensures warned <==> Null in GroupColumn(old(frame.rows))
    ensures WellFormed(old(frame.Value())) ==> WellFormed(frame.Value())
  {
    var rows := frame.rows;
    var groups := GroupColumn(frame.rows);
    var raised := frame.Assign("ZILLOW CATEGORY", Cells(groups));
    var mapped := frame.rows;
    ClassUntouched(rows, groups, mapped);
    SameClassesSameGroups(mapped, rows);
    var grouped := GroupColumn(frame.rows);
    raised := frame.Assign("GROUPED CATEGORY", Cells(grouped));
    assert frame.rows == Zillowed(rows, groups);
    warned := Null in grouped;
  }

  /** The labels after the insert: ZILLOW CATEGORY right after BUILDING CLASS
      CATEGORY, the others in their order. */
  function WithZillow(labels: seq<string>): (r: seq<string>)
    requires "BUILDING CLASS CATEGORY" in labels
    ensures forall c :: c in r <==> c in labels || c == "ZILLOW CATEGORY"
  {
    var p := IndexOf(labels, "BUILDING CLASS CATEGORY");
    labels[..p + 1] + ["ZILLOW CATEGORY"] + labels[p + 1..]
  }

  /** ZILLOW CATEGORY sits immediately after BUILDING CLASS CATEGORY, and removing it
      gives back the original labels. */
  lemma WithZillowPlacesColumn(labels: seq<string>)
    requires "BUILDING CLASS CATEGORY" in labels
    ensures var p := IndexOf(labels, "BUILDING CLASS CATEGORY");
      && |WithZillow(labels)| == |labels| + 1
      && WithZillow(labels)[p] == "BUILDING CLASS CATEGORY"
      && WithZillow(labels)[p + 1] == "ZILLOW CATEGORY"
      && WithZillow(labels)[..p + 1] + WithZillow(labels)[p + 2..] == labels
  {
    var p := IndexOf(labels, "BUILDING CLASS CATEGORY");
    var w := WithZillow(labels);
    assert w[..p + 1] == labels[..p + 1];
    assert w[p + 2..] == labels[p + 1..];
    assert labels[..p + 1] + labels[p + 1..] == labels;
  }

  /** Cells 4-5 of the experiment: an empty ZILLOW CATEGORY column right after
      BUILDING CLASS CATEGORY, in place; ValueError when the column exists. */
  method InsertZillow(frame: DataFrame) returns (raised: Option<Error>)
    requires "BUILDING CLASS CATEGORY" in frame.columns
    modifies frame
    ensures raised.Some? <==> "ZILLOW CATEGORY" in old(frame.columns)
    ensures raised.Some? ==> raised.value.ValueError? && frame.Value() == old(frame.Value())
    ensures raised.None? ==> frame.columns == WithZillow(old(frame.columns))
    ensures raised.None? ==> |frame.rows| == |old(frame.rows)|
    ensures raised.None? ==> GroupColumn(frame.rows) == GroupColumn(old(frame.rows))
    ensures raised.None? ==>
      Zillowed(frame.rows, GroupColumn(frame.rows)) == Zillowed(old(frame.rows), GroupColumn(old(frame.rows)))
    ensures WellFormed(old(frame.Value())) ==> WellFormed(frame.Value())
  {
    var rows := frame.rows;
    var p := IndexOf(frame.columns, "BUILDING CLASS CATEGORY");
    raised := frame.Insert(p + 1, "ZILLOW CATEGORY", Scalar(Null));
    if raised.None? {
      InsertedThenTagged(rows, frame.rows, GroupColumn(rows));
      ClassUntouched(rows, seq(|rows|, i => Null), frame.rows);
      SameClassesSameGroups(frame.rows, rows);
    }
  }

  /** project/scratch.py:4-30 on the frame read from sales.csv. Fails with KeyError
      when there is no BUILDING CLASS CATEGORY column and with ValueError when a
      ZILLOW CATEGORY column already exists. Returns the frame and whether the
      warning was printed. */
  method ZillowCategories(t: Table) returns (r: Result<Table>, warned: bool)
    ensures "BUILDING CLASS CATEGORY" !in t.columns ==> r == Err(KeyError("BUILDING CLASS CATEGORY"))
    ensures r.Ok? <==> "BUILDING CLASS CATEGORY" in t.columns && "ZILLOW CATEGORY" !in t.columns
    ensures r.Err? && "BUILDING CLASS CATEGORY" in t.columns ==> r.error.ValueError?
    ensures r.Err? ==> !warned
    ensures r.Ok? ==>
      r.value.columns == if "GROUPED CATEGORY" in t.columns then WithZillow(t.columns) else WithZillow(t.columns) + ["GROUPED CATEGORY"]
    ensures r.Ok? ==> r.value.rows == Keep(Zillowed(t.rows, GroupColumn(t.rows)), [Present("ZILLOW CATEGORY")])
    ensures r.Ok? ==> (warned <==> Null in GroupColumn(t.rows))
    ensures r.Ok? && WellFormed(t) ==> WellFormed(r.value)
  {
    if "BUILDING CLASS CATEGORY" !in t.columns {
      return Err(KeyError("BUILDING CLASS CATEGORY")), false;
    }
    var frame := new DataFrame(t);
    var raised := InsertZillow(frame);
    if raised.Some? {
      return Err(raised.value), false;
    }
    ghost var inserted := frame.Value();
    assert ("GROUPED CATEGORY" in inserted.columns) == ("GROUPED CATEGORY" in t.columns) by {
      LabelsDiffer();
    }
    warned := FillCategories(frame);
    var result := frame.Value();
    r := Ok(Table(result.columns, Keep(result.rows, [Present("ZILLOW CATEGORY")])));
  }
}
