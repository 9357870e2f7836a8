/** Combining the five borough extracts into one sales frame
    (project/notebook.py:176-197): concatenation, the borough-name column
    inserted right after the borough code, and the "N/A" address filter. */
module Sales {
  import opened Frame

  /** `borough_mapping`. */
  const BoroughNames: map<int, string> :=
    map[1 := "MANHATTAN", 2 := "BRONX", 3 := "BROOKLYN", 4 := "QUEENS", 5 := "STATEN ISLAND"]

  /** `Series.map(borough_mapping)` on one cell of a numeric or mixed code column:
      a cell numerically equal to a code finds its name (3.0 finds 3, and True
      finds 1 among other values); every other cell becomes NaN. A column holding
      only booleans is not matched against the integer keys at all; that case is
      not modelled. */
  function BoroughOf(code: Cell): (name: Cell)
    ensures name == Null || name.Text?
    ensures name.Text? <==> Numeric(code).Some? && Numeric(code).value in {1.0, 2.0, 3.0, 4.0, 5.0}
    ensures name.Text? ==> name.s in BoroughNames.Values
    ensures forall k :: k in BoroughNames && Numeric(code) == Some(k as real) ==> name == Text(BoroughNames[k])
  {
    var v := Numeric(code);
    if v.Some? && v.value == v.value.Floor as real && v.value.Floor in BoroughNames
    then Text(BoroughNames[v.value.Floor])
    else Null
  }

  /** The names `borough_mapping` gives, also to a float code, or a boolean among
      other codes, equal to a key; other numbers and text stay unnamed. */
  lemma BoroughCodesNamed()
    ensures BoroughOf(Int(1)) == Text("MANHATTAN") && BoroughOf(Int(2)) == Text("BRONX")
    ensures BoroughOf(Int(3)) == Text("BROOKLYN") && BoroughOf(Int(4)) == Text("QUEENS")
    ensures BoroughOf(Int(5)) == Text("STATEN ISLAND")
    ensures BoroughOf(Num(3.0)) == Text("BROOKLYN") && BoroughOf(Flag(true)) == Text("MANHATTAN")
    ensures BoroughOf(Int(0)) == Null && BoroughOf(Int(6)) == Null && BoroughOf(Num(1.5)) == Null
    ensures BoroughOf(Text("1")) == Null && BoroughOf(Null) == Null
  {
    assert (3.0).Floor == 3 && (1.0).Floor == 1 && (1.5).Floor == 1;
  }

  /** Different codes never share a name, so the name identifies the borough as well as the code does. */
  lemma BoroughNamesAreDistinct(a: Cell, b: Cell)
    requires BoroughOf(a).Text? && BoroughOf(a) == BoroughOf(b)
    ensures Numeric(a) == Numeric(b)
  {
  }

  /** A combined row before the "N/A" filter: renamed, and carrying its borough name. */
  function WithBorough(row: Row): Row {
    var renamed := RenameKey(row, "BOROUGH", "BOROUGH CODE");
    renamed["BOROUGH" := BoroughOf(Get(renamed, "BOROUGH CODE"))]
  }

  /** `labels` with `name` inserted at position `loc`. */
  function InsertedAt(labels: seq<string>, loc: nat, name: string): seq<string>
    requires loc <= |labels|
  {
    labels[..loc] + [name] + labels[loc..]
  }

  lemma {:induction false} RowOfSomeExtract(extracts: seq<Table>, i: int)
    requires 0 <= i < |AllRows(extracts)|
    ensures exists k :: 0 <= k < |extracts| && AllRows(extracts)[i] in extracts[k].rows
  {
    if i >= |extracts[0].rows| {
      RowOfSomeExtract(extracts[1..], i - |extracts[0].rows|);
      var k :| 0 <= k < |extracts[1..]| && AllRows(extracts[1..])[i - |extracts[0].rows|] in extracts[1..][k].rows;
      assert AllRows(extracts)[i] in extracts[k + 1].rows;
    } else {
      assert AllRows(extracts)[i] == extracts[0].rows[i];
    }
  }

  /** When the labels start with BOROUGH, the combined frame starts with the code and then the name. */
  lemma CodeThenName(labels: seq<string>)
    requires labels != [] && labels[0] == "BOROUGH"
    ensures InsertedAt(RenameLabel(labels, "BOROUGH", "BOROUGH CODE"), 1, "BOROUGH")[..2] == ["BOROUGH CODE", "BOROUGH"]
  {
  }

  /** The union of labels starts with the first extract's first label. */
  lemma FirstExtractLeads(extracts: seq<Table>)
    requires extracts != [] && extracts[0].columns != []
    ensures AllColumns(extracts) != [] && AllColumns(extracts)[0] == extracts[0].columns[0]
  {
    var cols := extracts[0].columns;
    var u := Union([], cols);
    var none: seq<string> := [];
    assert cols[0] !in none && none + [cols[0]] == [cols[0]];
    assert u == Union(none + [cols[0]], cols[1..]);
    assert u[0] == cols[0];
    var all := UnionAll(u, extracts[1..]);
    assert AllColumns(extracts) == all;
    assert all[..|u|] == u;
    assert all[0] == all[..|u|][0];
  }

  /** The combined rows before the "N/A" filter: every extract's rows in order,
      padded to the union of the labels, renamed, and given their borough name. */
  function Unfiltered(extracts: seq<Table>): (rows: seq<Row>)
    ensures |rows| == TotalRows(extracts)
  {
    seq(TotalRows(extracts), i requires 0 <= i < TotalRows(extracts) => WithBorough(Pad(AllRows(extracts)[i], AllColumns(extracts))))
  }

  /** An extract with a BOROUGH column and a textual ADDRESS in every row. */
  predicate Addressed(t: Table) {
    && "BOROUGH" in t.columns && "ADDRESS" in t.columns
    && forall row :: row in t.rows ==> Get(row, "ADDRESS").Text?
  }

  /** What the combined sales table promises of each of its rows. */
  predicate Survivor(row: Row) {
    && Get(row, "ADDRESS").Text? && !Contains(Get(row, "ADDRESS").s, "N/A")
    && Get(row, "BOROUGH") == BoroughOf(Get(row, "BOROUGH CODE"))
  }

  /** Every combined row names the borough its code stands for. */
  lemma NameMatchesCode(row: Row)
    ensures Get(WithBorough(row), "BOROUGH") == BoroughOf(Get(WithBorough(row), "BOROUGH CODE"))
  {
  }

  /** A row that survives the filter has a textual address free of "N/A" and names its borough. */
  lemma {:induction false} SurvivorIsNamed(extracts: seq<Table>, row: Row)
    requires row in Keep(Unfiltered(extracts), [Lacks("ADDRESS", "N/A")])
    ensures Survivor(row)
  {
    assert PassesAll(row, [Lacks("ADDRESS", "N/A")]);
    assert Passes(row, [Lacks("ADDRESS", "N/A")][0]);
    var rows := Unfiltered(extracts);
    var i :| 0 <= i < |rows| && rows[i] == row;
    NameMatchesCode(Pad(AllRows(extracts)[i], AllColumns(extracts)));
  }

  /** Padding, renaming and naming the borough leave a row's ADDRESS as it was. */
  lemma AddressUntouched(row: Row, labels: seq<string>)
    requires "ADDRESS" in labels
    ensures Get(WithBorough(Pad(row, labels)), "ADDRESS") == Get(row, "ADDRESS")
  {
  }

  /** When every extract has a textual ADDRESS in every row, so does every combined row. */
  lemma {:induction false} AddressesStayText(extracts: seq<Table>)
    requires forall k :: 0 <= k < |extracts| ==> Addressed(extracts[k])
    ensures forall row :: row in Unfiltered(extracts) ==> Get(row, "ADDRESS").Text?
  {
    var rows := Unfiltered(extracts);
    forall i | 0 <= i < |rows| ensures Get(rows[i], "ADDRESS").Text? {
      RowOfSomeExtract(extracts, i);
      var k :| 0 <= k < |extracts| && AllRows(extracts)[i] in extracts[k].rows;
      assert "ADDRESS" in AllColumns(extracts);
      AddressUntouched(AllRows(extracts)[i], AllColumns(extracts));
    }
  }

  /** `sales_df["BOROUGH CODE"].map(borough_mapping)`. */
  function BoroughColumn(t: Table): (names: seq<Cell>)
    ensures |names| == |t.rows|
    ensures forall i :: 0 <= i < |t.rows| ==> names[i] == BoroughOf(Get(t.rows[i], "BOROUGH CODE"))
  {
    seq(|t.rows|, i requires 0 <= i < |t.rows| => BoroughOf(Get(t.rows[i], "BOROUGH CODE")))
  }

  /** Once BOROUGH has been renamed, inserting the names at position 1 cannot fail. */
  lemma NamingCanInsert(combined: Table)
    requires "BOROUGH CODE" in combined.columns && "BOROUGH" !in combined.columns
    ensures InsertError(combined, 1, "BOROUGH", Cells(BoroughColumn(combined))) == None
  {
  }

  /** Renaming the concatenation's BOROUGH column and naming each row's borough gives
      the unfiltered rows. */
  lemma {:induction false} NamingGivesUnfiltered(extracts: seq<Table>, combined: Table)
    requires extracts != [] && "BOROUGH CODE" !in AllColumns(extracts)
    requires combined == Rename(Concat(extracts).value, "BOROUGH", "BOROUGH CODE")
    ensures |combined.rows| == TotalRows(extracts)
    ensures forall i :: 0 <= i < |combined.rows| ==>
      combined.rows[i]["BOROUGH" := ValueAt(Cells(BoroughColumn(combined)), i)] == Unfiltered(extracts)[i]
  {
    var t := Concat(extracts).value;
    forall i | 0 <= i < |combined.rows|
      ensures combined.rows[i]["BOROUGH" := ValueAt(Cells(BoroughColumn(combined)), i)] == Unfiltered(extracts)[i]
    {
      assert combined.rows[i] == RenameKey(t.rows[i], "BOROUGH", "BOROUGH CODE");
      assert t.rows[i] == Pad(AllRows(extracts)[i], AllColumns(extracts));
    }
  }

  /** Renaming BOROUGH and inserting the names at index 1 neither adds nor removes ADDRESS. */
  lemma AddressColumnKept(labels: seq<string>)
    requires "BOROUGH" in labels
    ensures "ADDRESS" in InsertedAt(RenameLabel(labels, "BOROUGH", "BOROUGH CODE"), 1, "BOROUGH") <==> "ADDRESS" in labels
  {
    var renamed := RenameLabel(labels, "BOROUGH", "BOROUGH CODE");
    assert renamed == renamed[..1] + renamed[1..];
    assert forall c :: c in renamed && c != "BOROUGH CODE" ==> c in labels;
    if "ADDRESS" in labels {
      var i :| 0 <= i < |labels| && labels[i] == "ADDRESS";
      assert renamed[i] == "ADDRESS";
    }
  }

  /** The "N/A" filter on the named frame, told in terms of the extracts: it succeeds
      iff ADDRESS is a column and every combined address is a string; otherwise the
      error is KeyError, AttributeError or TypeError. */
  lemma FilterOutcome(extracts: seq<Table>, named: Table)
    requires "BOROUGH" in AllColumns(extracts)
    requires named.columns == InsertedAt(RenameLabel(AllColumns(extracts), "BOROUGH", "BOROUGH CODE"), 1, "BOROUGH")
    requires named.rows == Unfiltered(extracts)
    ensures var r := Select(named, Lacks("ADDRESS", "N/A"));
      && (r.Ok? <==> "ADDRESS" in AllColumns(extracts) && forall row :: row in Unfiltered(extracts) ==> Get(row, "ADDRESS").Text?)
      && ("ADDRESS" !in AllColumns(extracts) ==> r == Err(KeyError("ADDRESS")))
      && ("ADDRESS" in AllColumns(extracts) && NoStrings(Unfiltered(extracts), "ADDRESS") ==> r == Err(AttributeError("ADDRESS")))
      && (r.Err? && "ADDRESS" in AllColumns(extracts) && !NoStrings(Unfiltered(extracts), "ADDRESS") ==> r == Err(TypeError("ADDRESS")))
  {
    AddressColumnKept(AllColumns(extracts));
  }

  /** Cells 176-190: concatenate the extracts, rename BOROUGH to BOROUGH CODE and insert
      the borough name at column index 1, in place. The extracts never carry a
      BOROUGH CODE column of their own. */
  method NameBoroughs(extracts: seq<Table>) returns (r: Result<Table>)
    requires forall k :: 0 <= k < |extracts| ==> WellFormed(extracts[k]) && "BOROUGH CODE" !in extracts[k].columns
    ensures extracts == [] ==> r == Err(ValueError("No objects to concatenate"))
    ensures extracts != [] && "BOROUGH" !in AllColumns(extracts) ==> r == Err(KeyError("BOROUGH CODE"))
    ensures r.Ok? <==> extracts != [] && "BOROUGH" in AllColumns(extracts)
    ensures r.Ok? ==> WellFormed(r.value)
    ensures r.Ok? ==> r.value.columns == InsertedAt(RenameLabel(AllColumns(extracts), "BOROUGH", "BOROUGH CODE"), 1, "BOROUGH")
    ensures r.Ok? ==> r.value.rows == Unfiltered(extracts)
  {
    var concatenated := Concat(extracts);
    if concatenated.Err? {
      return Err(concatenated.error);
    }
    var labels := AllColumns(extracts);
    assert "BOROUGH CODE" !in labels;
    var combined := Rename(concatenated.value, "BOROUGH", "BOROUGH CODE");
    if "BOROUGH CODE" !in combined.columns {
      assert "BOROUGH" !in labels;
      return Err(KeyError("BOROUGH CODE"));
    }
    var borough := BoroughColumn(combined);
    assert "BOROUGH" !in combined.columns;
    NamingCanInsert(combined);
    NamingGivesUnfiltered(extracts, combined);
    var frame := new DataFrame(combined);
    var raised := frame.Insert(1, "BOROUGH", Cells(borough));
    assert frame.rows == Unfiltered(extracts);
    r := Ok(frame.Value());
  }

  /** Cells 176-197: the named frame, keeping the rows whose ADDRESS does not contain "N/A". */
  method CombineSales(extracts: seq<Table>) returns (r: Result<Table>)
    requires forall k :: 0 <= k < |extracts| ==> WellFormed(extracts[k]) && "BOROUGH CODE" !in extracts[k].columns
    ensures extracts == [] ==> r == Err(ValueError("No objects to concatenate"))
    ensures extracts != [] && "BOROUGH" !in AllColumns(extracts) ==> r == Err(KeyError("BOROUGH CODE"))
    ensures extracts != [] && (forall k :: 0 <= k < |extracts| ==> Addressed(extracts[k])) ==> r.Ok?
    ensures r.Ok? ==> WellFormed(r.value)
    ensures r.Ok? ==> r.value.columns == InsertedAt(RenameLabel(AllColumns(extracts), "BOROUGH", "BOROUGH CODE"), 1, "BOROUGH")
    ensures r.Ok? && extracts[0].columns != [] && extracts[0].columns[0] == "BOROUGH" ==>
      r.value.columns[..2] == ["BOROUGH CODE", "BOROUGH"]
    ensures r.Ok? ==> r.value.rows == Keep(Unfiltered(extracts), [Lacks("ADDRESS", "N/A")])
    ensures r.Ok? ==> forall row :: row in r.value.rows ==> Survivor(row)
    ensures r.Ok? <==>
      && extracts != [] && "BOROUGH" in AllColumns(extracts) && "ADDRESS" in AllColumns(extracts)
      && forall row :: row in Unfiltered(extracts) ==> Get(row, "ADDRESS").Text?
    ensures extracts != [] && "BOROUGH" in AllColumns(extracts) && "ADDRESS" !in AllColumns(extracts) ==>
      r == Err(KeyError("ADDRESS"))
    ensures (extracts != [] && "BOROUGH" in AllColumns(extracts) && "ADDRESS" in AllColumns(extracts) &&
             NoStrings(Unfiltered(extracts), "ADDRESS")) ==>
      r == Err(AttributeError("ADDRESS"))
    ensures (r.Err? && extracts != [] && "BOROUGH" in AllColumns(extracts) && "ADDRESS" in AllColumns(extracts) &&
             !NoStrings(Unfiltered(extracts), "ADDRESS")) ==>
      r == Err(TypeError("ADDRESS"))
  {
    var named := NameBoroughs(extracts);
    if named.Err? {
      return Err(named.error);
    }
    FilterOutcome(extracts, named.value);
    r := Select(named.value, Lacks("ADDRESS", "N/A"));
    if r.Ok? {
      KeepPreservesWellFormed(named.value, [Lacks("ADDRESS", "N/A")]);
      forall row | row in r.value.rows ensures Survivor(row) {
        SurvivorIsNamed(extracts, row);
      }
      if extracts[0].columns != [] && extracts[0].columns[0] == "BOROUGH" {
        FirstExtractLeads(extracts);
        CodeThenName(AllColumns(extracts));
      }
    }
    if extracts != [] && forall k :: 0 <= k < |extracts| ==> Addressed(extracts[k]) {
      assert "BOROUGH" in extracts[0].columns;
      assert "ADDRESS" in AllColumns(extracts) && "ADDRESS" in named.value.columns;
      AddressesStayText(extracts);
    }
  }
}
