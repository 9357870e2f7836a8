/** The geocoding table (project/notebook.py:221-227) and the diff against the
    geocode cache (project/notebook.py:243-245, 282-284): every sales row gets
    null coordinates, a cleared error flag and the key BOROUGH_ADDRESS, and the
    rows still to geocode are those whose key the cache lacks. */
module GeoTable {
  import opened Frame
  import Sales

  /** One row of `geocodingTable`: the four copied columns, the geocode, the error
      flag and PRIMARY_KEY. A coordinate is None until geocoding succeeds. */
  datatype GeoRecord = GeoRecord(
    boroughCode: Cell,
    borough: Cell,
    neighborhood: Cell,
    address: Cell,
    latitude: Option<real>,
    longitude: Option<real>,
    geocodingErr: bool,
    key: Cell)

  /** `borough + "_" + address` on object columns. pandas adds only where both
      sides are present, so a missing part gives a missing key; adding a string
      to anything that is not one raises TypeError. */
  function KeyOf(borough: Cell, address: Cell): (k: Result<Cell>)
    ensures k.Ok? ==> k.value == Null || k.value.Text?
  {
    match borough
    case Null => Ok(Null)
    case Text(b) =>
      (match address
       case Null => Ok(Null)
       case Text(a) => Ok(Text(b + "_" + a))
       case _ => Err(TypeError("PRIMARY_KEY")))
    case _ => Err(TypeError("PRIMARY_KEY"))
  }

  /** A key is text exactly when both parts are, and is then BOROUGH, "_", ADDRESS;
      a missing part gives a missing key. */
  lemma KeyRule(borough: Cell, address: Cell)
    requires KeyOf(borough, address).Ok?
    ensures KeyOf(borough, address).value.Text? <==> borough.Text? && address.Text?
    ensures KeyOf(borough, address).value.Text? ==>
      KeyOf(borough, address).value.s == borough.s + "_" + address.s
    ensures borough == Null || address == Null ==> KeyOf(borough, address).value == Null
  {
  }

  /** `CONCAT(BOROUGH, '_', ADDRESS)` in the SQL cache: NULL when any argument is NULL. */
  function SqlKey(borough: Option<string>, address: Option<string>): Option<string> {
    if borough.Some? && address.Some? then Some(borough.value + "_" + address.value) else None
  }

  /** How a text-or-missing cell is stored in a string column of the cache. */
  function Stored(c: Cell): Option<string> {
    if c.Text? then Some(c.s) else None
  }

  /** On everything the cache's string columns can hold, the key the notebook
      computes equals the key the cache computes. */
  lemma {:induction false} SqlKeyAgrees(borough: Cell, address: Cell)
    requires borough == Null || borough.Text?
    requires address == Null || address.Text?
    ensures KeyOf(borough, address).Ok?
    ensures Stored(KeyOf(borough, address).value) == SqlKey(Stored(borough), Stored(address))
  {
    match borough
    case Null =>
    case Text(b) =>
      match address
      case Null =>
      case Text(a) =>
  }

  predicate NoUnderscore(s: string) {
    forall i :: 0 <= i < |s| ==> s[i] != '_'
  }

  /** In `b + "_" + a` with no underscore in `b`, the first underscore is the separator. */
  lemma FirstUnderscore(b: string, a: string, i: int)
    requires NoUnderscore(b) && 0 <= i <= |b|
    ensures (b + "_" + a)[i] == '_' <==> i == |b|
  {
    if i < |b| {
      assert (b + "_" + a)[i] == b[i];
    }
  }

  /** A key splits at its first underscore, so when the borough part has no
      underscore the key gives back the borough and the address. */
  lemma {:induction false} KeySplits(b1: string, a1: string, b2: string, a2: string)
    requires NoUnderscore(b1) && NoUnderscore(b2)
    requires b1 + "_" + a1 == b2 + "_" + a2
    ensures b1 == b2 && a1 == a2
  {
    var k := b1 + "_" + a1;
    var m := if |b1| < |b2| then |b1| else |b2|;
    FirstUnderscore(b1, a1, m);
    FirstUnderscore(b2, a2, m);
    assert |b1| == |b2|;
    assert b1 == k[..|b1|];
    assert b2 == (b2 + "_" + a2)[..|b2|];
    assert a1 == k[|b1| + 1..];
    assert a2 == (b2 + "_" + a2)[|b2| + 1..];
  }

  lemma BoroughNamesHaveNoUnderscore()
    ensures forall name :: name in Sales.BoroughNames.Values ==> NoUnderscore(name)
  {
    assert Sales.BoroughNames.Values == {"MANHATTAN", "BRONX", "BROOKLYN", "QUEENS", "STATEN ISLAND"} by {
      assert Sales.BoroughNames[1] == "MANHATTAN";
      assert Sales.BoroughNames[2] == "BRONX";
      assert Sales.BoroughNames[3] == "BROOKLYN";
      assert Sales.BoroughNames[4] == "QUEENS";
      assert Sales.BoroughNames[5] == "STATEN ISLAND";
    }
  }

  /** With the borough names the sales table uses, two equal keys mean the same
      borough and the same address. */
  lemma {:induction false} KeyIdentifiesAddress(b1: string, a1: string, b2: string, a2: string)
    requires b1 in Sales.BoroughNames.Values && b2 in Sales.BoroughNames.Values
    requires KeyOf(Text(b1), Text(a1)) == KeyOf(Text(b2), Text(a2))
    ensures b1 == b2 && a1 == a2
  {
    BoroughNamesHaveNoUnderscore();
    KeySplits(b1, a1, b2, a2);
  }

  /** The four columns `geocodingTable` copies from the sales table. */
  const GeoColumns: seq<string> := ["BOROUGH CODE", "BOROUGH", "NEIGHBORHOOD", "ADDRESS"]

  /** A fresh geocoding row: no coordinates, no error, and its key. */
  function Fresh(row: Row): GeoRecord
    requires KeyOf(Get(row, "BOROUGH"), Get(row, "ADDRESS")).Ok?
  {
    GeoRecord(
      Get(row, "BOROUGH CODE"), Get(row, "BOROUGH"), Get(row, "NEIGHBORHOOD"), Get(row, "ADDRESS"),
      None, None, false, KeyOf(Get(row, "BOROUGH"), Get(row, "ADDRESS")).value)
  }

  /** The first of the copied columns that the table lacks. */
  function FirstAbsent(t: Table, names: seq<string>): (name: string)
    requires exists k :: 0 <= k < |names| && names[k] !in t.columns
    ensures name in names && name !in t.columns
  {
    if names[0] !in t.columns then names[0] else FirstAbsent(t, names[1..])
  }

  /** Cell 221-227: copy the four columns (KeyError when one is absent), add null
      coordinates and a false error flag, and compute each row's key. */
  function GeocodingRows(t: Table): (r: Result<seq<GeoRecord>>)
    ensures r.Ok? <==>
      && (forall k :: 0 <= k < |GeoColumns| ==> GeoColumns[k] in t.columns)
      && forall i :: 0 <= i < |t.rows| ==> KeyOf(Get(t.rows[i], "BOROUGH"), Get(t.rows[i], "ADDRESS")).Ok?
    ensures (exists k :: 0 <= k < |GeoColumns| && GeoColumns[k] !in t.columns) ==> r.Err? && r.error.KeyError?
    ensures r.Ok? ==> |r.value| == |t.rows|
    ensures r.Ok? ==> forall i :: 0 <= i < |t.rows| ==>
      && r.value[i].boroughCode == Get(t.rows[i], "BOROUGH CODE")
      && r.value[i].borough == Get(t.rows[i], "BOROUGH")
      && r.value[i].neighborhood == Get(t.rows[i], "NEIGHBORHOOD")
      && r.value[i].address == Get(t.rows[i], "ADDRESS")
      && r.value[i].latitude == None && r.value[i].longitude == None
      && !r.value[i].geocodingErr
      && Ok(r.value[i].key) == KeyOf(r.value[i].borough, r.value[i].address)
  {
    if exists k :: 0 <= k < |GeoColumns| && GeoColumns[k] !in t.columns then
      Err(KeyError(FirstAbsent(t, GeoColumns)))
    else if exists i :: 0 <= i < |t.rows| && KeyOf(Get(t.rows[i], "BOROUGH"), Get(t.rows[i], "ADDRESS")).Err? then
      Err(TypeError("PRIMARY_KEY"))
    else
      Ok(seq(|t.rows|, i requires 0 <= i < |t.rows| => Fresh(t.rows[i])))
  }

  /** A row as cell 221-227 builds it: not flagged, and keyed by its own borough and address. */
  predicate Prepared(rec: GeoRecord) {
    !rec.geocodingErr && KeyOf(rec.borough, rec.address) == Ok(rec.key)
  }

  // ---------------------------------------------------------------------------
  // The diff against the cache

  /** The PRIMARY_KEY column of a set of records. */
  function Keys(records: seq<GeoRecord>): (keys: seq<Cell>)
    ensures |keys| == |records|
    ensures forall i :: 0 <= i < |records| ==> keys[i] == records[i].key
  {
    seq(|records|, i requires 0 <= i < |records| => records[i].key)
  }

  lemma {:induction false} KeysOfAppend(a: seq<GeoRecord>, b: seq<GeoRecord>)
    ensures Keys(a + b) == Keys(a) + Keys(b)
  {
  }

  /** `isin` finds a local key among the cached keys. A local key is missing (NaN)
      when its borough or address is, while the cache gives back a NULL key as
      None, and pandas never matches NaN with None: a missing local key is never
      cached. */
  predicate Cached(key: Cell, cached: seq<Cell>) {
    key != Null && key in cached
  }

  /** `local[~local["PRIMARY_KEY"].isin(cached)]`: the local rows whose key the
      cache does not hold, in their order. */
  function Missing(local: seq<GeoRecord>, cached: seq<Cell>): (m: seq<GeoRecord>)
    ensures |m| <= |local|
    ensures forall rec :: rec in m <==> rec in local && !Cached(rec.key, cached)
  {
    if local == [] then []
    else (if Cached(local[0].key, cached) then [] else [local[0]]) + Missing(local[1..], cached)
  }

  /** A row whose key is missing is missing from every cache, even one holding a NULL key. */
  lemma UnkeyedIsMissing(local: seq<GeoRecord>, cached: seq<Cell>, rec: GeoRecord)
    requires rec in local && rec.key == Null
    ensures rec in Missing(local, cached)
  {
  }

  /** The diff never reorders: the missing rows are a subsequence of the local rows. */
  lemma {:induction false} MissingIsSubsequence(local: seq<GeoRecord>, cached: seq<Cell>)
    ensures IsSubsequence(Missing(local, cached), local)
  {
    if local != [] {
      MissingIsSubsequence(local[1..], cached);
      var rest := Missing(local[1..], cached);
      if !Cached(local[0].key, cached) {
        assert Missing(local, cached) == [local[0]] + rest;
        assert ([local[0]] + rest)[1..] == rest;
      } else {
        assert Missing(local, cached) == rest;
      }
    }
  }

  lemma KeyCountFront(records: seq<GeoRecord>, k: Cell)
    requires records != []
    ensures multiset(Keys(records))[k] == (if records[0].key == k then 1 else 0) + multiset(Keys(records[1..]))[k]
  {
    assert Keys(records) == [records[0].key] + Keys(records[1..]);
  }

  /** The diff does not de-duplicate: a key the cache lacks appears among the
      missing rows exactly as often as among the local rows. */
  lemma {:induction false} MissingKeyCount(local: seq<GeoRecord>, cached: seq<Cell>, k: Cell)
    ensures multiset(Keys(Missing(local, cached)))[k] == if Cached(k, cached) then 0 else multiset(Keys(local))[k]
  {
    if local != [] {
      MissingKeyCount(local[1..], cached, k);
      KeyCountFront(local, k);
      var m := Missing(local, cached);
      if !Cached(local[0].key, cached) {
        assert m == [local[0]] + Missing(local[1..], cached);
        assert m[1..] == Missing(local[1..], cached);
        KeyCountFront(m, k);
      } else {
        assert m == Missing(local[1..], cached);
      }
    }
  }

  /** Nothing is missing exactly when the cache holds every local key. */
  lemma {:induction false} NothingMissing(local: seq<GeoRecord>, cached: seq<Cell>)
    ensures Missing(local, cached) == [] <==> forall rec :: rec in local ==> Cached(rec.key, cached)
  {
    var m := Missing(local, cached);
    if m != [] {
      assert m[0] in m;
    }
  }

  /** The fixture of project/helpers_test.py:270-310: three Manhattan rows, two of them cached. */
  const LocalSample: Table := Table(GeoColumns, [
    map["BOROUGH CODE" := Int(1), "BOROUGH" := Text("MANHATTAN"),
        "NEIGHBORHOOD" := Text("CHELSEA"), "ADDRESS" := Text("254 WEST 27TH STREET")],
    map["BOROUGH CODE" := Int(1), "BOROUGH" := Text("MANHATTAN"),
        "NEIGHBORHOOD" := Text("EAST VILLAGE"), "ADDRESS" := Text("46 STUYVESANT STREET, 1")],
    map["BOROUGH CODE" := Int(1), "BOROUGH" := Text("MANHATTAN"),
        "NEIGHBORHOOD" := Text("HARLEM-CENTRAL"), "ADDRESS" := Text("20 WEST 123 STREET")]])

  const CachedSample: seq<Cell> :=
    [Text("MANHATTAN_254 WEST 27TH STREET"), Text("MANHATTAN_46 STUYVESANT STREET, 1")]

  /** Each sample row's key is BOROUGH_ADDRESS as spelled in the cache. */
  lemma FirstSampleKey()
    ensures KeyOf(Text("MANHATTAN"), Text("254 WEST 27TH STREET")) == Ok(CachedSample[0])
  {
    assert "MANHATTAN" + "_" + "254 WEST 27TH STREET" == "MANHATTAN_254 WEST 27TH STREET";
  }

  lemma SecondSampleKey()
    ensures KeyOf(Text("MANHATTAN"), Text("46 STUYVESANT STREET, 1")) == Ok(CachedSample[1])
  {
    assert "MANHATTAN" + "_" + "46 STUYVESANT STREET, 1" == "MANHATTAN_46 STUYVESANT STREET, 1";
  }

  lemma ThirdSampleKey()
    ensures KeyOf(Text("MANHATTAN"), Text("20 WEST 123 STREET")) == Ok(Text("MANHATTAN_20 WEST 123 STREET"))
  {
    assert "MANHATTAN" + "_" + "20 WEST 123 STREET" == "MANHATTAN_20 WEST 123 STREET";
  }

  /** The geocoding rows of the sample: each fresh, keyed, in order. */
  lemma SampleRows()
    ensures GeocodingRows(LocalSample) == Ok([
      Fresh(LocalSample.rows[0]), Fresh(LocalSample.rows[1]), Fresh(LocalSample.rows[2])])
  {
    var t := LocalSample;
    assert Get(t.rows[0], "BOROUGH") == Text("MANHATTAN") && Get(t.rows[0], "ADDRESS") == Text("254 WEST 27TH STREET");
    assert Get(t.rows[1], "BOROUGH") == Text("MANHATTAN") && Get(t.rows[1], "ADDRESS") == Text("46 STUYVESANT STREET, 1");
    assert Get(t.rows[2], "BOROUGH") == Text("MANHATTAN") && Get(t.rows[2], "ADDRESS") == Text("20 WEST 123 STREET");
    var rows := GeocodingRows(t).value;
    assert rows == [rows[0], rows[1], rows[2]];
  }

  /** The uncached row comes back alone, with no coordinates, no error and its key. */
  lemma {:induction false} MissingSample()
    ensures GeocodingRows(LocalSample).Ok?
    ensures Missing(GeocodingRows(LocalSample).value, CachedSample) == [
      GeoRecord(Int(1), Text("MANHATTAN"), Text("HARLEM-CENTRAL"), Text("20 WEST 123 STREET"),
                None, None, false, Text("MANHATTAN_20 WEST 123 STREET"))]
  {
    FirstSampleKey();
    SecondSampleKey();
    ThirdSampleKey();
    SampleRows();
    var rows := GeocodingRows(LocalSample).value;
    assert !Cached(rows[2].key, CachedSample);
    assert Missing(rows, CachedSample) == Missing(rows[1..], CachedSample);
    assert Missing(rows[1..], CachedSample) == Missing(rows[2..], CachedSample);
    assert rows[2..][1..] == [];
  }
}
