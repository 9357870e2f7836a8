/** Bringing the geocode cache up to date (project/notebook.py:243-284): find the
    rows whose key the cache lacks, geocode each of them, append them to the
    cache, and compute the diff again as the completeness check. The cache is the
    sequence of its records; reading and writing the SQL table is not modelled. */
module CacheSync {
  import opened Frame
  import opened GeoTable
  import opened Geocoding

  /** `missing_rows.progress_apply(geolocate, axis=1)`: each row in order; the first
      row that raises ends the whole apply. */
  function GeolocateAll(records: seq<GeoRecord>, geocoder: Geocoder): (r: Result<seq<GeoRecord>>)
    ensures r.Ok? ==> |r.value| == |records|
    decreases |records|
  {
    if records == [] then Ok([])
    else
      var n := |records| - 1;
      match GeolocateAll(records[..n], geocoder)
      case Err(e) => Err(e)
      case Ok(done) =>
        match Geolocated(records[n], geocoder)
        case Err(e) => Err(e)
        case Ok(rec) => Ok(done + [rec])
  }

  /** The apply succeeds exactly when every row's geocoding does, and then holds
      each row's geocoded version at the row's own position. */
  lemma {:induction false} GeolocateAllPointwise(records: seq<GeoRecord>, geocoder: Geocoder)
    ensures GeolocateAll(records, geocoder).Ok? <==> forall i :: 0 <= i < |records| ==> Geolocated(records[i], geocoder).Ok?
    ensures GeolocateAll(records, geocoder).Ok? ==>
      forall i :: 0 <= i < |records| ==> Ok(GeolocateAll(records, geocoder).value[i]) == Geolocated(records[i], geocoder)
    decreases |records|
  {
    if records != [] {
      var n := |records| - 1;
      GeolocateAllPointwise(records[..n], geocoder);
      assert forall i :: 0 <= i < n ==> records[..n][i] == records[i];
    }
  }

  /** Geocoding keeps every row's key, so the appended rows carry the missing keys. */
  lemma {:induction false} GeolocateAllKeepsKeys(records: seq<GeoRecord>, geocoder: Geocoder)
    requires GeolocateAll(records, geocoder).Ok?
    ensures Keys(GeolocateAll(records, geocoder).value) == Keys(records)
  {
    GeolocateAllPointwise(records, geocoder);
    var done := GeolocateAll(records, geocoder).value;
    forall i | 0 <= i < |records| ensures done[i].key == records[i].key {
      GeolocateKeepsIdentity(records[i], geocoder);
    }
  }

  /** Once a row has raised, the later rows are never reached. */
  lemma {:induction false} GeolocateAllErrSticks(records: seq<GeoRecord>, geocoder: Geocoder, i: nat)
    requires i <= |records| && GeolocateAll(records[..i], geocoder).Err?
    ensures GeolocateAll(records, geocoder) == GeolocateAll(records[..i], geocoder)
    decreases |records| - i
  {
    if i < |records| {
      assert records[..i + 1][..i] == records[..i];
      GeolocateAllErrSticks(records, geocoder, i + 1);
    } else {
      assert records[..i] == records;
    }
  }

  /** Appending rows that carry all the missing keys leaves missing only the rows
      without a key, and nothing when every local row has one. */
  lemma {:induction false} AppendingCompletes(local: seq<GeoRecord>, cache: seq<GeoRecord>, added: seq<GeoRecord>)
    requires Keys(added) == Keys(Missing(local, Keys(cache)))
    ensures forall rec :: rec in Missing(local, Keys(cache + added)) ==> rec.key == Null
    ensures (forall rec :: rec in local ==> rec.key != Null) ==> Missing(local, Keys(cache + added)) == []
  {
    KeysOfAppend(cache, added);
    forall rec | rec in local && rec.key != Null ensures Cached(rec.key, Keys(cache + added)) {
      if !Cached(rec.key, Keys(cache)) {
        var m := Missing(local, Keys(cache));
        assert rec in m;
        var i :| 0 <= i < |m| && m[i] == rec;
        assert Keys(added)[i] == rec.key;
      }
    }
    NothingMissing(local, Keys(cache + added));
  }

  /** The append does not de-duplicate: after it, a key the cache lacked appears
      once for every local row that carries it. */
  lemma {:induction false} AppendedKeyCount(local: seq<GeoRecord>, cache: seq<GeoRecord>, added: seq<GeoRecord>, k: Cell)
    requires Keys(added) == Keys(Missing(local, Keys(cache)))
    ensures multiset(Keys(cache + added))[k] ==
      multiset(Keys(cache))[k] + if Cached(k, Keys(cache)) then 0 else multiset(Keys(local))[k]
  {
    KeysOfAppend(cache, added);
    MissingKeyCount(local, Keys(cache), k);
  }

  /** A prepared row without a key lacks its borough or its address, so geocoding it
      raises TypeError at the `join`. */
  lemma UnkeyedRowRaises(rec: GeoRecord, geocoder: Geocoder)
    requires Prepared(rec) && rec.key == Null
    ensures Geolocated(rec, geocoder).Err? && Geolocated(rec, geocoder).error.TypeError?
  {
  }

  /** When the apply over the missing prepared rows succeeds, every local row has a key:
      a row without one would have been missing and would have raised. */
  lemma {:induction false} SyncedRowsAreKeyed(local: seq<GeoRecord>, cache: seq<GeoRecord>, geocoder: Geocoder)
    requires forall rec :: rec in local ==> Prepared(rec)
    requires GeolocateAll(Missing(local, Keys(cache)), geocoder).Ok?
    ensures forall rec :: rec in local ==> rec.key != Null
  {
    var missing := Missing(local, Keys(cache));
    GeolocateAllPointwise(missing, geocoder);
    forall i | 0 <= i < |missing| ensures missing[i].key != Null {
      assert missing[i] in local;
    }
  }

  /** Cells 243-284: diff, geocode the missing rows one by one, append them to the
      cache and diff again. Returns the exception the apply raised, if any (nothing
      is appended then), the cache afterwards and the rows still missing. */
  method SyncCache(local: seq<GeoRecord>, cache: seq<GeoRecord>, geocoder: Geocoder)
    returns (raised: Option<Error>, updated: seq<GeoRecord>, stillMissing: seq<GeoRecord>)
    ensures raised.None? <==> GeolocateAll(Missing(local, Keys(cache)), geocoder).Ok?
    ensures raised.None? ==> updated == cache + GeolocateAll(Missing(local, Keys(cache)), geocoder).value
    ensures raised.Some? ==>
      raised.value == GeolocateAll(Missing(local, Keys(cache)), geocoder).error && updated == cache
    ensures stillMissing == Missing(local, Keys(updated))
    ensures raised.None? ==> forall rec :: rec in stillMissing ==> rec in local && rec.key == Null
    ensures raised.None? && (forall rec :: rec in local ==> Prepared(rec)) ==> stillMissing == []
  {
    var missing := Missing(local, Keys(cache));
    var located: seq<GeoRecord> := [];
    for i := 0 to |missing|
      invariant GeolocateAll(missing[..i], geocoder) == Ok(located)
    {
      var row := new GeoRow(missing[i]);
      var request, err := row.Geolocate(geocoder);
      assert missing[..i + 1][..i] == missing[..i];
      if err.Some? {
        GeolocateAllErrSticks(missing, geocoder, i + 1);
        return err, cache, missing;
      }
      located := located + [row.Value()];
    }
    assert missing[..|missing|] == missing;
    GeolocateAllKeepsKeys(missing, geocoder);
    AppendingCompletes(local, cache, located);
    if forall rec :: rec in local ==> Prepared(rec) {
      SyncedRowsAreKeyed(local, cache, geocoder);
    }
    raised := None;
    updated := cache + located;
    stillMissing := Missing(local, Keys(updated));
  }

  /** Two local rows with the same address and an empty cache: both rows are
      geocoded and the cache ends up holding the key twice. */
  lemma RepeatedAddressAppendedTwice(rec: GeoRecord, geocoder: Geocoder)
    requires Geolocated(rec, geocoder).Ok?
    ensures GeolocateAll(Missing([rec, rec], Keys([])), geocoder).Ok?
    ensures multiset(Keys([] + GeolocateAll(Missing([rec, rec], Keys([])), geocoder).value))[rec.key] == 2
  {
    var m := Missing([rec, rec], Keys([]));
    assert Keys([]) == [];
    assert m == [rec, rec];
    GeolocateAllPointwise(m, geocoder);
    GeolocateAllKeepsKeys(m, geocoder);
    AppendedKeyCount([rec, rec], [], GeolocateAll(m, geocoder).value, rec.key);
    assert Keys([rec, rec]) == [rec.key, rec.key];
  }
}
