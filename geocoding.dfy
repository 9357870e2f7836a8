/** Geocoding one row (`geolocate`, project/helpers.py:134-164): a row already
    flagged as an error is left alone; otherwise the address is sent to the
    geocoding service and the first result either supplies the coordinates or,
    when there is none or it is only a partial match, flags the row. */
module Geocoding {
  import opened Frame
  import opened GeoTable

  /** One entry of the service's `results` list: the optional `partial_match`
      flag and `geometry.location`. */
  datatype GeocodeResult = GeocodeResult(partialMatch: Option<bool>, lat: real, lng: real)

  /** The parsed JSON body of one response. */
  datatype GeocodeResponse = GeocodeResponse(results: seq<GeocodeResult>)

  /** The geocoding service: the response it returns for a query string. */
  type Geocoder = string -> GeocodeResponse

  /** `location.get('partial_match')` is truthy. */
  predicate Partial(result: GeocodeResult) {
    result.partialMatch == Some(true)
  }

  /** `', '.join([ADDRESS, BOROUGH]) + ', New York City'`; `join` raises TypeError
      unless both parts are strings. */
  function Query(rec: GeoRecord): (q: Result<string>)
    ensures q.Ok? <==> rec.address.Text? && rec.borough.Text?
    ensures q.Err? ==> q.error.TypeError?
  {
    if rec.address.Text? && rec.borough.Text? then Ok(rec.address.s + ", " + rec.borough.s + ", New York City")
    else Err(TypeError("sequence item: expected str instance"))
  }

  /** The query names the address first, then the borough, then the city. */
  lemma QueryShape(rec: GeoRecord)
    requires Query(rec).Ok?
    ensures var q := Query(rec).value;
      && q[..|rec.address.s|] == rec.address.s
      && q[|rec.address.s|..|rec.address.s| + 2] == ", "
      && q[|rec.address.s| + 2..|rec.address.s| + 2 + |rec.borough.s|] == rec.borough.s
      && q[|rec.address.s| + 2 + |rec.borough.s|..] == ", New York City"
  {
    var a := rec.address.s;
    var b := rec.borough.s;
    var q := a + ", " + b + ", New York City";
    assert q == a + (", " + (b + ", New York City"));
  }

  /** The row after the response is read: the error flag with null coordinates when
      there is no result or the first is a partial match, otherwise the first
      result's coordinates. */
  function Interpret(rec: GeoRecord, response: GeocodeResponse): GeoRecord {
    if response.results == [] || Partial(response.results[0]) then
      rec.(geocodingErr := true, latitude := None, longitude := None)
    else
      rec.(latitude := Some(response.results[0].lat), longitude := Some(response.results[0].lng))
  }

  /** `geolocate(row)` as a function of the row and the service. */
  function Geolocated(rec: GeoRecord, geocoder: Geocoder): Result<GeoRecord> {
    if rec.geocodingErr then Ok(rec)
    else
      match Query(rec)
      case Err(e) => Err(e)
      case Ok(q) => Ok(Interpret(rec, geocoder(q)))
  }

  /** The columns that identify the row. */
  predicate SameIdentity(a: GeoRecord, b: GeoRecord) {
    && a.boroughCode == b.boroughCode && a.borough == b.borough
    && a.neighborhood == b.neighborhood && a.address == b.address && a.key == b.key
  }

  /** A flagged row has no coordinates, and a row has both coordinates or neither. */
  predicate Consistent(rec: GeoRecord) {
    && (rec.geocodingErr ==> rec.latitude == None && rec.longitude == None)
    && (rec.latitude.Some? <==> rec.longitude.Some?)
  }

  /** Geocoding changes only LATITUDE, LONGITUDE and GEOCODING ERR, never clears the
      flag, and keeps a consistent row consistent. It ends either flagged or located. */
  lemma GeolocateKeepsIdentity(rec: GeoRecord, geocoder: Geocoder)
    requires Geolocated(rec, geocoder).Ok?
    ensures var r := Geolocated(rec, geocoder).value;
      && SameIdentity(rec, r)
      && (rec.geocodingErr ==> r.geocodingErr)
      && (Consistent(rec) ==> Consistent(r))
      && (!rec.geocodingErr ==> r.geocodingErr || (r.latitude.Some? && r.longitude.Some?))
  {
  }

  /** Geocoding a row a second time: a row the first pass flagged is returned
      unchanged (no request is made for it), and a located row is queried again
      and stays as it is when the service answers that query as before. */
  lemma {:induction false} GeolocateIdempotent(rec: GeoRecord, first: Geocoder, second: Geocoder)
    requires Geolocated(rec, first).Ok?
    requires Query(rec).Ok? ==> second(Query(rec).value) == first(Query(rec).value)
    ensures rec.geocodingErr ==> Geolocated(rec, first) == Ok(rec)
    ensures Geolocated(Geolocated(rec, first).value, second) == Geolocated(rec, first)
  {
    var r := Geolocated(rec, first).value;
    if !rec.geocodingErr && !r.geocodingErr {
      assert Query(r) == Query(rec);
    }
  }

  /** The outcome for a row not yet flagged whose query can be built: it is located
      exactly when the service returns a first result that is not a partial match,
      and then takes that result's coordinates; otherwise it is flagged with no
      coordinates. */
  lemma GeolocateOutcome(rec: GeoRecord, geocoder: Geocoder)
    requires !rec.geocodingErr && Query(rec).Ok?
    ensures var results := geocoder(Query(rec).value).results;
      var r := Geolocated(rec, geocoder);
      && r.Ok?
      && (!r.value.geocodingErr <==> results != [] && !Partial(results[0]))
      && (!r.value.geocodingErr ==>
            r.value.latitude == Some(results[0].lat) && r.value.longitude == Some(results[0].lng))
      && (r.value.geocodingErr ==> r.value.latitude == None && r.value.longitude == None)
  {
  }

  /** Only the first result is consulted: two services that agree on whether there
      is a result, and on the first one, geocode every row alike. */
  lemma OnlyFirstResultMatters(rec: GeoRecord, g1: Geocoder, g2: Geocoder)
    requires forall q :: (g1(q).results == []) == (g2(q).results == [])
    requires forall q :: g1(q).results != [] ==> g1(q).results[0] == g2(q).results[0]
    ensures Geolocated(rec, g1) == Geolocated(rec, g2)
  {
  }

  /** A partial match is treated exactly as no result at all. */
  lemma PartialMatchIsNoMatch(rec: GeoRecord, first: GeocodeResult, rest: seq<GeocodeResult>)
    requires Partial(first)
    ensures Interpret(rec, GeocodeResponse([first] + rest)) == Interpret(rec, GeocodeResponse([]))
  {
  }

  /** A sales row, as the pandas Series that `geolocate` receives and changes in place. */
  class GeoRow {
    var boroughCode: Cell
    var borough: Cell
    var neighborhood: Cell
    var address: Cell
    var latitude: Option<real>
    var longitude: Option<real>
    var geocodingErr: bool
    var key: Cell

    constructor (rec: GeoRecord)
      ensures Value() == rec
    {
      boroughCode, borough, neighborhood, address := rec.boroughCode, rec.borough, rec.neighborhood, rec.address;
      latitude, longitude, geocodingErr, key := rec.latitude, rec.longitude, rec.geocodingErr, rec.key;
    }

    function Value(): GeoRecord
      reads this
    {
      GeoRecord(boroughCode, borough, neighborhood, address, latitude, longitude, geocodingErr, key)
    }

    /** `geolocate(row)`: returns the query sent to the service, if one was, and the
        exception raised, if one was; the row is updated in place. */
    method Geolocate(geocoder: Geocoder) returns (request: Option<string>, raised: Option<Error>)
      modifies this
      ensures raised.None? <==> Geolocated(old(Value()), geocoder).Ok?
      ensures raised.None? ==> Value() == Geolocated(old(Value()), geocoder).value
      ensures raised.Some? ==> raised.value == Geolocated(old(Value()), geocoder).error && Value() == old(Value())
      ensures request.Some? <==> !old(geocodingErr) && raised.None?
      ensures request.Some? ==> Ok(request.value) == Query(old(Value()))
    {
      request, raised := None, None;
      if !geocodingErr {
        var query := Query(Value());
        if query.Err? {
          raised := Some(query.error);
          return;
        }
        request := Some(query.value);
        var res := geocoder(query.value);
        if res.results != [] {
          var location := res.results[0];
          if Partial(location) {
            geocodingErr := true;
            latitude := None;
            longitude := None;
          } else {
            latitude := Some(location.lat);
            longitude := Some(location.lng);
          }
        } else {
          geocodingErr := true;
          latitude := None;
          longitude := None;
        }
      }
    }
  }
}
