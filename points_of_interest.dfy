/**
  What each action of the points-of-interest controller does to the city
  store, as functions from the store's cities (and the request) to the
  response and the cities afterwards. The controller's methods are proved
  to agree with these functions; the properties of the actions are stated
  in the functions' contracts and in the lemmas of
  `PointsOfInterestProperties`.

  A request addresses a point by a city id and a point id. Both lookups are
  `FirstOrDefault` by id: the first city in store order with the city id,
  then the first point in that city's list with the point id.
 */
module PointsOfInterest {
  import opened Linq
  import opened Models

  // ---------------------------------------------------------------------
  // Addressing: which city and which point a request refers to
  // ---------------------------------------------------------------------

  /** No city has id `cityId`. */
  ghost predicate CityMissing(cities: seq<City>, cityId: int)
  {
    forall i :: 0 <= i < |cities| ==> cities[i].id != cityId
  }

  /** No point of `points` has id `poiId`. */
  ghost predicate PointAbsent(points: seq<PointOfInterest>, poiId: int)
  {
    forall j :: 0 <= j < |points| ==> points[j].id != poiId
  }

  /** `ci` is the position of the first city with id `cityId`. */
  ghost predicate IsFirstCity(cities: seq<City>, cityId: int, ci: int)
  {
    0 <= ci < |cities| && cities[ci].id == cityId &&
    forall k :: 0 <= k < ci ==> cities[k].id != cityId
  }

  /** `pi` is the position of the first point with id `poiId`. */
  ghost predicate IsFirstPoint(points: seq<PointOfInterest>, poiId: int, pi: int)
  {
    0 <= pi < |points| && points[pi].id == poiId &&
    forall k :: 0 <= k < pi ==> points[k].id != poiId
  }

  /** The city exists, but its first city with that id has no point with `poiId`. */
  ghost predicate PointMissing(cities: seq<City>, cityId: int, poiId: int)
  {
    exists ci :: IsFirstCity(cities, cityId, ci) && PointAbsent(cities[ci].points, poiId)
  }

  /** The request (cityId, poiId) refers to the point at position `pi` of city `ci`. */
  ghost predicate Addresses(cities: seq<City>, cityId: int, poiId: int, ci: int, pi: int)
  {
    IsFirstCity(cities, cityId, ci) && IsFirstPoint(cities[ci].points, poiId, pi)
  }

  /** `FirstOrDefault(c => c.Id.Equals(cityId))` over the cities, as a position. */
  function CityIndex(cities: seq<City>, cityId: Int32): (r: Option<nat>)
    ensures r.None? <==> CityMissing(cities, cityId)
    ensures r.Some? ==> IsFirstCity(cities, cityId, r.value)
    ensures forall ci :: IsFirstCity(cities, cityId, ci) ==> r == Some(ci)
  {
    FirstIndex(cities, (c: City) => c.id == cityId)
  }

  /** `FirstOrDefault(p => p.Id.Equals(poiId))` over one city's points, as a position. */
  function PointIndex(points: seq<PointOfInterest>, poiId: Int32): (r: Option<nat>)
    ensures r.None? <==> PointAbsent(points, poiId)
    ensures r.Some? ==> IsFirstPoint(points, poiId, r.value)
  {
    FirstIndex(points, (p: PointOfInterest) => p.id == poiId)
  }

  /** The outcome of the two lookups every action except create starts with. */
  datatype Location = NoCity | NoPoint(city: nat) | At(city: nat, point: nat)

  function Locate(cities: seq<City>, cityId: Int32, poiId: Int32): (l: Location)
    ensures l.NoCity? <==> CityMissing(cities, cityId)
    ensures !l.NoCity? ==> IsFirstCity(cities, cityId, l.city)
    ensures l.NoPoint? <==> PointMissing(cities, cityId, poiId)
    ensures l.At? <==> exists ci, pi :: Addresses(cities, cityId, poiId, ci, pi)
    ensures forall ci, pi :: Addresses(cities, cityId, poiId, ci, pi) ==> l == At(ci, pi)
  {
    match CityIndex(cities, cityId)
    case None => NoCity
    case Some(ci) =>
      match PointIndex(cities[ci].points, poiId)
      case None => NoPoint(ci)
      case Some(pi) =>
        assert Addresses(cities, cityId, poiId, ci, pi);
        At(ci, pi)
  }

  // ---------------------------------------------------------------------
  // What an action leaves behind
  // ---------------------------------------------------------------------

  /** Every city but `ci` is unchanged, and city `ci` keeps its id and name. */
  ghost predicate OnlyPointsOfCityChanged(before: seq<City>, after: seq<City>, ci: int)
  {
    0 <= ci < |before| && |after| == |before| &&
    (forall i :: 0 <= i < |before| && i != ci ==> after[i] == before[i]) &&
    after[ci].id == before[ci].id && after[ci].name == before[ci].name
  }

  /**
    Only the name and description of point `pi` of city `ci` changed, to `f`;
    its id, its position and every other point and city are as before.
   */
  ghost predicate FieldsRewritten(before: seq<City>, after: seq<City>, ci: int, pi: int, f: PointOfInterestFields)
  {
    OnlyPointsOfCityChanged(before, after, ci) &&
    0 <= pi < |before[ci].points| &&
    |after[ci].points| == |before[ci].points| &&
    (forall j :: 0 <= j < |before[ci].points| && j != pi ==> after[ci].points[j] == before[ci].points[j]) &&
    after[ci].points[pi].id == before[ci].points[pi].id &&
    FieldsOf(after[ci].points[pi]) == f
  }

  /** Point `pi` of city `ci` is gone; the other points keep their order. */
  ghost predicate PointRemoved(before: seq<City>, after: seq<City>, ci: int, pi: int)
  {
    OnlyPointsOfCityChanged(before, after, ci) &&
    0 <= pi < |before[ci].points| &&
    after[ci].points == before[ci].points[..pi] + before[ci].points[pi + 1..]
  }

  /** `p` was added at the end of city `ci`'s list. */
  ghost predicate PointAppended(before: seq<City>, after: seq<City>, ci: int, p: PointOfInterest)
  {
    OnlyPointsOfCityChanged(before, after, ci) &&
    after[ci].points == before[ci].points + [p]
  }

  // ---------------------------------------------------------------------
  // Ids across the whole store
  // ---------------------------------------------------------------------

  /** No city holds any point. */
  ghost predicate NoPoints(cities: seq<City>)
  {
    forall i :: 0 <= i < |cities| ==> |cities[i].points| == 0
  }

  /** Some point has id `m` and no point has a larger one. */
  ghost predicate IsMaxId(cities: seq<City>, m: int)
  {
    (exists i, j :: 0 <= i < |cities| && 0 <= j < |cities[i].points| && cities[i].points[j].id == m) &&
    (forall i, j :: 0 <= i < |cities| && 0 <= j < |cities[i].points| ==> cities[i].points[j].id <= m)
  }

  /** No two points anywhere in the store share an id. */
  ghost predicate UniqueIds(cities: seq<City>)
  {
    forall i1, j1, i2, j2 ::
      0 <= i1 < |cities| && 0 <= j1 < |cities[i1].points| &&
      0 <= i2 < |cities| && 0 <= j2 < |cities[i2].points| &&
      cities[i1].points[j1].id == cities[i2].points[j2].id
      ==> i1 == i2 && j1 == j2
  }

  /** `Cities.SelectMany(c => c.PointsOfInterest)`: every point of every city, and nothing else. */
  function AllPoints(cities: seq<City>): (r: seq<PointOfInterest>)
    ensures forall i, j :: 0 <= i < |cities| && 0 <= j < |cities[i].points| ==> cities[i].points[j] in r
    ensures forall p :: p in r ==> exists i :: 0 <= i < |cities| && p in cities[i].points
  {
    var pointsOf := (c: City) => c.points;
    assert forall i :: 0 <= i < |cities| ==> pointsOf(cities[i]) == cities[i].points;
    SelectMany(cities, pointsOf)
  }

  /** `Cities.SelectMany(c => c.PointsOfInterest).Max(p => p.Id)`; `None` where `Max` throws. */
  function MaxPointId(cities: seq<City>): (r: Option<int>)
    ensures r.None? <==> NoPoints(cities)
    ensures r.Some? ==> IsMaxId(cities, r.value)
    ensures forall m :: IsMaxId(cities, m) ==> r == Some(m)
  {
    var all := AllPoints(cities);
    var r := MaxOf(all, (p: PointOfInterest) => p.id);
    if r.Some? then
      var k :| 0 <= k < |all| && all[k].id == r.value;
      assert all[k] in all;
      var i :| 0 <= i < |cities| && all[k] in cities[i].points;
      var j :| 0 <= j < |cities[i].points| && cities[i].points[j] == all[k];
      MaxIdUnique(cities, r.value);
      r
    else
      assert forall i :: 0 <= i < |cities| && |cities[i].points| > 0 ==> cities[i].points[0] in all;
      r
  }

  // ---------------------------------------------------------------------
  // The actions
  // ---------------------------------------------------------------------

  /** What an action answers, with HTTP details reduced to a tag. */
  datatype Response =
    | CityNotFound                                 // 404 naming the city id
    | PointNotFound                                // 404 naming the point id and city
    | Found(point: PointOfInterest)                // 200 with the stored point
    | Created(cityId: Int32, point: PointOfInterest) // 201 at route (cityId, point.id)
    | NoContent                                    // 204
    | PatchRejected(errors: seq<string>)           // 400 with the patch errors
    | ModelInvalid                                 // 400 without details
    | NoPointsInStore                              // `Max` threw on an empty sequence

  /** The response of an action and the store's cities after it. */
  datatype Outcome = Outcome(response: Response, cities: seq<City>)

  /** The result of applying a JSON patch document to a point's editable fields. */
  datatype PatchResult = Applied(patched: PointOfInterestFields) | Failed(errors: seq<string>)

  /** GET cities/{cityId}/pointsofinterest/{poiId}: read-only. */
  function GetPoint(cities: seq<City>, cityId: Int32, poiId: Int32): (r: Response)
    ensures r == CityNotFound <==> CityMissing(cities, cityId)
    ensures r == PointNotFound <==> PointMissing(cities, cityId, poiId)
    ensures forall ci, pi :: Addresses(cities, cityId, poiId, ci, pi) ==> r == Found(cities[ci].points[pi])
    ensures r.Found? ==> r.point.id == poiId
  {
    match Locate(cities, cityId, poiId)
    case NoCity => CityNotFound
    case NoPoint(_) => PointNotFound
    case At(ci, pi) => Found(cities[ci].points[pi])
  }

  /**
    POST cities/{cityId}/pointsofinterest: the new point gets 1 + the largest
    id of any point in any city (wrapping at `int.MaxValue`) and goes to the end of
    the city's list.
   */
  function CreatePoint(cities: seq<City>, cityId: Int32, body: PointOfInterestFields): (o: Outcome)
    ensures CityMissing(cities, cityId) ==> o == Outcome(CityNotFound, cities)
    ensures !CityMissing(cities, cityId) && NoPoints(cities) ==> o == Outcome(NoPointsInStore, cities)
    ensures !CityMissing(cities, cityId) && !NoPoints(cities) ==> o.response.Created?
    ensures !o.response.Created? ==> o.cities == cities
    ensures o.response.Created? ==> o.response.cityId == cityId && FieldsOf(o.response.point) == body
    ensures o.response.Created? ==>
      forall m: Int32 :: IsMaxId(cities, m) ==> o.response.point.id == Increment32(m)
    ensures o.response.Created? ==>
      forall ci :: IsFirstCity(cities, cityId, ci) ==> PointAppended(cities, o.cities, ci, o.response.point)
  {
    match CityIndex(cities, cityId)
    case None => Outcome(CityNotFound, cities)
    case Some(ci) =>
      match MaxPointId(cities)
      case None => Outcome(NoPointsInStore, cities)
      case Some(m) =>
        var p := PointOfInterest(Increment32(m), body.name, body.description);
        assert forall n :: IsMaxId(cities, n) ==> n == m;
        assert forall c :: IsFirstCity(cities, cityId, c) ==> c == ci;
        Outcome(Created(cityId, p), WithAppended(cities, ci, p))
  }

  /** PUT cities/{cityId}/pointsofinterest/{poiId}: overwrite name and description. */
  function UpdatePoint(cities: seq<City>, cityId: Int32, poiId: Int32, body: PointOfInterestFields): (o: Outcome)
    ensures CityMissing(cities, cityId) ==> o == Outcome(CityNotFound, cities)
    ensures PointMissing(cities, cityId, poiId) ==> o == Outcome(PointNotFound, cities)
    ensures o.response != NoContent ==> o.cities == cities
    ensures forall ci, pi :: Addresses(cities, cityId, poiId, ci, pi) ==>
      o.response == NoContent && FieldsRewritten(cities, o.cities, ci, pi, body)
  {
    match Locate(cities, cityId, poiId)
    case NoCity => Outcome(CityNotFound, cities)
    case NoPoint(_) => Outcome(PointNotFound, cities)
    case At(ci, pi) => Outcome(NoContent, WithFields(cities, ci, pi, body))
  }

  /** DELETE cities/{cityId}/pointsofinterest/{poiId}: drop the point from its city's list. */
  function DeletePoint(cities: seq<City>, cityId: Int32, poiId: Int32): (o: Outcome)
    ensures CityMissing(cities, cityId) ==> o == Outcome(CityNotFound, cities)
    ensures PointMissing(cities, cityId, poiId) ==> o == Outcome(PointNotFound, cities)
    ensures o.response != NoContent ==> o.cities == cities
    ensures forall ci, pi :: Addresses(cities, cityId, poiId, ci, pi) ==>
      o.response == NoContent && PointRemoved(cities, o.cities, ci, pi) &&
      |o.cities[ci].points| == |cities[ci].points| - 1
  {
    match Locate(cities, cityId, poiId)
    case NoCity => Outcome(CityNotFound, cities)
    case NoPoint(_) => Outcome(PointNotFound, cities)
    case At(ci, pi) =>
      var points := cities[ci].points;
      Outcome(NoContent, cities[ci := cities[ci].(points := points[..pi] + points[pi + 1..])])
  }

  /**
    PATCH cities/{cityId}/pointsofinterest/{poiId}: apply `patch` to a copy
    of the point's editable fields and commit the copy only when the patch
    applied and `valid` accepts the result.
   */
  function PatchPoint(cities: seq<City>, cityId: Int32, poiId: Int32,
                      patch: PointOfInterestFields -> PatchResult,
                      valid: PointOfInterestFields -> bool): (o: Outcome)
    ensures CityMissing(cities, cityId) ==> o == Outcome(CityNotFound, cities)
    ensures PointMissing(cities, cityId, poiId) ==> o == Outcome(PointNotFound, cities)
    ensures o.response != NoContent ==> o.cities == cities
    ensures forall ci, pi :: Addresses(cities, cityId, poiId, ci, pi) ==>
      var patched := patch(FieldsOf(cities[ci].points[pi]));
      if patched.Failed? then o.response == PatchRejected(patched.errors)
      else if !valid(patched.patched) then o.response == ModelInvalid
      else o.response == NoContent && FieldsRewritten(cities, o.cities, ci, pi, patched.patched)
  {
    match Locate(cities, cityId, poiId)
    case NoCity => Outcome(CityNotFound, cities)
    case NoPoint(_) => Outcome(PointNotFound, cities)
    case At(ci, pi) =>
      match patch(FieldsOf(cities[ci].points[pi]))
      case Failed(errors) => Outcome(PatchRejected(errors), cities)
      case Applied(f) =>
        if !valid(f) then Outcome(ModelInvalid, cities)
        else Outcome(NoContent, WithFields(cities, ci, pi, f))
  }

  /** The cities with point `pi` of city `ci` given the name and description of `f`. */
  function WithFields(cities: seq<City>, ci: nat, pi: nat, f: PointOfInterestFields): (r: seq<City>)
    requires ci < |cities| && pi < |cities[ci].points|
    ensures FieldsRewritten(cities, r, ci, pi, f)
  {
    var points := cities[ci].points;
    cities[ci := cities[ci].(points := points[pi := points[pi].(name := f.name, description := f.description)])]
  }

  /** The cities with `p` added at the end of city `ci`'s list. */
  function WithAppended(cities: seq<City>, ci: nat, p: PointOfInterest): (r: seq<City>)
    requires ci < |cities|
    ensures PointAppended(cities, r, ci, p)
  {
    cities[ci := cities[ci].(points := cities[ci].points + [p])]
  }

  /** The largest id is unique. */
  lemma MaxIdUnique(cities: seq<City>, m: int)
    requires IsMaxId(cities, m)
    ensures forall n :: IsMaxId(cities, n) ==> n == m
  {
    forall n | IsMaxId(cities, n) ensures n == m {
      var i, j :| 0 <= i < |cities| && 0 <= j < |cities[i].points| && cities[i].points[j].id == n;
      var k, l :| 0 <= k < |cities| && 0 <= l < |cities[k].points| && cities[k].points[l].id == m;
      assert n <= m && m <= n;
    }
  }
}
