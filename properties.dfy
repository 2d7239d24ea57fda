/**
  Properties that relate several actions, or an action and the shape of the
  store: updates are idempotent and visible to a later get, a deleted point
  is gone, created ids follow the largest id, and ids stay unique.
 */
module PointsOfInterestProperties {
  import opened Linq
  import opened Models
  import opened PointsOfInterest

  /** `a` and `b` have the same cities and points in the same places with the same ids. */
  ghost predicate SameIds(a: seq<City>, b: seq<City>)
  {
    |a| == |b| &&
    (forall i :: 0 <= i < |a| ==> a[i].id == b[i].id && |a[i].points| == |b[i].points|) &&
    (forall i, j :: 0 <= i < |a| && 0 <= j < |a[i].points| ==> a[i].points[j].id == b[i].points[j].id)
  }

  /** Two positions that are both "first with this id" are the same position. */
  lemma FirstCityUnique(cities: seq<City>, cityId: int, a: int, b: int)
    requires IsFirstCity(cities, cityId, a) && IsFirstCity(cities, cityId, b)
    ensures a == b
  {
  }

  /** The lookups see only ids, so stores with the same ids resolve every request alike. */
  lemma LocateByIds(a: seq<City>, b: seq<City>, cityId: Int32, poiId: Int32)
    requires SameIds(a, b)
    ensures Locate(a, cityId, poiId) == Locate(b, cityId, poiId)
  {
    var la, lb := Locate(a, cityId, poiId), Locate(b, cityId, poiId);
    match la
    case NoCity =>
      assert CityMissing(b, cityId);
    case NoPoint(ci) =>
      assert IsFirstCity(b, cityId, ci);
      assert PointAbsent(b[ci].points, poiId);
      assert PointMissing(b, cityId, poiId);
      FirstCityUnique(b, cityId, ci, lb.city);
    case At(ci, pi) =>
      assert Addresses(b, cityId, poiId, ci, pi);
  }

  /** Rewriting a point's name and description leaves every id in place. */
  lemma RewriteKeepsIds(before: seq<City>, after: seq<City>, ci: int, pi: int, f: PointOfInterestFields)
    requires FieldsRewritten(before, after, ci, pi, f)
    ensures SameIds(before, after)
  {
  }

  /** Stores with the same ids in the same places agree on whether ids are unique. */
  lemma SameIdsKeepUnique(a: seq<City>, b: seq<City>)
    requires SameIds(a, b) && UniqueIds(a)
    ensures UniqueIds(b)
  {
  }

  /** PUT twice with the same body answers and leaves the store as PUT once does. */
  lemma UpdateIdempotent(cities: seq<City>, cityId: Int32, poiId: Int32, body: PointOfInterestFields)
    ensures var once := UpdatePoint(cities, cityId, poiId, body);
      UpdatePoint(once.cities, cityId, poiId, body) == once
  {
    var once := UpdatePoint(cities, cityId, poiId, body);
    match Locate(cities, cityId, poiId)
    case NoCity =>
    case NoPoint(_) =>
    case At(ci, pi) =>
      RewriteKeepsIds(cities, once.cities, ci, pi, body);
      LocateByIds(cities, once.cities, cityId, poiId);
      var again := WithFields(once.cities, ci, pi, body);
      assert again[ci].points == once.cities[ci].points;
      assert again == once.cities;
  }

  /** After a successful PUT, GET of the same point returns it with the new fields. */
  lemma UpdateThenGet(cities: seq<City>, cityId: Int32, poiId: Int32, body: PointOfInterestFields)
    requires UpdatePoint(cities, cityId, poiId, body).response == NoContent
    ensures GetPoint(UpdatePoint(cities, cityId, poiId, body).cities, cityId, poiId)
         == Found(PointOfInterest(poiId, body.name, body.description))
  {
    var after := UpdatePoint(cities, cityId, poiId, body).cities;
    match Locate(cities, cityId, poiId)
    case At(ci, pi) =>
      RewriteKeepsIds(cities, after, ci, pi, body);
      LocateByIds(cities, after, cityId, poiId);
  }

  /**
    A PATCH whose document applies cleanly and whose result validates does
    exactly what a PUT of the patched fields does.
   */
  lemma PatchCommitsAsUpdate(cities: seq<City>, cityId: Int32, poiId: Int32,
                             patch: PointOfInterestFields -> PatchResult,
                             valid: PointOfInterestFields -> bool,
                             ci: int, pi: int, f: PointOfInterestFields)
    requires Addresses(cities, cityId, poiId, ci, pi)
    requires patch(FieldsOf(cities[ci].points[pi])) == Applied(f) && valid(f)
    ensures PatchPoint(cities, cityId, poiId, patch, valid) == UpdatePoint(cities, cityId, poiId, f)
  {
  }

  /**
    DELETE removes the point it found; when no other point of that city has
    the id, a second DELETE and a GET of it both answer point-not-found.
   */
  lemma DeleteTwice(cities: seq<City>, cityId: Int32, poiId: Int32, ci: int, pi: int)
    requires Addresses(cities, cityId, poiId, ci, pi)
    requires forall j :: 0 <= j < |cities[ci].points| && j != pi ==> cities[ci].points[j].id != poiId
    ensures var after := DeletePoint(cities, cityId, poiId).cities;
      GetPoint(after, cityId, poiId) == PointNotFound &&
      DeletePoint(after, cityId, poiId) == Outcome(PointNotFound, after)
  {
    var after := DeletePoint(cities, cityId, poiId).cities;
    assert PointRemoved(cities, after, ci, pi);
    assert IsFirstCity(after, cityId, ci);
    var rest := after[ci].points;
    assert forall j :: 0 <= j < |rest| ==> rest[j] == cities[ci].points[if j < pi then j else j + 1];
    assert PointAbsent(rest, poiId);
    assert PointMissing(after, cityId, poiId);
  }

  /** Removing one point cannot make two ids collide. */
  lemma RemovalKeepsUnique(before: seq<City>, after: seq<City>, ci: int, pi: int)
    requires PointRemoved(before, after, ci, pi) && UniqueIds(before)
    ensures UniqueIds(after)
  {
    var old_ := before[ci].points;
    assert forall j :: 0 <= j < |after[ci].points| ==>
      after[ci].points[j] == old_[if j < pi then j else j + 1];
    forall i1, j1, i2, j2 |
      0 <= i1 < |after| && 0 <= j1 < |after[i1].points| &&
      0 <= i2 < |after| && 0 <= j2 < |after[i2].points| &&
      after[i1].points[j1].id == after[i2].points[j2].id
      ensures i1 == i2 && j1 == j2
    {
      var k1 := if i1 == ci && j1 >= pi then j1 + 1 else j1;
      var k2 := if i2 == ci && j2 >= pi then j2 + 1 else j2;
      assert after[i1].points[j1] == before[i1].points[k1];
      assert after[i2].points[j2] == before[i2].points[k2];
    }
  }

  /**
    POST numbers the new point one past the largest id; unless that largest
    id is INT32_MAX, the new id is larger than every id already in the store.
   */
  lemma CreateFreshId(cities: seq<City>, cityId: Int32, body: PointOfInterestFields, m: int)
    requires IsMaxId(cities, m) && m < INT32_MAX
    requires CreatePoint(cities, cityId, body).response.Created?
    ensures CreatePoint(cities, cityId, body).response.point.id == m + 1
    ensures forall i, j :: 0 <= i < |cities| && 0 <= j < |cities[i].points| ==> cities[i].points[j].id < m + 1
  {
  }

  /** After a POST that does not wrap, GET of (city, new id) finds the new point. */
  lemma CreateThenGet(cities: seq<City>, cityId: Int32, body: PointOfInterestFields, m: int)
    requires IsMaxId(cities, m) && m < INT32_MAX
    requires CreatePoint(cities, cityId, body).response.Created?
    ensures var o := CreatePoint(cities, cityId, body);
      GetPoint(o.cities, cityId, m + 1) == Found(o.response.point)
  {
    var o := CreatePoint(cities, cityId, body);
    CreateFreshId(cities, cityId, body, m);
    var ci := CityIndex(cities, cityId).value;
    assert PointAppended(cities, o.cities, ci, o.response.point);
    var n := |cities[ci].points|;
    assert IsFirstCity(o.cities, cityId, ci);
    assert IsFirstPoint(o.cities[ci].points, m + 1, n);
    assert Addresses(o.cities, cityId, m + 1, ci, n);
  }

  /** A POST that does not wrap keeps point ids unique across the store. */
  lemma CreateKeepsIdsUnique(cities: seq<City>, cityId: Int32, body: PointOfInterestFields, m: int)
    requires UniqueIds(cities)
    requires IsMaxId(cities, m) && m < INT32_MAX
    ensures UniqueIds(CreatePoint(cities, cityId, body).cities)
  {
    var o := CreatePoint(cities, cityId, body);
    if o.response.Created? {
      CreateFreshId(cities, cityId, body, m);
      var ci := CityIndex(cities, cityId).value;
      assert PointAppended(cities, o.cities, ci, o.response.point);
      AppendFreshKeepsUnique(cities, o.cities, ci, o.response.point);
    }
  }

  /** After a POST that does not wrap, the new point holds the largest id. */
  lemma CreateRaisesMaxId(cities: seq<City>, cityId: Int32, body: PointOfInterestFields, m: int)
    requires IsMaxId(cities, m) && m < INT32_MAX
    requires CreatePoint(cities, cityId, body).response.Created?
    ensures IsMaxId(CreatePoint(cities, cityId, body).cities, m + 1)
  {
    var o := CreatePoint(cities, cityId, body);
    CreateFreshId(cities, cityId, body, m);
    var ci := CityIndex(cities, cityId).value;
    assert PointAppended(cities, o.cities, ci, o.response.point);
    AppendFreshRaisesMax(cities, o.cities, ci, o.response.point);
  }

  /** The ids the store already holds, seen after a point was appended. */
  lemma AppendKeepsOldPoints(before: seq<City>, after: seq<City>, ci: int, p: PointOfInterest)
    requires PointAppended(before, after, ci, p)
    ensures forall i, j :: 0 <= i < |after| && 0 <= j < |after[i].points| && !(i == ci && j == |before[ci].points|) ==>
      j < |before[i].points| && after[i].points[j] == before[i].points[j]
    ensures after[ci].points[|before[ci].points|] == p
  {
  }

  /** Appending a point whose id exceeds every stored id keeps ids unique. */
  lemma AppendFreshKeepsUnique(before: seq<City>, after: seq<City>, ci: int, p: PointOfInterest)
    requires PointAppended(before, after, ci, p) && UniqueIds(before)
    requires forall i, j :: 0 <= i < |before| && 0 <= j < |before[i].points| ==> before[i].points[j].id < p.id
    ensures UniqueIds(after)
  {
    AppendKeepsOldPoints(before, after, ci, p);
  }

  /** Appending a point whose id exceeds every stored id makes it the largest id. */
  lemma AppendFreshRaisesMax(before: seq<City>, after: seq<City>, ci: int, p: PointOfInterest)
    requires PointAppended(before, after, ci, p)
    requires forall i, j :: 0 <= i < |before| && 0 <= j < |before[i].points| ==> before[i].points[j].id < p.id
    ensures IsMaxId(after, p.id)
  {
    AppendKeepsOldPoints(before, after, ci, p);
  }

  /**
    Two POSTs in a row, to the same or different cities, get consecutive
    ids: the second is one more than the first.
   */
  lemma CreateTwiceConsecutive(cities: seq<City>, cityId1: Int32, body1: PointOfInterestFields,
                               cityId2: Int32, body2: PointOfInterestFields, m: int)
    requires IsMaxId(cities, m) && m + 1 < INT32_MAX
    requires CreatePoint(cities, cityId1, body1).response.Created?
    requires !CityMissing(cities, cityId2)
    ensures var first := CreatePoint(cities, cityId1, body1);
      var second := CreatePoint(first.cities, cityId2, body2);
      second.response.Created? && second.response.point.id == first.response.point.id + 1
  {
    var first := CreatePoint(cities, cityId1, body1);
    CreateFreshId(cities, cityId1, body1, m);
    CreateRaisesMaxId(cities, cityId1, body1, m);
    CreateKeepsCities(cities, cityId1, body1);
    var after := first.cities;
    var cj := CityIndex(cities, cityId2).value;
    assert after[cj].id == cityId2;
    var second := CreatePoint(after, cityId2, body2);
    assert second.response.point.id == Increment32(m + 1);
  }

  /** POST never adds, removes or renumbers cities. */
  lemma CreateKeepsCities(cities: seq<City>, cityId: Int32, body: PointOfInterestFields)
    ensures var after := CreatePoint(cities, cityId, body).cities;
      |after| == |cities| && forall i :: 0 <= i < |cities| ==> after[i].id == cities[i].id
  {
    var o := CreatePoint(cities, cityId, body);
    if o.response.Created? {
      var ci := CityIndex(cities, cityId).value;
      assert PointAppended(cities, o.cities, ci, o.response.point);
    }
  }

  /** PUT keeps point ids unique across the store. */
  lemma UpdateKeepsIdsUnique(cities: seq<City>, cityId: Int32, poiId: Int32, body: PointOfInterestFields)
    requires UniqueIds(cities)
    ensures UniqueIds(UpdatePoint(cities, cityId, poiId, body).cities)
  {
    var l := Locate(cities, cityId, poiId);
    if l.At? {
      var updated := UpdatePoint(cities, cityId, poiId, body).cities;
      RewriteKeepsIds(cities, updated, l.city, l.point, body);
      SameIdsKeepUnique(cities, updated);
    }
  }

  /** DELETE keeps point ids unique across the store. */
  lemma DeleteKeepsIdsUnique(cities: seq<City>, cityId: Int32, poiId: Int32)
    requires UniqueIds(cities)
    ensures UniqueIds(DeletePoint(cities, cityId, poiId).cities)
  {
    var l := Locate(cities, cityId, poiId);
    if l.At? {
      RemovalKeepsUnique(cities, DeletePoint(cities, cityId, poiId).cities, l.city, l.point);
    }
  }

  /** PATCH keeps point ids unique across the store, whatever the patch and the validation do. */
  lemma PatchKeepsIdsUnique(cities: seq<City>, cityId: Int32, poiId: Int32,
                            patch: PointOfInterestFields -> PatchResult,
                            valid: PointOfInterestFields -> bool)
    requires UniqueIds(cities)
    ensures UniqueIds(PatchPoint(cities, cityId, poiId, patch, valid).cities)
  {
    var l := Locate(cities, cityId, poiId);
    var o := PatchPoint(cities, cityId, poiId, patch, valid);
    if l.At? && o.response == NoContent {
      var f := patch(FieldsOf(cities[l.city].points[l.point])).patched;
      RewriteKeepsIds(cities, o.cities, l.city, l.point, f);
      SameIdsKeepUnique(cities, o.cities);
    }
  }

  /**
    Ids are not reserved. A POST numbers the new point one past the largest id
    that REMAINS in the store, so once the only point holding the largest id is
    deleted, the next POST gets an id no larger than the deleted one: an id a
    deleted point held can be handed out again.
   */
  lemma DeleteSoleMaxLetsIdBeReused(cities: seq<City>, cityId: Int32, poiId: Int32, ci: nat, pi: nat,
                                    newCityId: Int32, body: PointOfInterestFields)
    requires Addresses(cities, cityId, poiId, ci, pi)
    requires forall i, j :: 0 <= i < |cities| && 0 <= j < |cities[i].points| && !(i == ci && j == pi) ==>
      cities[i].points[j].id < poiId
    requires CreatePoint(DeletePoint(cities, cityId, poiId).cities, newCityId, body).response.Created?
    ensures CreatePoint(DeletePoint(cities, cityId, poiId).cities, newCityId, body).response.point.id <= poiId
  {
    var after := DeletePoint(cities, cityId, poiId).cities;
    assert PointRemoved(cities, after, ci, pi);
    RemovalLowersIds(cities, after, ci, pi);
    assert !NoPoints(after);
    var m := MaxPointId(after).value;
    assert IsMaxId(after, m);
    assert m < poiId;
  }

  /** Removing the only point with the largest id leaves only smaller ids behind. */
  lemma RemovalLowersIds(before: seq<City>, after: seq<City>, ci: int, pi: int)
    requires PointRemoved(before, after, ci, pi)
    requires forall i, j :: 0 <= i < |before| && 0 <= j < |before[i].points| && !(i == ci && j == pi) ==>
      before[i].points[j].id < before[ci].points[pi].id
    ensures forall i, j :: 0 <= i < |after| && 0 <= j < |after[i].points| ==>
      after[i].points[j].id < before[ci].points[pi].id
  {
    forall i, j | 0 <= i < |after| && 0 <= j < |after[i].points|
      ensures after[i].points[j].id < before[ci].points[pi].id
    {
      var k := if i == ci && j >= pi then j + 1 else j;
      assert after[i].points[j] == before[i].points[k];
    }
  }

  /**
    A concrete store: after deleting the point with the largest id, the next
    POST hands out that id again.
   */
  lemma IdReusedAfterDelete()
    ensures var cities := [City(1, "Ciudad", [PointOfInterest(1, "A", ""), PointOfInterest(2, "B", "")])];
      var afterDelete := DeletePoint(cities, 1, 2);
      var afterCreate := CreatePoint(afterDelete.cities, 1, PointOfInterestFields("C", ""));
      afterDelete.response == NoContent &&
      afterCreate.response.Created? && afterCreate.response.point.id == 2
  {
    var cities := [City(1, "Ciudad", [PointOfInterest(1, "A", ""), PointOfInterest(2, "B", "")])];
    assert Addresses(cities, 1, 2, 0, 1);
    var afterDelete := DeletePoint(cities, 1, 2);
    assert afterDelete.cities[0].points == [PointOfInterest(1, "A", "")];
    assert IsMaxId(afterDelete.cities, 1);
    assert IsFirstCity(afterDelete.cities, 1, 0);
  }

  /**
    At INT32_MAX the unchecked `++` wraps: the new point gets INT32_MIN, and
    the largest id is still INT32_MAX, so every later POST wraps too, as long
    as the point holding INT32_MAX is not deleted.
   */
  lemma CreateAtMaxIdWraps(cities: seq<City>, cityId: Int32, body: PointOfInterestFields)
    requires IsMaxId(cities, INT32_MAX)
    requires CreatePoint(cities, cityId, body).response.Created?
    ensures var o := CreatePoint(cities, cityId, body);
      o.response.point.id == INT32_MIN && IsMaxId(o.cities, INT32_MAX)
  {
    var o := CreatePoint(cities, cityId, body);
    var ci := CityIndex(cities, cityId).value;
    assert PointAppended(cities, o.cities, ci, o.response.point);
    AppendKeepsMax(cities, o.cities, ci, o.response.point, INT32_MAX);
  }

  /** Appending a point no larger than the largest id keeps that largest id. */
  lemma AppendKeepsMax(before: seq<City>, after: seq<City>, ci: int, p: PointOfInterest, m: int)
    requires PointAppended(before, after, ci, p) && IsMaxId(before, m) && p.id <= m
    ensures IsMaxId(after, m)
  {
    AppendKeepsOldPoints(before, after, ci, p);
    var i, j :| 0 <= i < |before| && 0 <= j < |before[i].points| && before[i].points[j].id == m;
    assert after[i].points[j] == before[i].points[j];
  }

  /** Appending two points with the same id, to one city or two, leaves a repeated id. */
  lemma AppendTwiceRepeats(before: seq<City>, mid: seq<City>, after: seq<City>,
                           c1: int, p1: PointOfInterest, c2: int, p2: PointOfInterest)
    requires PointAppended(before, mid, c1, p1) && PointAppended(mid, after, c2, p2)
    requires p1.id == p2.id
    ensures !UniqueIds(after)
  {
    var n1 := |before[c1].points|;
    var n2 := |mid[c2].points|;
    assert mid[c1].points[n1] == p1;
    assert after[c1].points[n1] == p1;
    assert after[c2].points[n2] == p2;
    assert c1 == c2 ==> n1 < n2;
  }

  /**
    Once the largest id is INT32_MAX, two POSTs in a row both get INT32_MIN,
    so the store no longer has unique ids.
   */
  lemma WrappedCreatesRepeatId(cities: seq<City>, cityId1: Int32, body1: PointOfInterestFields,
                               cityId2: Int32, body2: PointOfInterestFields)
    requires IsMaxId(cities, INT32_MAX)
    requires CreatePoint(cities, cityId1, body1).response.Created?
    requires !CityMissing(cities, cityId2)
    ensures var first := CreatePoint(cities, cityId1, body1);
      var second := CreatePoint(first.cities, cityId2, body2);
      second.response.Created? &&
      first.response.point.id == INT32_MIN && second.response.point.id == INT32_MIN &&
      !UniqueIds(second.cities)
  {
    var first := CreatePoint(cities, cityId1, body1);
    CreateAtMaxIdWraps(cities, cityId1, body1);
    CreateKeepsCities(cities, cityId1, body1);
    var after := first.cities;
    var c1 := CityIndex(cities, cityId1).value;
    assert PointAppended(cities, after, c1, first.response.point);
    var c2 := CityIndex(cities, cityId2).value;
    assert after[c2].id == cityId2;
    assert !NoPoints(after);
    var second := CreatePoint(after, cityId2, body2);
    CreateAtMaxIdWraps(after, cityId2, body2);
    assert IsFirstCity(after, cityId2, c2);
    assert PointAppended(after, second.cities, c2, second.response.point);
    AppendTwiceRepeats(cities, after, second.cities, c1, first.response.point, c2, second.response.point);
  }

  /**
    When both wrapped POSTs go to the same city, a GET for their shared id
    finds an earlier point of that city, never the one just created, so the
    location the second POST answers with addresses a different point.
   */
  lemma RepeatedIdShadowsNewPoint(cities: seq<City>, cityId: Int32,
                                  body1: PointOfInterestFields, body2: PointOfInterestFields)
    requires IsMaxId(cities, INT32_MAX)
    requires CreatePoint(cities, cityId, body1).response.Created?
    ensures var first := CreatePoint(cities, cityId, body1);
      var second := CreatePoint(first.cities, cityId, body2);
      var l := Locate(second.cities, cityId, INT32_MIN);
      l.At? && l.point < |second.cities[l.city].points| - 1
  {
    var first := CreatePoint(cities, cityId, body1);
    var ci := CityIndex(cities, cityId).value;
    assert !CityMissing(cities, cityId);
    WrappedCreatesRepeatId(cities, cityId, body1, cityId, body2);
    CreateKeepsCities(cities, cityId, body1);
    var after := first.cities;
    assert PointAppended(cities, after, ci, first.response.point);
    assert IsFirstCity(after, cityId, ci);
    var second := CreatePoint(after, cityId, body2);
    assert PointAppended(after, second.cities, ci, second.response.point);
    var n := |cities[ci].points|;
    assert second.cities[ci].points[n].id == INT32_MIN;
    assert IsFirstCity(second.cities, cityId, ci);
    var l := Locate(second.cities, cityId, INT32_MIN);
    assert l.city == ci;
    assert l.point <= n;
  }

  /** A concrete store whose largest id is INT32_MAX: the created point gets INT32_MIN. */
  lemma CreateWrapsAtMaxId()
    ensures var cities := [City(1, "Ciudad", [PointOfInterest(INT32_MAX, "A", "")])];
      var o := CreatePoint(cities, 1, PointOfInterestFields("B", ""));
      o.response.Created? && o.response.point.id == INT32_MIN &&
      o.response.point.id < cities[0].points[0].id
  {
    var cities := [City(1, "Ciudad", [PointOfInterest(INT32_MAX, "A", "")])];
    assert cities[0].points[0].id == INT32_MAX;
    assert IsMaxId(cities, INT32_MAX);
    assert IsFirstCity(cities, 1, 0);
  }
}
