/**
  The controller's actions against the shared store. Each action looks up
  the city, then the point, returns a not-found answer as soon as one is
  missing, and otherwise reads or changes the store in place. Each method
  is proved to leave the store and answer exactly as the corresponding
  function of `PointsOfInterest` says.
 */
module PointsOfInterestController {
  import opened Linq
  import opened Models
  import opened PointsOfInterest

  class PointsOfInterestController {
    /** The static `CitiesDataStore.Current` every action works on. */
    const store: CitiesDataStore

    constructor (store: CitiesDataStore)
      ensures this.store == store
    {
      this.store := store;
    }

    /** GET {poid}, the route named `GetPointOfInterest` (`GetPuntodeInteresById`): the first matching point of the first matching city; changes nothing. */
    method GetPuntodeInteresById(cityId: Int32, poid: Int32) returns (r: Response)
      ensures r == GetPoint(store.cities, cityId, poid)
    {
      var city := CityIndex(store.cities, cityId);
      if city.None? {
        return CityNotFound;
      }
      var ci := city.value;
      var point := PointIndex(store.cities[ci].points, poid);
      if point.None? {
        return PointNotFound;
      }
      return Found(store.cities[ci].points[point.value]);
    }

    /** POST: a new point numbered one past the largest id in the store, added to the city. */
    method CreatePointOfInterest(cityId: Int32, body: PointOfInterestFields) returns (r: Response)
      modifies store
      ensures r == CreatePoint(old(store.cities), cityId, body).response
      ensures store.cities == CreatePoint(old(store.cities), cityId, body).cities
    {
      var city := CityIndex(store.cities, cityId);
      if city.None? {
        return CityNotFound;
      }
      var ci := city.value;
      var maxId := MaxPointId(store.cities);
      if maxId.None? {
        return NoPointsInStore;
      }
      var finalPoi := PointOfInterest(Increment32(maxId.value), body.name, body.description);
      var points := store.cities[ci].points;
      points := points + [finalPoi];
      store.cities := store.cities[ci := store.cities[ci].(points := points)];
      return Created(cityId, finalPoi);
    }

    /** PUT {poid}: overwrite the point's name and description. */
    method UpdatePointOfInterest(cityId: Int32, poid: Int32, body: PointOfInterestFields) returns (r: Response)
      modifies store
      ensures r == UpdatePoint(old(store.cities), cityId, poid, body).response
      ensures store.cities == UpdatePoint(old(store.cities), cityId, poid, body).cities
    {
      var city := CityIndex(store.cities, cityId);
      if city.None? {
        return CityNotFound;
      }
      var ci := city.value;
      var point := PointIndex(store.cities[ci].points, poid);
      if point.None? {
        return PointNotFound;
      }
      SetFields(ci, point.value, body);
      return NoContent;
    }

    /** DELETE {poid}: remove the point from its city's list. */
    method DeletePointOfInterest(cityId: Int32, poid: Int32) returns (r: Response)
      modifies store
      ensures r == DeletePoint(old(store.cities), cityId, poid).response
      ensures store.cities == DeletePoint(old(store.cities), cityId, poid).cities
    {
      var city := CityIndex(store.cities, cityId);
      if city.None? {
        return CityNotFound;
      }
      var ci := city.value;
      var point := PointIndex(store.cities[ci].points, poid);
      if point.None? {
        return PointNotFound;
      }
      var pi := point.value;
      var points := store.cities[ci].points;
      store.cities := store.cities[ci := store.cities[ci].(points := points[..pi] + points[pi + 1..])];
      return NoContent;
    }

    /**
      PATCH {poid}: apply the patch document to a copy of the editable fields;
      write the copy back only if the patch applied and the copy validates.
     */
    method PartiallyUpdatePointOfInterest(cityId: Int32, poid: Int32,
                                          patch: PointOfInterestFields -> PatchResult,
                                          valid: PointOfInterestFields -> bool)
      returns (r: Response)
      modifies store
      ensures r == PatchPoint(old(store.cities), cityId, poid, patch, valid).response
      ensures store.cities == PatchPoint(old(store.cities), cityId, poid, patch, valid).cities
    {
      var city := CityIndex(store.cities, cityId);
      if city.None? {
        return CityNotFound;
      }
      var ci := city.value;
      var point := PointIndex(store.cities[ci].points, poid);
      if point.None? {
        return PointNotFound;
      }
      var pi := point.value;
      var pointFromStore := store.cities[ci].points[pi];
      var poiToPatch := FieldsOf(pointFromStore);
      var patched := patch(poiToPatch);
      if patched.Failed? {
        return PatchRejected(patched.errors);
      }
      if !valid(patched.patched) {
        return ModelInvalid;
      }
      SetFields(ci, pi, patched.patched);
      return NoContent;
    }

    /** Assign name and description of one stored point, as `point.Name = ...; point.Description = ...`. */
    method SetFields(ci: nat, pi: nat, f: PointOfInterestFields)
      requires ci < |store.cities| && pi < |store.cities[ci].points|
      modifies store
      ensures store.cities == WithFields(old(store.cities), ci, pi, f)
    {
      var city := store.cities[ci];
      var point := city.points[pi];
      point := point.(name := f.name);
      point := point.(description := f.description);
      store.cities := store.cities[ci := city.(points := city.points[pi := point])];
    }
  }
}
