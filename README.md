# Points of interest: a verified model of the controller's store actions

The ASP.NET controller `PointsOfInterestController` serves points of interest
nested under cities. Five of its actions work directly on the process-wide
in-memory store `CitiesDataStore.Current.Cities`: a list of cities, each owning
an ordered list of points (id, name, description). This project models those
five actions and proves what they do to the store.

- **Get** finds the first city with the id, then that city's first point with the id.
- **Create** numbers the new point 1 + the largest id of any point in any city.
  It appends the point to the city's list.
- **Update** overwrites the point's name and description in place.
- **Delete** removes the point from its city's list.
- **Partial update** applies a JSON patch document to a copy of the editable fields.
  It writes the copy back only when the patch applied and the copy validates.

Every action answers "not found" as soon as the city or the point is missing.
In that case it leaves the store unchanged.

## Layout

- `linq.dfy`, module `Linq`: the LINQ queries the actions use, as functions with
  contracts. `FirstOrDefault` is modelled as the index of the first match,
  alongside `SelectMany` and `Max(selector)`.
- `models.dfy`, module `Models`:
  - the entities (`City`, `PointOfInterest`, and `PointOfInterestFields` for the
    create and update bodies);
  - the store class `CitiesDataStore`;
  - C#'s 32-bit `int` (`Int32`), with `Increment32` for unchecked `++`, and
    `Wrap32`, the general 32-bit reduction it agrees with.
- `points_of_interest.dfy`, module `PointsOfInterest`:
  - which point a request addresses (`IsFirstCity`, `IsFirstPoint`, `Addresses`, `Locate`);
  - what the store looks like after an action (`FieldsRewritten`, `PointRemoved`, `PointAppended`);
  - store-wide ids (`IsMaxId`, `UniqueIds`, `MaxPointId`);
  - one function per action, from the cities to the answer and the cities afterwards.
- `controller.dfy`, module `PointsOfInterestController`: the controller class.
  It holds the store and has one imperative method per action, each proved to
  answer and update the store exactly as its function says.
- `properties.dfy`, module `PointsOfInterestProperties`: lemmas that relate
  several actions or an action and a store invariant.

Two collaborators the controller calls are parameters of the partial update:
`patch` stands for `JsonPatchDocument.ApplyTo` and `valid` for `TryValidateModel`.
The patch yields either the patched fields or a list of errors.

Behaviour of the code worth knowing, proved here:

- Point ids are not reserved. A create numbers the new point one past the largest
  id that remains in the store, so it can hand out an id that a deleted point once
  held. When the deleted point was the only one holding the largest id, the next
  create gets an id no larger than the deleted one (`DeleteSoleMaxLetsIdBeReused`).
  With ids 1 and 2, deleting 2 and creating gives 2 again (`IdReusedAfterDelete`);
  with ids 1 and 5 it gives 2.
- Ids stay unique only from a store whose ids are unique. Update, delete and
  partial update keep them unique; a create keeps them unique as long as the
  largest id is below `int.MaxValue`.
- The new id is computed with C#'s unchecked `++`. Once the largest id is
  `int.MaxValue`, a create gets `int.MinValue` and the largest id stays
  `int.MaxValue` (`CreateAtMaxIdWraps`). Every later create therefore gets
  `int.MinValue` too, as long as the point holding `int.MaxValue` is not
  deleted, and two creates in a row leave two points with the same id
  (`WrappedCreatesRepeatId`). When both go to the same city, a get of (city,
  `int.MinValue`) finds an older point, so the location the second create answers
  with does not address the point it created (`RepeatedIdShadowsNewPoint`). The
  fresh-id and uniqueness lemmas therefore assume the largest id is below
  `int.MaxValue`.
- `Max` over an empty sequence throws. A create against an existing city when no
  city holds any point at all therefore fails before anything is added. This is
  modelled as the answer `NoPointsInStore` with the store unchanged.

## Model

| member | source | states |
|---|---|---|
| `Linq.FirstIndex` | Controllers/PointsOfInterestController.cs:48 | `None` exactly when no element satisfies the predicate; otherwise an in-range index of an element that does, with no earlier element that does |
| `Linq.SelectMany` | Controllers/PointsOfInterestController.cs:68 | every element of every inner sequence is in the result, and every element of the result comes from some inner sequence |
| `Linq.MaxOf` | Controllers/PointsOfInterestController.cs:68 | `None` exactly for the empty sequence (where .NET's `Max` throws); otherwise a key some element has and no element exceeds |
| `Models.Wrap32` | Controllers/PointsOfInterestController.cs:72 | the 32-bit result of unchecked arithmetic: equal to the input when it fits in `int`, and congruent to it modulo 2^32 |
| `Models.Increment32` | Controllers/PointsOfInterestController.cs:72 | `int.MaxValue` goes to `int.MinValue`, every other id to id + 1; equal to `Wrap32(x + 1)` (`IncrementIsWrapped`) |
| `Models.IncrementIsWrapped` | Controllers/PointsOfInterestController.cs:72 | the unchecked `++` used for new ids (`Increment32`) is the 32-bit reduction of the id plus one |
| `PointsOfInterest.CityIndex` | Controllers/PointsOfInterestController.cs:40-41 | no city found exactly when no city has the id; otherwise the position of the first city with the id, and the only position that is first |
| `PointsOfInterest.PointIndex` | Controllers/PointsOfInterestController.cs:48-49 | no point found exactly when no point of the list has the id; otherwise the position of the first point with the id |
| `PointsOfInterest.Locate` | Controllers/PointsOfInterestController.cs:144-154 | the two lookups end in exactly one of: city missing, city found but point missing, or the unique (city, point) position the request addresses |
| `PointsOfInterest.AllPoints` | Controllers/PointsOfInterestController.cs:68 | holds every point of every city and nothing else |
| `PointsOfInterest.MaxPointId` | Controllers/PointsOfInterestController.cs:68 | `None` exactly when no city holds a point; otherwise the largest point id in the whole store (the only value that is largest) |
| `PointsOfInterest.GetPoint` | Controllers/PointsOfInterestController.cs:38-55 | city-not-found exactly when no city has the id; point-not-found exactly when the first such city has no point with the id; otherwise the first such point, whose id is the requested one |
| `PointsOfInterest.CreatePoint` | Controllers/PointsOfInterestController.cs:58-88 | missing city: city-not-found, store unchanged. City present but no points anywhere: `NoPointsInStore`, store unchanged. Otherwise `Created` for the requested city, with the body's name and description and id = the unchecked increment of the largest id. The point is appended to the end of the first matching city; every other city is unchanged and the city keeps its id and name |
| `PointsOfInterest.UpdatePoint` | Controllers/PointsOfInterestController.cs:91-115 | missing city or point: not-found, store unchanged. Otherwise no-content; only the name and description of the addressed point change, to the body's. Its id, its position, the other points and the other cities are unchanged |
| `PointsOfInterest.DeletePoint` | Controllers/PointsOfInterestController.cs:118-138 | missing city or point: not-found, store unchanged. Otherwise no-content; the addressed point is removed, the list is one shorter, the rest keep their order, and the other cities are unchanged |
| `PointsOfInterest.PatchPoint` | Controllers/PointsOfInterestController.cs:141-182 | missing city or point: not-found, store unchanged. A patch that fails: the patch errors, store unchanged. A patched copy that fails validation: model-invalid, store unchanged. Only when both pass do the name and description of the addressed point become the patched ones, id and everything else unchanged |
| `PointsOfInterest.WithFields` | Controllers/PointsOfInterestController.cs:108-109 | the store with one point's name and description replaced and nothing else changed |
| `PointsOfInterest.WithAppended` | Controllers/PointsOfInterestController.cs:77 | the store with one point added at the end of one city's list and nothing else changed |
| `PointsOfInterestController.PointsOfInterestController.constructor` | Controllers/PointsOfInterestController.cs:17-21 | the controller works on the given store |
| `PointsOfInterestController.PointsOfInterestController.GetPuntodeInteresById` | Controllers/PointsOfInterestController.cs:38-55 | reads the store without changing it and answers as `GetPoint` |
| `PointsOfInterestController.PointsOfInterestController.CreatePointOfInterest` | Controllers/PointsOfInterestController.cs:58-88 | answer and new store are those of `CreatePoint` on the old store |
| `PointsOfInterestController.PointsOfInterestController.UpdatePointOfInterest` | Controllers/PointsOfInterestController.cs:91-115 | answer and new store are those of `UpdatePoint` on the old store |
| `PointsOfInterestController.PointsOfInterestController.DeletePointOfInterest` | Controllers/PointsOfInterestController.cs:118-138 | answer and new store are those of `DeletePoint` on the old store |
| `PointsOfInterestController.PointsOfInterestController.PartiallyUpdatePointOfInterest` | Controllers/PointsOfInterestController.cs:141-182 | answer and new store are those of `PatchPoint` on the old store |
| `PointsOfInterestController.PointsOfInterestController.SetFields` | Controllers/PointsOfInterestController.cs:178-179 | the in-place assignment of name and description to one stored point leaves the store as `WithFields` says |
| `PointsOfInterestProperties.LocateByIds` | Controllers/PointsOfInterestController.cs:144-154 | the lookups depend only on ids: two stores with the same ids in the same places resolve every request to the same position |
| `PointsOfInterestProperties.UpdateIdempotent` | Controllers/PointsOfInterestController.cs:101-111 | repeating a full update with the same body gives the same answer and the same store as doing it once |
| `PointsOfInterestProperties.UpdateThenGet` | Controllers/PointsOfInterestController.cs:108-109 | after a successful full update, a get of the same point returns it with the requested id and the new name and description |
| `PointsOfInterestProperties.PatchCommitsAsUpdate` | Controllers/PointsOfInterestController.cs:157-179 | a patch that applies and validates does exactly what a full update with the patched fields does |
| `PointsOfInterestProperties.DeleteTwice` | Controllers/PointsOfInterestController.cs:128-134 | when the id is unique in its city, after a delete both a get and a second delete of it answer point-not-found, and the second delete changes nothing |
| `PointsOfInterestProperties.RemovalKeepsUnique` | Controllers/PointsOfInterestController.cs:133 | removing one point from a store with unique ids leaves the ids unique |
| `PointsOfInterestProperties.CreateFreshId` | Controllers/PointsOfInterestController.cs:68-72 | when the largest id m is below `int.MaxValue`, the created point's id is m + 1, larger than every id in the store before the call |
| `PointsOfInterestProperties.CreateThenGet` | Controllers/PointsOfInterestController.cs:77-83 | after a create that does not wrap, a get of (city, new id) returns the created point, as the created-at location promises |
| `PointsOfInterestProperties.CreateKeepsIdsUnique` | Controllers/PointsOfInterestController.cs:68-77 | a create that does not wrap keeps point ids unique across all cities |
| `PointsOfInterestProperties.CreateRaisesMaxId` | Controllers/PointsOfInterestController.cs:68-77 | after a create that does not wrap, the new point's id is the store's largest id |
| `PointsOfInterestProperties.CreateTwiceConsecutive` | Controllers/PointsOfInterestController.cs:68-77 | two creates in a row, to the same or to different cities, get consecutive ids |
| `PointsOfInterestProperties.CreateKeepsCities` | Controllers/PointsOfInterestController.cs:77 | a create never adds, removes or renumbers cities |
| `PointsOfInterestProperties.UpdateKeepsIdsUnique` | Controllers/PointsOfInterestController.cs:108-109 | a full update keeps point ids unique |
| `PointsOfInterestProperties.DeleteKeepsIdsUnique` | Controllers/PointsOfInterestController.cs:133 | a delete keeps point ids unique |
| `PointsOfInterestProperties.PatchKeepsIdsUnique` | Controllers/PointsOfInterestController.cs:178-179 | a partial update keeps point ids unique, whatever the patch and the validation do |
| `PointsOfInterestProperties.DeleteSoleMaxLetsIdBeReused` | Controllers/PointsOfInterestController.cs:68-72 | for every store: after deleting the only point that holds the largest id, a create gets an id no larger than the deleted point's |
| `PointsOfInterestProperties.IdReusedAfterDelete` | Controllers/PointsOfInterestController.cs:68-72 | a concrete store in which deleting the point with the largest id makes the next create reuse that id |
| `PointsOfInterestProperties.CreateAtMaxIdWraps` | Controllers/PointsOfInterestController.cs:68-72 | for every store whose largest id is `int.MaxValue`: a create gets `int.MinValue`, and the largest id is still `int.MaxValue` afterwards |
| `PointsOfInterestProperties.WrappedCreatesRepeatId` | Controllers/PointsOfInterestController.cs:68-77 | once the largest id is `int.MaxValue`, two creates in a row both get `int.MinValue` and the store no longer has unique ids |
| `PointsOfInterestProperties.RepeatedIdShadowsNewPoint` | Controllers/PointsOfInterestController.cs:68-83 | when both of those creates go to the same city, a get of (city, `int.MinValue`) finds a point that is not the last one in the list, so the second create's location does not address the point it created |
| `PointsOfInterestProperties.CreateWrapsAtMaxId` | Controllers/PointsOfInterestController.cs:72 | a concrete store whose largest id is `int.MaxValue`: the created point gets `int.MinValue`, below the existing id |

## Left out

- `GetPointsofInterestByCityId` is not modelled. It goes through the asynchronous
  `ICityInfoRepository` (persistence I/O), whose implementation is not part of this model.
- The AutoMapper mapping to `PointOfInterestDto` is left out; it is a foreign library.
- The internals of `JsonPatchDocument.ApplyTo` and `TryValidateModel` are not modelled.
  They are framework code, and appear as the parameters `patch` and `valid`.
  Model-binding errors are not modelled either: with `[ApiController]` the framework
  rejects such requests before the action runs, so `ModelState.IsValid` reflects
  only the patch.
- HTTP details are reduced to the tags of `Response`: status codes, the Spanish
  error texts, the `CreatedAtRoute` URL and routing.
- Concurrency is left out. The static store is mutated without locks; every action
  is modelled as one atomic step.
- Null values are not modelled: a null city list, a null point list and a null
  description. The `Cities?.` and `Cities.` spellings behave alike here.
- Object identity is not modelled. Cities and points are values, and an update
  replaces the point value at its position. In the code, a point object listed
  twice (in one city or in two) would change in every place it is listed; the
  model changes only the addressed position. The controller itself never lists
  an object twice: create always adds a new object.
- City fields other than id, name and the point list are not modelled; the
  controller does not use them.
- PointsOfInterestProperties.CreateFreshId: states "larger than every existing id"
  only when the largest id is below `int.MaxValue`. At `int.MaxValue` the code
  wraps (see `CreateAtMaxIdWraps`).
- PointsOfInterestProperties.CreateThenGet: assumes the largest id is below `int.MaxValue`, as `CreateFreshId` does.
- PointsOfInterestProperties.CreateKeepsIdsUnique: assumes the largest id is below `int.MaxValue`, as `CreateFreshId` does.
- PointsOfInterestProperties.CreateRaisesMaxId: assumes the largest id is below `int.MaxValue`, as `CreateFreshId` does.
- PointsOfInterestProperties.CreateTwiceConsecutive: assumes the largest id is below `int.MaxValue` - 1, so that neither create wraps.
