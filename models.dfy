/**
  The entities of the in-memory city store: cities that own an ordered list
  of points of interest, the two request bodies that carry a point's
  editable fields, and the store object itself (`CitiesDataStore.Current`).
 */
module Models {

  const INT32_MIN: int := -0x8000_0000
  const INT32_MAX: int := 0x7fff_ffff
  const TWO_TO_32: int := 0x1_0000_0000

  /** C#'s `int`. */
  type Int32 = x: int | INT32_MIN <= x <= INT32_MAX

  /**
    Reduces `x` into the `int` range the way unchecked C# arithmetic does:
    the result agrees with `x` modulo 2^32, and is `x` itself when `x` fits.
   */
  function Wrap32(x: int): (r: Int32)
    ensures INT32_MIN <= x <= INT32_MAX ==> r == x
    ensures (x - r) % TWO_TO_32 == 0
  {
    var k := (x - INT32_MIN) / TWO_TO_32;
    assert x - INT32_MIN == k * TWO_TO_32 + (x - INT32_MIN) % TWO_TO_32;
    (x - INT32_MIN) % TWO_TO_32 + INT32_MIN
  }

  /** C#'s unchecked `x++` on an `int`: one more, except that `int.MaxValue` wraps to `int.MinValue`. */
  function Increment32(x: Int32): (r: Int32)
    ensures x < INT32_MAX ==> r == x + 1
    ensures x == INT32_MAX ==> r == INT32_MIN
  {
    if x == INT32_MAX then INT32_MIN else x + 1
  }

  /** The increment is the 32-bit reduction of `x + 1`. */
  lemma IncrementIsWrapped(x: Int32)
    ensures Increment32(x) == Wrap32(x + 1)
  {
  }

  /** A stored point of interest (`PointOfInterestDto`). */
  datatype PointOfInterest = PointOfInterest(id: Int32, name: string, description: string)

  /** A city (`CityDto`) with its points in list order. */
  datatype City = City(id: Int32, name: string, points: seq<PointOfInterest>)

  /**
    The fields a client may set: the body of a create
    (`PointOfInterestForCreationDto`), of a full update and the object a
    patch is applied to (`PointOfInterestForUpdateDto`). All three carry
    exactly a name and a description.
   */
  datatype PointOfInterestFields = PointOfInterestFields(name: string, description: string)

  /** The editable fields of a stored point. */
  function FieldsOf(p: PointOfInterest): (f: PointOfInterestFields)
  {
    PointOfInterestFields(p.name, p.description)
  }

  /** The process-wide store (`CitiesDataStore.Current`). */
  class CitiesDataStore {
    var cities: seq<City>

    constructor (cities: seq<City>)
      ensures this.cities == cities
    {
      this.cities := cities;
    }
  }
}
