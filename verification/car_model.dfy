/** The `Car` catalog record (`carSchema`) and Mongoose's required-field validation
    of a document before it is saved. */
module CarModel {
  import opened Wrappers

  /** A stored catalog car: all six schema paths are present. */
  datatype Car = Car(
    brand: string,
    model: string,
    averageSellingPrice: int,
    fuelType: string,
    transmission: string,
    about: string)

  /** A document as handed to `new Car(...)`; any path may be missing. A price of
      `None` is a missing value or one that does not cast to a Number (NaN). */
  datatype CarDoc = CarDoc(
    brand: Option<string>,
    model: Option<string>,
    averageSellingPrice: Option<int>,
    fuelType: Option<string>,
    transmission: Option<string>,
    about: Option<string>)

  /** Mongoose's `required` check on a String path: a value is present and is not "". */
  predicate RequiredString(v: Option<string>) {
    v.Some? && v.value != ""
  }

  /** The schema paths, in declaration order. */
  const SchemaPaths: seq<string> :=
    ["brand", "model", "averageSellingPrice", "fuelType", "transmission", "about"]

  /** Whether the path at position `k` of `SchemaPaths` passes its required check. */
  predicate PathPresent(doc: CarDoc, k: nat)
    requires k < 6
  {
    match k
    case 0 => RequiredString(doc.brand)
    case 1 => RequiredString(doc.model)
    case 2 => doc.averageSellingPrice.Some?
    case 3 => RequiredString(doc.fuelType)
    case 4 => RequiredString(doc.transmission)
    case _ => RequiredString(doc.about)
  }

  predicate IsComplete(doc: CarDoc) {
    forall k :: 0 <= k < 6 ==> PathPresent(doc, k)
  }

  /** The paths that fail validation, in schema order. */
  function MissingPaths(doc: CarDoc): (r: seq<string>)
    ensures forall p :: p in r <==> exists k :: 0 <= k < 6 && SchemaPaths[k] == p && !PathPresent(doc, k)
  {
    (if PathPresent(doc, 0) then [] else ["brand"])
    + (if PathPresent(doc, 1) then [] else ["model"])
    + (if PathPresent(doc, 2) then [] else ["averageSellingPrice"])
    + (if PathPresent(doc, 3) then [] else ["fuelType"])
    + (if PathPresent(doc, 4) then [] else ["transmission"])
    + (if PathPresent(doc, 5) then [] else ["about"])
  }

  /** The document a stored car corresponds to. */
  function ToDoc(car: Car): CarDoc {
    CarDoc(Some(car.brand), Some(car.model), Some(car.averageSellingPrice),
           Some(car.fuelType), Some(car.transmission), Some(car.about))
  }

  /** Save-time validation: a `Car` when every required path is present,
      otherwise the list of failing paths. */
  function Validate(doc: CarDoc): (r: Result<Car, seq<string>>)
    ensures r.Success? <==> IsComplete(doc)
    ensures r.Success? ==> ToDoc(r.value) == doc
    ensures r.Failure? ==> r.error != [] && forall p :: p in r.error ==> p in SchemaPaths
  {
    var missing := MissingPaths(doc);
    if missing == [] then
      Success(Car(doc.brand.value, doc.model.value, doc.averageSellingPrice.value,
                  doc.fuelType.value, doc.transmission.value, doc.about.value))
    else
      Failure(missing)
  }

  /** A car whose string fields are all non-empty, as every car that passed validation is. */
  predicate WellFormed(car: Car) {
    car.brand != "" && car.model != "" && car.fuelType != ""
    && car.transmission != "" && car.about != ""
  }

  /** Validation accepts the document of a car exactly when the car is well formed,
      and then gives the same car back. */
  lemma ValidateRoundTrip(car: Car)
    ensures Validate(ToDoc(car)).Success? <==> WellFormed(car)
    ensures WellFormed(car) ==> Validate(ToDoc(car)) == Success(car)
  {
    var doc := ToDoc(car);
    if !WellFormed(car) {
      if car.brand == "" { assert !PathPresent(doc, 0); }
      else if car.model == "" { assert !PathPresent(doc, 1); }
      else if car.fuelType == "" { assert !PathPresent(doc, 3); }
      else if car.transmission == "" { assert !PathPresent(doc, 4); }
      else { assert !PathPresent(doc, 5); }
    }
  }

  /** Whatever passes validation is well formed. */
  lemma ValidatedCarsAreWellFormed(doc: CarDoc)
    requires Validate(doc).Success?
    ensures WellFormed(Validate(doc).value)
  {
    assert PathPresent(doc, 0) && PathPresent(doc, 1) && PathPresent(doc, 3);
    assert PathPresent(doc, 4) && PathPresent(doc, 5);
  }
}
