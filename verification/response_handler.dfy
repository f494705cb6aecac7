/** The answer resolver of the chat server (`get_response` and its helpers).
    The NLU call, the image search and the catalog read are parameters:
    `wit` maps the user's text to the NLU answer (None when the call fails),
    `unsplash` maps a search query to the result URLs (None when the call fails;
    "" stands for a result that carries no URL), and `db` is the catalog read
    (None when the read fails). */
module ResponseHandler {
  import opened Wrappers
  import opened JsString
  import opened CarModel
  import opened JsArray

  const CarImageIntent := "car_image"
  const CarPriceIntent := "car_price"
  const CarInfoIntent := "car_info"
  const CarDescriptionIntent := "car_description"

  const ErrorReply := "Sorry, there was an error processing your request."
  const ClarifyReply := "I'm not sure I understood that. Could you clarify?"

  /** The part of the NLU answer the resolver reads: the intent names, best
      first, and the values of the `car_brand` and `car_model` entities. */
  datatype WitData = WitData(intents: seq<string>, brandValues: seq<string>, modelValues: seq<string>)

  /** `formatPrice`: the price as JavaScript writes it, then a space and the euro sign. */
  function FormatPrice(price: int): (r: string)
    ensures |r| > 2 && r[|r| - 2..] == " €"
    ensures ParseNumber(r[..|r| - 2]) == Some(price)
  {
    DecimalStringRoundTrip(price);
    var r := DecimalString(price) + " €";
    assert r[..|r| - 2] == DecimalString(price);
    r
  }

  /** `compareStrings`: equal after trimming and lower-casing both sides. */
  predicate CompareStrings(a: string, b: string) {
    ToLower(Trim(a)) == ToLower(Trim(b))
  }

  /** `compareStrings` is an equivalence relation. */
  lemma CompareStringsIsEquivalence(a: string, b: string, c: string)
    ensures CompareStrings(a, a)
    ensures CompareStrings(a, b) <==> CompareStrings(b, a)
    ensures CompareStrings(a, b) && CompareStrings(b, c) ==> CompareStrings(a, c)
  {
  }

  lemma ToLowerIdempotent(s: string)
    ensures ToLower(ToLower(s)) == ToLower(s)
  {
    ToLowerOfLower(ToLower(s));
  }

  /** Surrounding whitespace and letter case never decide a comparison. */
  lemma CompareStringsIgnoresPaddingAndCase(a: string)
    ensures CompareStrings(Trim(a), a)
    ensures CompareStrings(ToLower(a), a)
  {
    TrimIdempotent(a);
    TrimLowerCommute(a);
    ToLowerIdempotent(Trim(a));
  }

  lemma LowerToyota()
    ensures ToLower("Toyota") == "toyota"
  {
    var lower := "toyota";
    ToLowerOfLower(lower[1..]);
    assert LowerChar('T') == 't';
    assert "Toyota" == ['T'] + lower[1..];
  }

  lemma TrimPaddedToyota()
    ensures Trim(" toyota ") == "toyota"
  {
    var lower := "toyota";
    assert " toyota "[1..] == lower + [' '];
    assert TrimStart(lower + [' ']) == lower + [' '];
    assert (lower + [' '])[..6] == lower;
    assert TrimEnd(lower + [' ']) == TrimEnd(lower);
    assert TrimEnd(lower) == lower;
  }

  lemma ToyotaIsTrimmedAndLower()
    ensures IsTrimmed("Toyota") && IsLower("toyota")
  {
  }

  /** The catalog's "Toyota" matches a user's " toyota ". */
  lemma CompareStringsExample()
    ensures CompareStrings("Toyota", " toyota ")
  {
    ToyotaIsTrimmedAndLower();
    TrimOfTrimmed("Toyota");
    LowerToyota();
    TrimPaddedToyota();
    ToLowerOfLower("toyota");
  }

  const ModelNoise: set<char> := {'?', '.'}

  /** `cleanCarModel`: drop every `?` and `.`, trim, lower-case. */
  function CleanCarModel(model: string): (r: string)
    ensures forall k :: 0 <= k < |r| ==> r[k] != '?' && r[k] != '.'
    ensures IsTrimmed(r)
    ensures IsLower(r)
  {
    var removed := RemoveChars(model, ModelNoise);
    var trimmed := Trim(removed);
    TrimExcludes(removed, ModelNoise);
    ToLowerExcludes(trimmed, ModelNoise);
    ToLowerKeepsTrimmed(trimmed);
    ToLower(trimmed)
  }

  /** A name without `?` or `.`, trimmed and lower-case, is left as it is. */
  lemma CleanCarModelFixes(name: string)
    requires forall k :: 0 <= k < |name| ==> name[k] != '?' && name[k] != '.'
    requires IsTrimmed(name) && IsLower(name)
    ensures CleanCarModel(name) == name
  {
    RemoveCharsAbsent(name, ModelNoise);
    TrimOfTrimmed(name);
    ToLowerOfLower(name);
  }

  /** Cleaning a cleaned model name changes nothing. */
  lemma CleanCarModelIdempotent(model: string)
    ensures CleanCarModel(CleanCarModel(model)) == CleanCarModel(model)
  {
    CleanCarModelFixes(CleanCarModel(model));
  }

  /** `witData.intents?.[0]?.name`: only the best-ranked intent counts. */
  function FirstIntent(data: WitData): Option<string> {
    if |data.intents| > 0 then Some(data.intents[0]) else None
  }

  /** `entities[...]?.[0]?.value || null`: the first value, where "" counts as absent. */
  function EntityValue(values: seq<string>): Option<string> {
    if |values| > 0 && values[0] != "" then Some(values[0]) else None
  }

  /** `carModel` after it has been cleaned. It may have become "", which the later
      truthiness test treats as absent. */
  function CarModelValue(data: WitData): Option<string> {
    match EntityValue(data.modelValues)
    case Some(m) => Some(CleanCarModel(m))
    case None => None
  }

  /** The Unsplash search query: the brand alone followed by " car". */
  function ImageQuery(brand: string): string {
    brand + " car"
  }

  /** `fetchCarImageFromUnsplash`: the URL of the first result, if there is one;
      a failed call, no results and a result without a URL all give None. */
  function FetchCarImage(unsplash: string -> Option<seq<string>>, brand: string): Option<string> {
    match unsplash(ImageQuery(brand))
    case Some(urls) => if |urls| > 0 && urls[0] != "" then Some(urls[0]) else None
    case None => None
  }

  /** `fetchCarDataFromDB`: a failed read is treated as an empty catalog. */
  function FetchCarData(db: Option<seq<Car>>): (cars: seq<Car>)
    ensures db.None? ==> cars == []
  {
    match db
    case Some(cars) => cars
    case None => []
  }

  const ImageTagOpen := "<img src=\""
  const ImageTagAlt := "\" alt=\""
  const ImageTagClose := " car\" style=\"max-width:100%; height:auto;\">"

  function ImageTag(url: string, brand: string): string {
    ImageTagOpen + url + ImageTagAlt + brand + ImageTagClose
  }

  function NoImageReply(brand: string): string {
    "Sorry, I couldn't find an image for the " + brand + "."
  }

  function PriceReply(car: Car): string {
    "The price of the " + car.brand + " " + car.model + " is " + FormatPrice(car.averageSellingPrice) + "."
  }

  function InfoReply(car: Car): string {
    "The " + car.brand + " " + car.model + " is a " + car.fuelType + " car with "
    + car.transmission + " transmission. " + car.about
  }

  function NoInformationReply(brand: string, model: string): string {
    "Sorry, I don't have information about the " + brand + " " + model + "."
  }

  /** The predicate of `cars.find`. */
  predicate Matches(car: Car, brand: string, model: string) {
    CompareStrings(car.brand, brand) && CompareStrings(car.model, model)
  }

  /** `cars.find(...)`: the index of the first catalog car matching both brand and model. */
  function FindCar(cars: seq<Car>, brand: string, model: string): (r: Option<nat>)
    ensures r.Some? ==> r.value < |cars| && Matches(cars[r.value], brand, model)
    ensures r.Some? ==> forall j :: 0 <= j < r.value ==> !Matches(cars[j], brand, model)
    ensures r.None? ==> forall j :: 0 <= j < |cars| ==> !Matches(cars[j], brand, model)
  {
    Find(cars, car => Matches(car, brand, model))
  }

  /** The first match is unique, so the lookup is determined by which cars match. */
  lemma FindCarSameMatches(cars: seq<Car>, b1: string, m1: string, b2: string, m2: string)
    requires forall j :: 0 <= j < |cars| ==> (Matches(cars[j], b1, m1) <==> Matches(cars[j], b2, m2))
    ensures FindCar(cars, b1, m1) == FindCar(cars, b2, m2)
  {
    FindFromSame(cars, car => Matches(car, b1, m1), car => Matches(car, b2, m2), 0);
  }

  /** The catalog lookup ignores letter case and surrounding whitespace of the
      brand and model it is given. */
  lemma LookupIgnoresCaseAndPadding(cars: seq<Car>, b1: string, m1: string, b2: string, m2: string)
    requires CompareStrings(b1, b2) && CompareStrings(m1, m2)
    ensures FindCar(cars, b1, m1) == FindCar(cars, b2, m2)
  {
    forall j | 0 <= j < |cars|
      ensures Matches(cars[j], b1, m1) <==> Matches(cars[j], b2, m2)
    {
      CompareStringsIsEquivalence(cars[j].brand, b1, b2);
      CompareStringsIsEquivalence(cars[j].model, m1, m2);
    }
    FindCarSameMatches(cars, b1, m1, b2, m2);
  }

  /** Step 2 of `get_response`: the answer to an image request for `brand`. */
  function ImageAnswer(unsplash: string -> Option<seq<string>>, brand: string): (r: string)
    ensures |r| > 0
  {
    match FetchCarImage(unsplash, brand)
    case Some(url) => ImageTag(url, brand)
    case None => NoImageReply(brand)
  }

  /** Step 3 of `get_response`, once a brand and a non-empty cleaned model are known. */
  function CatalogAnswer(intent: Option<string>, brand: string, model: string, cars: seq<Car>): (r: string)
    ensures |r| > 0
  {
    match FindCar(cars, brand, model)
    case Some(i) =>
      if intent == Some(CarPriceIntent) then PriceReply(cars[i])
      else if intent == Some(CarInfoIntent) || intent == Some(CarDescriptionIntent) then InfoReply(cars[i])
      else NoInformationReply(brand, model)
    case None => NoInformationReply(brand, model)
  }

  /** Steps 2 and 3 of `get_response`, once the NLU answer is in hand. */
  function Resolve(data: WitData, unsplash: string -> Option<seq<string>>, cars: seq<Car>): (r: string)
    ensures |r| > 0
  {
    var intent := FirstIntent(data);
    var brand := EntityValue(data.brandValues);
    var model := CarModelValue(data);
    if intent == Some(CarImageIntent) && brand.Some? then
      ImageAnswer(unsplash, brand.value)
    else if brand.Some? && model.Some? && model.value != "" then
      CatalogAnswer(intent, brand.value, model.value, cars)
    else
      ClarifyReply
  }

  /** `get_response`: total, it always answers with some text. */
  function GetResponse(message: string, wit: string -> Option<WitData>,
                       unsplash: string -> Option<seq<string>>, db: Option<seq<Car>>): (r: string)
    ensures |r| > 0
    ensures wit(message).None? ==> r == ErrorReply
  {
    match wit(message)
    case None => ErrorReply
    case Some(data) => Resolve(data, unsplash, FetchCarData(db))
  }

  /** Only the first intent and the first brand and model values are read. */
  lemma OnlyFirstValuesUsed(d1: WitData, d2: WitData, unsplash: string -> Option<seq<string>>, cars: seq<Car>)
    requires FirstIntent(d1) == FirstIntent(d2)
    requires EntityValue(d1.brandValues) == EntityValue(d2.brandValues)
    requires EntityValue(d1.modelValues) == EntityValue(d2.modelValues)
    ensures Resolve(d1, unsplash, cars) == Resolve(d2, unsplash, cars)
  {
  }

  /** An image request with a brand queries "{brand} car", answers with the first
      result's image tag or with the no-image apology, and never reads the catalog. */
  lemma ImageRequestAnswer(data: WitData, unsplash: string -> Option<seq<string>>, cars1: seq<Car>, cars2: seq<Car>, brand: string)
    requires FirstIntent(data) == Some(CarImageIntent)
    requires EntityValue(data.brandValues) == Some(brand)
    ensures Resolve(data, unsplash, cars1) == Resolve(data, unsplash, cars2)
    ensures match unsplash(brand + " car")
            case Some(urls) =>
              if |urls| > 0 && urls[0] != "" then Resolve(data, unsplash, cars1) == ImageTag(urls[0], brand)
              else Resolve(data, unsplash, cars1) == NoImageReply(brand)
            case None => Resolve(data, unsplash, cars1) == NoImageReply(brand)
  {
  }

  /** The lookup lands on the first matching car. */
  lemma FindCarAt(cars: seq<Car>, brand: string, model: string, i: nat)
    requires i < |cars| && Matches(cars[i], brand, model)
    requires forall j :: 0 <= j < i ==> !Matches(cars[j], brand, model)
    ensures FindCar(cars, brand, model) == Some(i)
  {
    FindIsFirst(cars, car => Matches(car, brand, model), i);
  }

  /** Outside the image path, with a brand and a non-empty cleaned model, the
      answer comes from the catalog. */
  lemma ResolveOutsideImage(data: WitData, unsplash: string -> Option<seq<string>>, cars: seq<Car>, brand: string, model: string)
    requires FirstIntent(data) != Some(CarImageIntent)
    requires EntityValue(data.brandValues) == Some(brand)
    requires CarModelValue(data) == Some(model) && model != ""
    ensures Resolve(data, unsplash, cars) == CatalogAnswer(FirstIntent(data), brand, model, cars)
  {
  }

  /** A price request for a catalog car names the catalog's brand and model and
      contains the stored price followed by the euro sign. */
  lemma PriceAnswer(data: WitData, unsplash: string -> Option<seq<string>>, cars: seq<Car>, brand: string, model: string, i: nat)
    requires FirstIntent(data) == Some(CarPriceIntent)
    requires EntityValue(data.brandValues) == Some(brand)
    requires CarModelValue(data) == Some(model) && model != ""
    requires i < |cars| && Matches(cars[i], brand, model)
    requires forall j :: 0 <= j < i ==> !Matches(cars[j], brand, model)
    ensures Resolve(data, unsplash, cars) == PriceReply(cars[i])
    ensures Includes(Resolve(data, unsplash, cars), DecimalString(cars[i].averageSellingPrice) + " €")
  {
    FindCarAt(cars, brand, model, i);
    ResolveOutsideImage(data, unsplash, cars, brand, model);
    CatalogPrice(FirstIntent(data), brand, model, cars, i);
    var car := cars[i];
    var r := PriceReply(car);
    var prefix := "The price of the " + car.brand + " " + car.model + " is ";
    var price := FormatPrice(car.averageSellingPrice);
    assert r == prefix + price + ".";
    assert r[|prefix|..|prefix| + |price|] == price;
    assert OccursAt(r, price, |prefix|);
  }

  /** An info or description request for a catalog car answers with its fuel
      type, transmission and description. */
  lemma InfoAnswer(data: WitData, unsplash: string -> Option<seq<string>>, cars: seq<Car>, brand: string, model: string, i: nat)
    requires FirstIntent(data) == Some(CarInfoIntent) || FirstIntent(data) == Some(CarDescriptionIntent)
    requires EntityValue(data.brandValues) == Some(brand)
    requires CarModelValue(data) == Some(model) && model != ""
    requires i < |cars| && Matches(cars[i], brand, model)
    requires forall j :: 0 <= j < i ==> !Matches(cars[j], brand, model)
    ensures Resolve(data, unsplash, cars) == InfoReply(cars[i])
  {
    FindCarAt(cars, brand, model, i);
    ResolveOutsideImage(data, unsplash, cars, brand, model);
    CatalogInfo(FirstIntent(data), brand, model, cars, i);
  }

  /** A catalog hit under the price intent answers with the price template. */
  lemma CatalogPrice(intent: Option<string>, brand: string, model: string, cars: seq<Car>, i: nat)
    requires FindCar(cars, brand, model) == Some(i) && intent == Some(CarPriceIntent)
    ensures CatalogAnswer(intent, brand, model, cars) == PriceReply(cars[i])
  {
  }

  /** A catalog hit under the info or description intent answers with the info template. */
  lemma CatalogInfo(intent: Option<string>, brand: string, model: string, cars: seq<Car>, i: nat)
    requires FindCar(cars, brand, model) == Some(i)
    requires intent == Some(CarInfoIntent) || intent == Some(CarDescriptionIntent)
    ensures CatalogAnswer(intent, brand, model, cars) == InfoReply(cars[i])
  {
  }

  /** The catalog path answers "no information" on a miss, and on a hit under an
      intent other than price, info or description. */
  lemma CatalogMiss(intent: Option<string>, brand: string, model: string, cars: seq<Car>)
    requires FindCar(cars, brand, model).None?
             || intent !in {Some(CarPriceIntent), Some(CarInfoIntent), Some(CarDescriptionIntent)}
    ensures CatalogAnswer(intent, brand, model, cars) == NoInformationReply(brand, model)
  {
  }

  /** With a brand and a model and outside the image path, a catalog miss and a
      hit under any other intent give the same reply, built from the user's brand
      and the cleaned model. */
  lemma NoInformationAnswer(data: WitData, unsplash: string -> Option<seq<string>>, cars: seq<Car>, brand: string, rawModel: string)
    requires FirstIntent(data) != Some(CarImageIntent)
    requires EntityValue(data.brandValues) == Some(brand)
    requires EntityValue(data.modelValues) == Some(rawModel) && CleanCarModel(rawModel) != ""
    requires (forall j :: 0 <= j < |cars| ==> !Matches(cars[j], brand, CleanCarModel(rawModel)))
             || FirstIntent(data) !in {Some(CarPriceIntent), Some(CarInfoIntent), Some(CarDescriptionIntent)}
    ensures Resolve(data, unsplash, cars) == NoInformationReply(brand, CleanCarModel(rawModel))
  {
    var model := CleanCarModel(rawModel);
    ResolveOutsideImage(data, unsplash, cars, brand, model);
    if forall j :: 0 <= j < |cars| ==> !Matches(cars[j], brand, model) {
      FindNone(cars, car => Matches(car, brand, model));
    }
    CatalogMiss(FirstIntent(data), brand, model, cars);
  }

  /** Without a brand and a non-empty cleaned model, and outside the image path,
      the resolver asks the user to clarify. */
  lemma ClarifyAnswer(data: WitData, unsplash: string -> Option<seq<string>>, cars: seq<Car>)
    requires !(FirstIntent(data) == Some(CarImageIntent) && EntityValue(data.brandValues).Some?)
    requires EntityValue(data.brandValues).None? || CarModelValue(data).None? || CarModelValue(data) == Some("")
    ensures Resolve(data, unsplash, cars) == ClarifyReply
  {
  }

  /** A model name made only of `?`, `.` and whitespace is treated as absent. */
  lemma PunctuationOnlyModelIsAbsent(unsplash: string -> Option<seq<string>>, cars: seq<Car>)
    ensures Resolve(WitData(["car_price"], ["Toyota"], ["?."]), unsplash, cars) == ClarifyReply
  {
    var model := CleanCarModel("?.");
    assert RemoveChars("?.", ModelNoise) == RemoveChars(".", ModelNoise) == "";
  }
}
