/** The data behind the admin charts (`useCharts`): per-key counts built with a
    mutating `reduce`, the label and data arrays of the four charts, and the
    hook's loading and error state. */
module Charts {
  import opened Wrappers
  import opened ApiTypes
  import opened CarModel

  // ---------------------------------------------------------------------------
  // Counting by key

  /** The distinct keys in order of first appearance, the order `Object.keys`
      gives for the accumulator the reduce builds. */
  function Distinct(keys: seq<string>): (d: seq<string>)
    ensures forall x :: x in d <==> x in keys
    ensures forall a, b :: 0 <= a < b < |d| ==> d[a] != d[b]
    decreases |keys|
  {
    if keys == [] then []
    else
      var init := keys[..|keys| - 1];
      var last := keys[|keys| - 1];
      assert keys == init + [last];
      var d := Distinct(init);
      if last in d then d else d + [last]
  }

  /** The labels come in the order of their first appearance: whenever a key equal
      to a later label occurs, every earlier label has occurred before it. */
  predicate FirstAppearanceOrder(keys: seq<string>, d: seq<string>) {
    forall a, b, j :: 0 <= a < b < |d| && 0 <= j < |keys| && keys[j] == d[b] ==> d[a] in keys[..j]
  }

  /** `Distinct` keeps first-appearance order, the order in which `Object.keys`
      lists the string keys of the accumulator. */
  lemma {:induction false} DistinctKeepsFirstAppearanceOrder(keys: seq<string>)
    ensures FirstAppearanceOrder(keys, Distinct(keys))
    decreases |keys|
  {
    if keys != [] {
      var init := keys[..|keys| - 1];
      var last := keys[|keys| - 1];
      assert keys == init + [last];
      var prior := Distinct(init);
      DistinctKeepsFirstAppearanceOrder(init);
      var d := Distinct(keys);
      forall a, b, j | 0 <= a < b < |d| && 0 <= j < |keys| && keys[j] == d[b]
        ensures d[a] in keys[..j]
      {
        assert d[a] == prior[a];
        if j < |init| {
          assert keys[j] == init[j] && keys[..j] == init[..j];
          if b < |prior| {
            assert d[b] == prior[b];
          }
        } else {
          assert keys[..j] == init;
        }
      }
    }
  }

  /** How many times `key` occurs. */
  function Occurrences(keys: seq<string>, key: string): nat {
    multiset(keys)[key]
  }

  /** The count of each label, index-aligned with the labels. */
  function Counts(keys: seq<string>, labels: seq<string>): (c: seq<nat>)
    ensures |c| == |labels|
    ensures forall i :: 0 <= i < |labels| ==> c[i] == Occurrences(keys, labels[i])
  {
    if labels == [] then [] else [Occurrences(keys, labels[0])] + Counts(keys, labels[1..])
  }

  function Sum(s: seq<nat>): nat {
    if s == [] then 0 else s[0] + Sum(s[1..])
  }

  lemma {:induction false} SumAppend(s: seq<nat>, v: nat)
    ensures Sum(s + [v]) == Sum(s) + v
  {
    if s != [] {
      assert (s + [v])[1..] == s[1..] + [v];
      SumAppend(s[1..], v);
    }
  }

  lemma {:induction false} CountsAppendLabel(keys: seq<string>, labels: seq<string>, x: string)
    ensures Counts(keys, labels + [x]) == Counts(keys, labels) + [Occurrences(keys, x)]
  {
    if labels != [] {
      assert (labels + [x])[1..] == labels[1..] + [x];
      CountsAppendLabel(keys, labels[1..], x);
    }
  }

  /** One more key adds one to the total exactly when a label counts it. */
  lemma {:induction false} CountsAppendKey(keys: seq<string>, labels: seq<string>, x: string)
    requires forall a, b :: 0 <= a < b < |labels| ==> labels[a] != labels[b]
    ensures Sum(Counts(keys + [x], labels)) == Sum(Counts(keys, labels)) + (if x in labels then 1 else 0)
  {
    if labels != [] {
      assert multiset(keys + [x]) == multiset(keys) + multiset{x};
      assert x in labels[1..] <==> x in labels && x != labels[0] by {
        if x in labels[1..] {
          var b :| 0 <= b < |labels[1..]| && labels[1..][b] == x;
          assert labels[b + 1] == x;
        }
      }
      CountsAppendKey(keys, labels[1..], x);
    }
  }

  /** The counts over the distinct keys add up to the number of keys. */
  lemma {:induction false} CountsSumToLength(keys: seq<string>)
    ensures Sum(Counts(keys, Distinct(keys))) == |keys|
    decreases |keys|
  {
    if keys != [] {
      var init := keys[..|keys| - 1];
      var last := keys[|keys| - 1];
      assert keys == init + [last];
      var d := Distinct(init);
      CountsSumToLength(init);
      CountsAppendKey(init, d, last);
      if last !in d {
        CountsAppendLabel(keys, d, last);
        SumAppend(Counts(keys, d), Occurrences(keys, last));
        assert Occurrences(keys, last) == 1;
      }
    }
  }

  /** The accumulator the reduce has built after `keys`. */
  function Tally(keys: seq<string>): map<string, nat>
    decreases |keys|
  {
    if keys == [] then map[]
    else
      var acc := Tally(keys[..|keys| - 1]);
      var key := keys[|keys| - 1];
      acc[key := (if key in acc then acc[key] else 0) + 1]
  }

  /** The accumulator holds exactly the keys seen, each with its number of occurrences. */
  lemma {:induction false} TallyCounts(keys: seq<string>)
    ensures forall x :: x in Tally(keys) <==> x in keys
    ensures forall x :: x in Tally(keys) ==> Tally(keys)[x] == Occurrences(keys, x)
    decreases |keys|
  {
    if keys != [] {
      var init := keys[..|keys| - 1];
      var key := keys[|keys| - 1];
      assert keys == init + [key];
      TallyCounts(init);
      assert multiset(keys) == multiset(init) + multiset{key};
    }
  }

  /** The `reduce` with `acc[key] = (acc[key] || 0) + 1`, followed by
      `Object.keys` and `Object.values` of the accumulator. */
  method CountBy(keys: seq<string>) returns (labels: seq<string>, data: seq<nat>)
    ensures labels == Distinct(keys)
    ensures data == Counts(keys, labels)
  {
    labels := [];
    var acc: map<string, nat> := map[];
    var i := 0;
    while i < |keys|
      invariant 0 <= i <= |keys|
      invariant labels == Distinct(keys[..i])
      invariant acc == Tally(keys[..i])
    {
      var key := keys[i];
      assert keys[..i + 1][..i] == keys[..i];
      TallyCounts(keys[..i]);
      if key in acc {
        acc := acc[key := acc[key] + 1];
      } else {
        acc := acc[key := 1];
        labels := labels + [key];
      }
      i := i + 1;
    }
    assert keys[..i] == keys;
    TallyCounts(keys);
    data := seq(|labels|, j requires 0 <= j < |labels| => acc[labels[j]]);
  }

  // ---------------------------------------------------------------------------
  // The charts

  /** The part of a chart.js dataset the charts fill from data. */
  datatype Chart<T> = Chart(labels: seq<string>, datasetLabel: string, data: seq<T>)

  datatype ChartData = ChartData(pieData: Chart<nat>, barData: Chart<nat>,
                                 carModelsBarData: Chart<nat>, stockBarData: Chart<real>)

  function Genders(users: seq<UserView>): seq<string> {
    seq(|users|, i requires 0 <= i < |users| => users[i].gender)
  }

  function Brands(cars: seq<Car>): seq<string> {
    seq(|cars|, i requires 0 <= i < |cars| => cars[i].brand)
  }

  /** `pieData`: the distinct genders and, index-aligned, how many users have each. */
  function PieData(users: seq<UserView>): (c: Chart<nat>)
    ensures |c.labels| == |c.data|
    ensures forall a, b :: 0 <= a < b < |c.labels| ==> c.labels[a] != c.labels[b]
    ensures forall x :: x in c.labels <==> x in Genders(users)
  {
    var labels := Distinct(Genders(users));
    Chart(labels, "Gender Distribution", Counts(Genders(users), labels))
  }

  /** `barData`: one bar per user, in user order. */
  function BarData(users: seq<UserView>): (c: Chart<nat>)
    ensures |c.labels| == |c.data| == |users|
    ensures forall i :: 0 <= i < |users| ==> c.labels[i] == users[i].name && c.data[i] == |users[i].messages|
  {
    Chart(seq(|users|, i requires 0 <= i < |users| => users[i].name),
          "Number of Messages",
          seq(|users|, i requires 0 <= i < |users| => |users[i].messages|))
  }

  /** `carModelsBarData`: the distinct brands and the number of catalog cars of each. */
  function CarModelsBarData(cars: seq<Car>): (c: Chart<nat>)
    ensures |c.labels| == |c.data|
    ensures forall a, b :: 0 <= a < b < |c.labels| ==> c.labels[a] != c.labels[b]
    ensures forall x :: x in c.labels <==> x in Brands(cars)
  {
    var labels := Distinct(Brands(cars));
    Chart(labels, "Number of Models per Brand", Counts(Brands(cars), labels))
  }

  /** The stock tickers requested, in request order. */
  const CarTickers := ["TM", "TSLA", "F", "HYMTF", "BMWYY", "HMC", "NSANY", "VWAGY", "MBGYY"]

  /** `stockBarData`, given each ticker's latest price. */
  function StockBarData(prices: seq<real>): Chart<real> {
    Chart(CarTickers, "Stock Prices (USD)", prices)
  }

  /** The pie chart lists every gender once, and its slices add up to the number
      of users; the same holds for brands and catalog cars. */
  lemma CountChartsAreComplete(users: seq<UserView>, cars: seq<Car>)
    ensures var pie := PieData(users);
            && |pie.labels| == |pie.data|
            && (forall u :: u in users ==> u.gender in pie.labels)
            && Sum(pie.data) == |users|
    ensures var bars := CarModelsBarData(cars);
            && |bars.labels| == |bars.data|
            && (forall c :: c in cars ==> c.brand in bars.labels)
            && Sum(bars.data) == |cars|
  {
    CountsSumToLength(Genders(users));
    CountsSumToLength(Brands(cars));
    forall u | u in users
      ensures u.gender in Genders(users)
    {
      var i :| 0 <= i < |users| && users[i] == u;
      assert Genders(users)[i] == u.gender;
    }
    forall c | c in cars
      ensures c.brand in Brands(cars)
    {
      var i :| 0 <= i < |cars| && cars[i] == c;
      assert Brands(cars)[i] == c.brand;
    }
  }

  // ---------------------------------------------------------------------------
  // The hook's state

  /** The three state variables of the hook. `chartData` starts as `{}`, shown
      here as None. */
  datatype HookState = HookState(chartData: Option<ChartData>, loading: bool, error: Option<string>)

  const LoadError := "Failed to load data"

  /** The state is never "done, no error" without charts. */
  predicate Ready(h: HookState) {
    !h.loading && h.error.None? ==> h.chartData.Some?
  }

  /** All four data sets, or None when any request fails. `users` and `cars` are
      the two API answers, `quotes` the price of each ticker (Promise.all fails if
      any quote request fails). */
  function BuildCharts(users: Option<seq<UserView>>, cars: Option<seq<Car>>, quotes: seq<Option<real>>): Option<ChartData> {
    if users.None? || cars.None? || |quotes| != |CarTickers| || exists i :: 0 <= i < |quotes| && quotes[i].None? then None
    else
      var prices := seq(|quotes|, i requires 0 <= i < |quotes| => quotes[i].value);
      Some(ChartData(PieData(users.value), BarData(users.value), CarModelsBarData(cars.value), StockBarData(prices)))
  }

  /** `fetchData`, from its first state change to its last. */
  function FetchSpec(h: HookState, users: Option<seq<UserView>>, cars: Option<seq<Car>>, quotes: seq<Option<real>>): HookState {
    match BuildCharts(users, cars, quotes)
    case Some(d) => HookState(Some(d), false, None)
    case None => HookState(h.chartData, false, Some(LoadError))
  }

  /** A fetch always ends with `loading` false; on success every chart is stored
      and the error is cleared, on failure the error is set and the previous charts
      are left in place. Either way the state is ready. */
  lemma FetchOutcome(h: HookState, users: Option<seq<UserView>>, cars: Option<seq<Car>>, quotes: seq<Option<real>>)
    ensures var after := FetchSpec(h, users, cars, quotes);
            && !after.loading && Ready(after)
            && (users.Some? && cars.Some? && |quotes| == |CarTickers| && (forall i :: 0 <= i < |quotes| ==> quotes[i].Some?)
                <==> after.error.None?)
            && (after.error.None? ==> after.chartData.value.pieData == PieData(users.value)
                                      && after.chartData.value.barData == BarData(users.value)
                                      && after.chartData.value.carModelsBarData == CarModelsBarData(cars.value)
                                      && after.chartData.value.stockBarData.labels == CarTickers)
            && (after.error.Some? ==> after.error == Some(LoadError) && after.chartData == h.chartData)
  {
  }

  /** The hook's state variables. */
  class ChartsHook {
    var chartData: Option<ChartData>
    var loading: bool
    var error: Option<string>

    function State(): HookState
      reads this
    {
      HookState(chartData, loading, error)
    }

    /** `useState({})`, `useState(true)`, `useState(null)`. */
    constructor ()
      ensures State() == HookState(None, true, None) && Ready(State())
    {
      chartData, loading, error := None, true, None;
    }

    /** `fetchData`: loading on and the error cleared, then either all four data sets
        stored or the error set; loading off at the end. */
    method FetchData(users: Option<seq<UserView>>, cars: Option<seq<Car>>, quotes: seq<Option<real>>)
      modifies this
      ensures State() == FetchSpec(old(State()), users, cars, quotes)
    {
      loading := true;
      error := None;
      if users.None? || cars.None? || |quotes| != |CarTickers| || exists i :: 0 <= i < |quotes| && quotes[i].None? {
        error := Some(LoadError);
        loading := false;
        return;
      }
      var genderLabels, genderData := CountBy(Genders(users.value));
      var pieData := Chart(genderLabels, "Gender Distribution", genderData);
      var barData := BarData(users.value);
      var brandLabels, brandData := CountBy(Brands(cars.value));
      var carModelsBarData := Chart(brandLabels, "Number of Models per Brand", brandData);
      var prices := seq(|quotes|, i requires 0 <= i < |quotes| => quotes[i].value);
      chartData := Some(ChartData(pieData, barData, carModelsBarData, StockBarData(prices)));
      loading := false;
    }
  }
}
