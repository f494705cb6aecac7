/** The charts page: replace stock tickers by brand names, after the loading and
    error checks. */
module Graphs {
  import opened Wrappers
  import opened Charts
  import opened ApiTypes
  import opened CarModel

  /** `stockLabelMap`. */
  const StockLabelMap: map<string, string> := map[
    "TSLA" := "Tesla",
    "F" := "Ford",
    "GM" := "General Motors",
    "TM" := "Toyota",
    "BMWYY" := "BMW",
    "HMC" := "Honda",
    "HYMTF" := "Hyundai",
    "NSANY" := "Nissan",
    "VWAGY" := "Volkswagen",
    "MBGYY" := "Mercedes-Benz"]

  /** `stockLabelMap[ticker] || ticker`: every mapped name is non-empty, so a
      ticker with an entry is replaced and any other is kept. */
  function Relabel(ticker: string): string {
    if ticker in StockLabelMap then StockLabelMap[ticker] else ticker
  }

  /** `{ ...stockBarData, labels: labels.map(...) }`. */
  function RelabelStocks(chart: Chart<real>): (r: Chart<real>)
    ensures |r.labels| == |chart.labels|
    ensures forall i :: 0 <= i < |chart.labels| ==>
              r.labels[i] == (if chart.labels[i] in StockLabelMap then StockLabelMap[chart.labels[i]] else chart.labels[i])
    ensures r.datasetLabel == chart.datasetLabel && r.data == chart.data
  {
    chart.(labels := seq(|chart.labels|, i requires 0 <= i < |chart.labels| => Relabel(chart.labels[i])))
  }

  /** No brand name is itself a ticker. */
  lemma NamesAreNotTickers()
    ensures forall t :: t in StockLabelMap ==> StockLabelMap[t] !in StockLabelMap
  {
  }

  /** Relabelling a relabelled chart changes nothing more. */
  lemma RelabelIdempotent(chart: Chart<real>)
    ensures RelabelStocks(RelabelStocks(chart)) == RelabelStocks(chart)
  {
    NamesAreNotTickers();
    var once := RelabelStocks(chart);
    assert RelabelStocks(once).labels == once.labels;
  }

  /** Every ticker the hook requests has a name, so every bar of the stock chart
      is labelled with a brand name. */
  lemma EveryTickerIsNamed(prices: seq<real>)
    ensures forall t :: t in CarTickers ==> t in StockLabelMap
    ensures forall i :: 0 <= i < |CarTickers| ==>
              RelabelStocks(StockBarData(prices)).labels[i] in StockLabelMap.Values
  {
    assert forall t :: t in CarTickers ==> t in StockLabelMap;
  }

  /** What the page renders. `Crashed` is reading `stockBarData` of the initial
      empty `chartData`. */
  datatype View =
    | Loading
    | LoadFailed(message: string)
    | ChartsShown(pie: Chart<nat>, bar: Chart<nat>, carModels: Chart<nat>, stocks: Chart<real>)
    | Crashed

  /** The component body: the loading check comes before the error check, and the
      charts are relabelled only when neither applies. */
  function Render(h: HookState): View {
    if h.loading then Loading
    else if h.error.Some? then LoadFailed("Error loading charts: " + h.error.value)
    else match h.chartData
      case Some(d) => ChartsShown(d.pieData, d.barData, d.carModelsBarData, RelabelStocks(d.stockBarData))
      case None => Crashed
  }

  /** In every state the hook can reach the page never crashes; while loading it
      shows the loading message even if an error is recorded. */
  lemma RenderNeverCrashes(h: HookState)
    requires Ready(h)
    ensures Render(h) != Crashed
    ensures h.loading ==> Render(h) == Loading
    ensures !h.loading && h.error.Some? ==> Render(h) == LoadFailed("Error loading charts: " + h.error.value)
  {
  }

  /** After any fetch the page shows either the load error or the charts, with
      one bar per requested ticker, each labelled with a brand name. */
  lemma RenderAfterFetch(h: HookState, users: Option<seq<UserView>>, cars: Option<seq<Car>>, quotes: seq<Option<real>>)
    ensures var v := Render(FetchSpec(h, users, cars, quotes));
            || v == LoadFailed("Error loading charts: " + LoadError)
            || (&& v.ChartsShown?
                && |v.stocks.labels| == |CarTickers|
                && forall i :: 0 <= i < |v.stocks.labels| ==> v.stocks.labels[i] in StockLabelMap.Values)
  {
    var after := FetchSpec(h, users, cars, quotes);
    FetchOutcome(h, users, cars, quotes);
    if after.error.None? {
      EveryTickerIsNamed(after.chartData.value.stockBarData.data);
    }
  }
}
