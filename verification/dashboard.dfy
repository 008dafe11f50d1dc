/**
 The `/api/dashboard/summary` computation: stock KPIs over the products,
 pending-document KPIs over the documents, and the two chart series (stock
 per location, stock per category). The pie chart's `percent` value is not
 modelled; the division by zero it raises on a zero stock total is.
 */
module Dashboard {
  import opened Records
  import opened Tally

  /** A product with positive stock up to this level is "low stock". */
  const LowStockThreshold: int := 20

  /** Statuses that make a receipt, delivery or transfer pending. */
  const OpenStatuses: seq<string> := ["Waiting", "Ready"]

  /** Statuses that make an adjustment pending: drafts count too. */
  const AdjustmentOpenStatuses: seq<string> := ["Draft", "Waiting", "Ready"]

  datatype LocationPoint = LocationPoint(location: string, stock: int)

  datatype CategoryPoint = CategoryPoint(name: string, value: int)

  datatype Summary = Summary(
    totalProductsInStock: int,
    lowStockItems: nat,
    outOfStockItems: nat,
    pendingReceipts: nat,
    pendingDeliveries: nat,
    transfersScheduled: nat,
    adjustmentsPending: nat,
    locations: map<string, Location>,
    locationChartData: seq<LocationPoint>,
    categoryChartData: seq<CategoryPoint>)

  // ---------------------------------------------------------------------
  // Stock KPIs

  /** `sum(p['stock_level'] for p in products)`. */
  function TotalStock(ps: seq<Product>): int {
    if |ps| == 0 then 0 else ps[0].stockLevel + TotalStock(ps[1..])
  }

  predicate IsLowStock(p: Product) {
    0 < p.stockLevel <= LowStockThreshold
  }

  predicate IsOutOfStock(p: Product) {
    p.stockLevel == 0
  }

  function LowStockItems(ps: seq<Product>): nat {
    if |ps| == 0 then 0 else (if IsLowStock(ps[0]) then 1 else 0) + LowStockItems(ps[1..])
  }

  function OutOfStockItems(ps: seq<Product>): nat {
    if |ps| == 0 then 0 else (if IsOutOfStock(ps[0]) then 1 else 0) + OutOfStockItems(ps[1..])
  }

  /** Reference classification of a stock level into four disjoint bands. */
  datatype Band = Negative | Empty | Low | Ample

  function BandOf(level: int): Band {
    if level < 0 then Negative
    else if level == 0 then Empty
    else if level <= LowStockThreshold then Low
    else Ample
  }

  function CountInBand(ps: seq<Product>, b: Band): nat {
    if |ps| == 0 then 0
    else (if BandOf(ps[0].stockLevel) == b then 1 else 0) + CountInBand(ps[1..], b)
  }

  /** The low-stock and out-of-stock KPIs count two of four disjoint bands,
      so together with the negative and the ample products they account
      for every product exactly once. */
  lemma {:induction false} StockBandsPartition(ps: seq<Product>)
    ensures LowStockItems(ps) == CountInBand(ps, Low)
    ensures OutOfStockItems(ps) == CountInBand(ps, Empty)
    ensures LowStockItems(ps) + OutOfStockItems(ps)
            + CountInBand(ps, Negative) + CountInBand(ps, Ample) == |ps|
  {
    if |ps| > 0 {
      StockBandsPartition(ps[1..]);
    }
  }

  lemma StockKpisBounded(ps: seq<Product>)
    ensures LowStockItems(ps) + OutOfStockItems(ps) <= |ps|
  {
    StockBandsPartition(ps);
  }

  lemma {:induction false} StockKpisAppend(ps: seq<Product>, p: Product)
    ensures LowStockItems(ps + [p]) == LowStockItems(ps) + (if IsLowStock(p) then 1 else 0)
    ensures OutOfStockItems(ps + [p]) == OutOfStockItems(ps) + (if IsOutOfStock(p) then 1 else 0)
    ensures TotalStock(ps + [p]) == TotalStock(ps) + p.stockLevel
  {
    if |ps| == 0 {
      assert ps + [p] == [p];
    } else {
      assert (ps + [p])[1..] == ps[1..] + [p];
      StockKpisAppend(ps[1..], p);
    }
  }

  /** A product with negative stock is neither low stock nor out of stock. */
  lemma NegativeStockUncounted(ps: seq<Product>, p: Product)
    requires p.stockLevel < 0
    ensures LowStockItems(ps + [p]) == LowStockItems(ps)
    ensures OutOfStockItems(ps + [p]) == OutOfStockItems(ps)
  {
    StockKpisAppend(ps, p);
  }

  // ---------------------------------------------------------------------
  // Pending-document KPIs

  /** `len([d for d in docs if d['type'] == docType and d['status'] in statuses])`. */
  function CountPending(docs: seq<Document>, docType: string, statuses: seq<string>): nat {
    if |docs| == 0 then 0
    else (if docs[0].docType == docType && docs[0].status in statuses then 1 else 0)
         + CountPending(docs[1..], docType, statuses)
  }

  function PendingReceipts(docs: seq<Document>): nat {
    CountPending(docs, "Receipt", OpenStatuses)
  }

  function PendingDeliveries(docs: seq<Document>): nat {
    CountPending(docs, "Delivery", OpenStatuses)
  }

  function TransfersScheduled(docs: seq<Document>): nat {
    CountPending(docs, "Internal", OpenStatuses)
  }

  function AdjustmentsPending(docs: seq<Document>): nat {
    CountPending(docs, "Adjustment", AdjustmentOpenStatuses)
  }

  /** Appending one document raises a pending count by one exactly when the
      document has the counted type and one of the counted statuses. */
  lemma {:induction false} CountPendingAppend(docs: seq<Document>, d: Document, docType: string, statuses: seq<string>)
    ensures CountPending(docs + [d], docType, statuses)
            == CountPending(docs, docType, statuses)
               + (if d.docType == docType && d.status in statuses then 1 else 0)
  {
    if |docs| == 0 {
      assert docs + [d] == [d];
    } else {
      assert (docs + [d])[1..] == docs[1..] + [d];
      CountPendingAppend(docs[1..], d, docType, statuses);
    }
  }

  /** A finished or canceled document changes no pending KPI. */
  lemma ClosedDocumentsUncounted(docs: seq<Document>, d: Document)
    requires d.status == "Done" || d.status == "Canceled"
    ensures PendingReceipts(docs + [d]) == PendingReceipts(docs)
    ensures PendingDeliveries(docs + [d]) == PendingDeliveries(docs)
    ensures TransfersScheduled(docs + [d]) == TransfersScheduled(docs)
    ensures AdjustmentsPending(docs + [d]) == AdjustmentsPending(docs)
  {
    CountPendingAppend(docs, d, "Receipt", OpenStatuses);
    CountPendingAppend(docs, d, "Delivery", OpenStatuses);
    CountPendingAppend(docs, d, "Internal", OpenStatuses);
    CountPendingAppend(docs, d, "Adjustment", AdjustmentOpenStatuses);
  }

  /** A draft is pending only when it is an adjustment. */
  lemma DraftsPendOnlyAsAdjustments(docs: seq<Document>, d: Document)
    requires d.status == "Draft"
    ensures PendingReceipts(docs + [d]) == PendingReceipts(docs)
    ensures PendingDeliveries(docs + [d]) == PendingDeliveries(docs)
    ensures TransfersScheduled(docs + [d]) == TransfersScheduled(docs)
    ensures AdjustmentsPending(docs + [d])
            == AdjustmentsPending(docs) + (if d.docType == "Adjustment" then 1 else 0)
  {
    CountPendingAppend(docs, d, "Receipt", OpenStatuses);
    CountPendingAppend(docs, d, "Delivery", OpenStatuses);
    CountPendingAppend(docs, d, "Internal", OpenStatuses);
    CountPendingAppend(docs, d, "Adjustment", AdjustmentOpenStatuses);
  }

  /** The four pending KPIs count documents of four different types, so no
      document is counted twice. */
  lemma {:induction false} PendingKpisBounded(docs: seq<Document>)
    ensures PendingReceipts(docs) + PendingDeliveries(docs)
            + TransfersScheduled(docs) + AdjustmentsPending(docs) <= |docs|
  {
    if |docs| > 0 {
      PendingKpisBounded(docs[1..]);
    }
  }

  // ---------------------------------------------------------------------
  // Chart series

  datatype GroupBy = LocationKey | CategoryKey

  function KeyOf(g: GroupBy, p: Product): string {
    match g
    case LocationKey => p.locationId
    case CategoryKey => p.category
  }

  /** Each product as a (key, stock level) entry, in product order. */
  function StockEntries(ps: seq<Product>, g: GroupBy): (r: seq<Entry>)
    ensures |r| == |ps|
    ensures forall i :: 0 <= i < |ps| ==> r[i] == Entry(KeyOf(g, ps[i]), ps[i].stockLevel)
  {
    if |ps| == 0 then [] else [Entry(KeyOf(g, ps[0]), ps[0].stockLevel)] + StockEntries(ps[1..], g)
  }

  /** `location_stock` or `category_counts`. */
  function StockBy(ps: seq<Product>, g: GroupBy): seq<Entry> {
    TallyOf(StockEntries(ps, g))
  }

  /** Reference definition: the stock of the products whose key is `k`. */
  function StockOfKey(ps: seq<Product>, g: GroupBy, k: string): int {
    if |ps| == 0 then 0
    else (if KeyOf(g, ps[0]) == k then ps[0].stockLevel else 0) + StockOfKey(ps[1..], g, k)
  }

  lemma {:induction false} EntriesTotals(ps: seq<Product>, g: GroupBy)
    ensures Total(StockEntries(ps, g)) == TotalStock(ps)
    ensures forall k :: SumFor(StockEntries(ps, g), k) == StockOfKey(ps, g, k)
  {
    if |ps| > 0 {
      EntriesTotals(ps[1..], g);
      assert StockEntries(ps, g)[1..] == StockEntries(ps[1..], g);
    }
  }

  lemma EntriesKeys(ps: seq<Product>, g: GroupBy)
    ensures Keys(StockEntries(ps, g)) == set i | 0 <= i < |ps| :: KeyOf(g, ps[i])
  {
    var e := StockEntries(ps, g);
    assert forall i :: 0 <= i < |ps| ==> e[i].key == KeyOf(g, ps[i]);
  }

  /** Each product's stock lands in exactly one bucket, the one for its key:
      the buckets have distinct keys, there is a bucket for every key some
      product has and for no other, each bucket holds the stock of the
      products with its key, and the buckets add up to the total stock. */
  lemma StockByMeaning(ps: seq<Product>, g: GroupBy)
    ensures DistinctKeys(StockBy(ps, g))
    ensures Keys(StockBy(ps, g)) == set i | 0 <= i < |ps| :: KeyOf(g, ps[i])
    ensures forall i :: 0 <= i < |StockBy(ps, g)| ==>
              StockBy(ps, g)[i].amount == StockOfKey(ps, g, StockBy(ps, g)[i].key)
    ensures Total(StockBy(ps, g)) == TotalStock(ps)
  {
    TallyOfMeaning(StockEntries(ps, g));
    EntriesTotals(ps, g);
    EntriesKeys(ps, g);
    forall i | 0 <= i < |StockBy(ps, g)|
      ensures StockBy(ps, g)[i].amount == StockOfKey(ps, g, StockBy(ps, g)[i].key)
    {
      BucketIsLookup(StockBy(ps, g), i);
    }
  }

  function LocationStockSum(points: seq<LocationPoint>): int {
    if |points| == 0 then 0 else points[0].stock + LocationStockSum(points[1..])
  }

  function CategoryValueSum(points: seq<CategoryPoint>): int {
    if |points| == 0 then 0 else points[0].value + CategoryValueSum(points[1..])
  }

  /** `[{'location': locations[loc]['name'], 'stock': s} for loc, s in ...]`;
      `None` stands for the `KeyError` raised by an unknown location id. */
  function LocationChart(buckets: seq<Entry>, locations: map<string, Location>): (r: Option<seq<LocationPoint>>)
    ensures r.Some? <==> Keys(buckets) <= locations.Keys
    ensures r.Some? ==> |r.value| == |buckets| && LocationStockSum(r.value) == Total(buckets)
    ensures r.Some? ==> forall i :: 0 <= i < |buckets| ==>
              r.value[i] == LocationPoint(locations[buckets[i].key].name, buckets[i].amount)
  {
    if |buckets| == 0 then Some([])
    else
      assert buckets == [buckets[0]] + buckets[1..];
      KeysOfCons(buckets[0], buckets[1..]);
      if buckets[0].key !in locations then None
      else
        match LocationChart(buckets[1..], locations)
        case None => None
        case Some(rest) =>
          var p := LocationPoint(locations[buckets[0].key].name, buckets[0].amount);
          assert ([p] + rest)[1..] == rest;
          Some([p] + rest)
  }

  /** `[{'name': cat, 'value': count} for cat, count in ...]`. */
  function CategoryChart(buckets: seq<Entry>): (r: seq<CategoryPoint>)
    ensures |r| == |buckets| && CategoryValueSum(r) == Total(buckets)
    ensures forall i :: 0 <= i < |buckets| ==> r[i] == CategoryPoint(buckets[i].key, buckets[i].amount)
  {
    if |buckets| == 0 then []
    else
      var rest := CategoryChart(buckets[1..]);
      var p := CategoryPoint(buckets[0].key, buckets[0].amount);
      assert ([p] + rest)[1..] == rest;
      [p] + rest
  }

  // ---------------------------------------------------------------------
  // The summary

  /** Some product names a location id the store does not have: building
      the bar chart raises `KeyError`. */
  predicate UnknownLocation(store: Store) {
    exists i :: 0 <= i < |store.products| && store.products[i].locationId !in store.locations
  }

  /** There are category buckets (so at least one product) but the total
      stock is zero: the pie chart's `percent`, `count / total_stock`, raises
      `ZeroDivisionError`. */
  predicate PercentDividesByZero(ps: seq<Product>) {
    |ps| > 0 && TotalStock(ps) == 0
  }

  /** `get_dashboard_summary`; `None` when the handler raises: a product
      names an unknown location id, or the pie chart divides by a zero
      total stock. */
  function DashboardSummary(store: Store): (r: Option<Summary>)
    ensures r.None? <==> UnknownLocation(store) || PercentDividesByZero(store.products)
    ensures r.Some? ==> LocationStockSum(r.value.locationChartData) == r.value.totalProductsInStock
    ensures r.Some? ==> CategoryValueSum(r.value.categoryChartData) == r.value.totalProductsInStock
    ensures r.Some? ==> r.value.lowStockItems + r.value.outOfStockItems <= |store.products|
    ensures r.Some? ==> r.value.pendingReceipts + r.value.pendingDeliveries
                        + r.value.transfersScheduled + r.value.adjustmentsPending <= |store.documents|
    ensures r.Some? ==> r.value.locations == store.locations
  {
    var ps := store.products;
    var docs := store.documents;
    StockByMeaning(ps, LocationKey);
    StockByMeaning(ps, CategoryKey);
    StockKpisBounded(ps);
    PendingKpisBounded(docs);
    match LocationChart(StockBy(ps, LocationKey), store.locations)
    case None =>
      var k :| k in Keys(StockBy(ps, LocationKey)) && k !in store.locations;
      var i :| 0 <= i < |ps| && KeyOf(LocationKey, ps[i]) == k;
      None
    case Some(locationChart) =>
      if PercentDividesByZero(ps) then None
      else
      Some(Summary(
        TotalStock(ps),
        LowStockItems(ps),
        OutOfStockItems(ps),
        PendingReceipts(docs),
        PendingDeliveries(docs),
        TransfersScheduled(docs),
        AdjustmentsPending(docs),
        store.locations,
        locationChart,
        CategoryChart(StockBy(ps, CategoryKey))))
  }

  /** When the handler does not raise, the summary's KPI fields are the
      folds over the store. */
  lemma SummaryFields(store: Store)
    requires forall i :: 0 <= i < |store.products| ==> store.products[i].locationId in store.locations
    requires !PercentDividesByZero(store.products)
    ensures DashboardSummary(store).Some?
    ensures var s := DashboardSummary(store).value;
            && s.totalProductsInStock == TotalStock(store.products)
            && s.lowStockItems == LowStockItems(store.products)
            && s.outOfStockItems == OutOfStockItems(store.products)
            && s.pendingReceipts == PendingReceipts(store.documents)
            && s.pendingDeliveries == PendingDeliveries(store.documents)
            && s.transfersScheduled == TransfersScheduled(store.documents)
            && s.adjustmentsPending == AdjustmentsPending(store.documents)
            && s.locationChartData == LocationChart(StockBy(store.products, LocationKey), store.locations).value
            && s.categoryChartData == CategoryChart(StockBy(store.products, CategoryKey))
  {
  }

  /** Products whose shelves are all empty: the stock total is zero and
      every one of them is out of stock. */
  lemma {:induction false} EmptyShelves(ps: seq<Product>)
    requires forall i :: 0 <= i < |ps| ==> ps[i].stockLevel == 0
    ensures TotalStock(ps) == 0
    ensures OutOfStockItems(ps) == |ps|
  {
    if |ps| > 0 {
      EmptyShelves(ps[1..]);
    }
  }

  /** Without negative stock levels, a zero total means every product is out
      of stock, and conversely. */
  lemma {:induction false} ZeroTotalIsEmptyShelves(ps: seq<Product>)
    requires forall i :: 0 <= i < |ps| ==> ps[i].stockLevel >= 0
    ensures TotalStock(ps) >= 0
    ensures TotalStock(ps) == 0 <==> OutOfStockItems(ps) == |ps|
  {
    if |ps| > 0 {
      ZeroTotalIsEmptyShelves(ps[1..]);
      assert OutOfStockItems(ps[1..]) <= |ps[1..]| by {
        StockKpisBounded(ps[1..]);
      }
    }
  }

  /** A store whose products are all out of stock has no summary: the
      `percent` of the first category bucket divides by zero, however well
      the rest of the store is formed. */
  lemma AllOutOfStockFails(store: Store)
    requires |store.products| > 0
    requires forall i :: 0 <= i < |store.products| ==> store.products[i].stockLevel == 0
    ensures OutOfStockItems(store.products) == |store.products|
    ensures DashboardSummary(store).None?
  {
    EmptyShelves(store.products);
  }
}
