/**
 The default store the backend writes on first start, worked through the
 summary and the document filter.
 */
module Seed {
  import opened Records
  import opened Tally
  import opened Dashboard
  import opened DocumentFilter

  const SeedProducts: seq<Product> := DefaultStore("", "", "", "").products

  /** The seed's stock KPIs. The seed marks "Cleaning Wipes" (stock 5) as an
      out-of-stock item, but a stock of 5 counts as low stock: the seed has
      no out-of-stock product. */
  lemma SeedStockKpis()
    ensures TotalStock(SeedProducts) == 1170
    ensures LowStockItems(SeedProducts) == 2
    ensures OutOfStockItems(SeedProducts) == 0
  {
    var ps := SeedProducts;
    StockKpisAppend([], ps[0]);
    assert [] + [ps[0]] == ps[..1];
    StockKpisAppend(ps[..1], ps[1]);
    assert ps[..1] + [ps[1]] == ps[..2];
    StockKpisAppend(ps[..2], ps[2]);
    assert ps[..2] + [ps[2]] == ps[..3];
    StockKpisAppend(ps[..3], ps[3]);
    assert ps[..3] + [ps[3]] == ps[..4];
    StockKpisAppend(ps[..4], ps[4]);
    assert ps[..4] + [ps[4]] == ps;
  }

  /** The four pending KPIs after appending one document. */
  lemma PendingOf(docs: seq<Document>, d: Document)
    ensures PendingReceipts(docs + [d])
            == PendingReceipts(docs) + (if d.docType == "Receipt" && d.status in OpenStatuses then 1 else 0)
    ensures PendingDeliveries(docs + [d])
            == PendingDeliveries(docs) + (if d.docType == "Delivery" && d.status in OpenStatuses then 1 else 0)
    ensures TransfersScheduled(docs + [d])
            == TransfersScheduled(docs) + (if d.docType == "Internal" && d.status in OpenStatuses then 1 else 0)
    ensures AdjustmentsPending(docs + [d])
            == AdjustmentsPending(docs) + (if d.docType == "Adjustment" && d.status in AdjustmentOpenStatuses then 1 else 0)
  {
    CountPendingAppend(docs, d, "Receipt", OpenStatuses);
    CountPendingAppend(docs, d, "Delivery", OpenStatuses);
    CountPendingAppend(docs, d, "Internal", OpenStatuses);
    CountPendingAppend(docs, d, "Adjustment", AdjustmentOpenStatuses);
  }

  /** The seed's pending KPIs: the ready delivery and the waiting receipt
      are pending, the draft transfer and the finished adjustment are not. */
  lemma SeedPendingKpis(t1: string, t2: string, t3: string, t4: string)
    ensures var docs := DefaultStore(t1, t2, t3, t4).documents;
            && PendingReceipts(docs) == 1
            && PendingDeliveries(docs) == 1
            && TransfersScheduled(docs) == 0
            && AdjustmentsPending(docs) == 0
  {
    var docs := DefaultStore(t1, t2, t3, t4).documents;
    PendingOf([], docs[0]);
    assert [] + [docs[0]] == docs[..1];
    PendingOf(docs[..1], docs[1]);
    assert docs[..1] + [docs[1]] == docs[..2];
    PendingOf(docs[..2], docs[2]);
    assert docs[..2] + [docs[2]] == docs[..3];
    PendingOf(docs[..3], docs[3]);
    assert docs[..3] + [docs[3]] == docs;
  }

  /** The seed's summary. */
  lemma SeedSummary(t1: string, t2: string, t3: string, t4: string)
    ensures DashboardSummary(DefaultStore(t1, t2, t3, t4)).Some?
    ensures var s := DashboardSummary(DefaultStore(t1, t2, t3, t4)).value;
            && s.totalProductsInStock == 1170
            && s.lowStockItems == 2
            && s.outOfStockItems == 0
            && s.pendingReceipts == 1
            && s.pendingDeliveries == 1
            && s.transfersScheduled == 0
            && s.adjustmentsPending == 0
  {
    var store := DefaultStore(t1, t2, t3, t4);
    assert store.products == SeedProducts;
    assert forall i :: 0 <= i < |store.products| ==> store.products[i].locationId in store.locations;
    SeedStockKpis();
    SummaryFields(store);
    SeedPendingKpis(t1, t2, t3, t4);
  }

  /** The seed products' (location, stock) entries, in product order. */
  const SeedLocationEntries: seq<Entry> :=
    [Entry("W001", 120), Entry("W002", 35), Entry("W001", 1000), Entry("W002", 10), Entry("W001", 5)]

  lemma SeedEntries()
    ensures StockEntries(SeedProducts, LocationKey) == SeedLocationEntries
  {
  }

  /** The first two fold steps over the seed entries open one bucket each. */
  lemma SeedBumpsOpen()
    ensures Bump([], Entry("W001", 120)) == [Entry("W001", 120)]
    ensures Bump([Entry("W001", 120)], Entry("W002", 35)) == [Entry("W001", 120), Entry("W002", 35)]
  {
  }

  /** The last three fold steps over the seed entries add to an open bucket. */
  lemma SeedBumpsAdd()
    ensures Bump([Entry("W001", 120), Entry("W002", 35)], Entry("W001", 1000))
            == [Entry("W001", 1120), Entry("W002", 35)]
    ensures Bump([Entry("W001", 1120), Entry("W002", 35)], Entry("W002", 10))
            == [Entry("W001", 1120), Entry("W002", 45)]
    ensures Bump([Entry("W001", 1120), Entry("W002", 45)], Entry("W001", 5))
            == [Entry("W001", 1125), Entry("W002", 45)]
  {
  }

  /** Folding the seed entries one at a time. */
  lemma SeedFold()
    ensures TallyOf(SeedLocationEntries) == [Entry("W001", 1125), Entry("W002", 45)]
  {
    var e := SeedLocationEntries;
    var b1 := [Entry("W001", 120)];
    var b2 := [Entry("W001", 120), Entry("W002", 35)];
    var b3 := [Entry("W001", 1120), Entry("W002", 35)];
    var b4 := [Entry("W001", 1120), Entry("W002", 45)];
    var b5 := [Entry("W001", 1125), Entry("W002", 45)];
    SeedBumpsOpen();
    SeedBumpsAdd();
    assert TallyInto(b5, e[5..]) == b5;
    assert TallyInto(b4, e[4..]) == b5;
    assert TallyInto(b3, e[3..]) == b5;
    assert TallyInto(b2, e[2..]) == b5;
    assert TallyInto(b1, e[1..]) == b5;
  }

  /** Stock per warehouse in the seed, in order of first appearance: the
      main warehouse W001 holds 1125, overflow storage W002 holds 45. */
  lemma SeedLocationTotals()
    ensures StockBy(SeedProducts, LocationKey) == [Entry("W001", 1125), Entry("W002", 45)]
  {
    SeedEntries();
    SeedFold();
  }

  const SeedLocations: map<string, Location> := DefaultStore("", "", "", "").locations

  lemma SeedChartPoints()
    ensures LocationChart([Entry("W001", 1125), Entry("W002", 45)], SeedLocations)
            == Some([LocationPoint("Main Warehouse", 1125), LocationPoint("Overflow Storage", 45)])
  {
    var buckets := [Entry("W001", 1125), Entry("W002", 45)];
    assert buckets[1..] == [Entry("W002", 45)];
    assert "W001" in SeedLocations && SeedLocations["W001"].name == "Main Warehouse";
    assert "W002" in SeedLocations && SeedLocations["W002"].name == "Overflow Storage";
    assert Keys(buckets) == {"W001", "W002"} by {
      KeysOfCons(buckets[0], buckets[1..]);
      KeysOfCons(buckets[1], []);
      assert buckets == [buckets[0]] + ([buckets[1]] + []);
    }
    var r := LocationChart(buckets, SeedLocations);
    assert r.Some?;
    assert |r.value| == 2;
    assert r.value[0] == LocationPoint("Main Warehouse", 1125);
    assert r.value[1] == LocationPoint("Overflow Storage", 45);
    assert r.value == [LocationPoint("Main Warehouse", 1125), LocationPoint("Overflow Storage", 45)];
  }

  /** The seed's bar chart. */
  lemma SeedLocationChart(t1: string, t2: string, t3: string, t4: string)
    ensures DashboardSummary(DefaultStore(t1, t2, t3, t4)).Some?
    ensures DashboardSummary(DefaultStore(t1, t2, t3, t4)).value.locationChartData
            == [LocationPoint("Main Warehouse", 1125), LocationPoint("Overflow Storage", 45)]
  {
    var store := DefaultStore(t1, t2, t3, t4);
    assert store.products == SeedProducts && store.locations == SeedLocations;
    assert forall i :: 0 <= i < |store.products| ==> store.products[i].locationId in store.locations;
    SeedStockKpis();
    SummaryFields(store);
    SeedLocationTotals();
    SeedChartPoints();
  }

  /** Asking the seed for receipts and deliveries matches the delivery D001
      and the receipt R002. */
  lemma SeedReceiptsAndDeliveries(t1: string, t2: string, t3: string, t4: string)
    ensures var f := NoFilters.(documentType := ListOf([Str("Receipt"), Str("Delivery")]));
            FilterDocuments(DefaultStore(t1, t2, t3, t4).documents, f).count == 2
  {
    var docs := DefaultStore(t1, t2, t3, t4).documents;
    var f := NoFilters.(documentType := ListOf([Str("Receipt"), Str("Delivery")]));
    assert Admits(f, docs[0]) && Admits(f, docs[1]);
    assert !Admits(f, docs[2]) && !Admits(f, docs[3]);
    assert Admitted(docs[4..], f) == [];
    assert Admitted(docs[3..], f) == [];
    assert Admitted(docs[2..], f) == [];
    assert Admitted(docs[1..], f) == [docs[1]];
    assert Admitted(docs, f) == [docs[0], docs[1]];
  }
}
