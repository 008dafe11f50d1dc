# IMS backend: a Dafny model of document filtering, dashboard KPIs and mock login

The inventory management backend (`ims_backend.py`, a small Flask service)
keeps products, inventory documents (receipts, deliveries, internal
transfers, adjustments) and warehouse locations in one JSON store. Around
its HTTP and file plumbing sit three pure computations, modelled here as
immutable datatypes and total functions over `seq` and `map`:

- **Document filter** (`filter_documents`): narrow the stored documents by
  document type, status, location (source *or* target) and category (any
  overlap), where an absent, non-list or empty filter value does not narrow;
  sort newest first by `created_at`; return the first 15 and the number of
  matches before the cut.
- **Dashboard summary** (`get_dashboard_summary`): total stock, low-stock
  (0 < level <= 20) and out-of-stock (level = 0) counts, four pending-document
  counts, and stock totals per location and per category.
- **Mock login** (`mock_login`) and the **`require_auth`** header guard.

Modules, one per concern:

| file | module | contents |
|---|---|---|
| `records.dfy` | `Records` | `Product`, `Document`, `Location`, `Store`; the default seed store |
| `text.dfy` | `Text` | Python `str.lower`, `in` on strings, and string `<=` with its order laws |
| `recency.dfy` | `Recency` | the stable newest-first sort and its characterization |
| `document_filter.dfy` | `DocumentFilter` | filter request values, the four-stage pipeline, the 15-document cut |
| `tally.dfy` | `Tally` | the `d[k] = d.get(k, 0) + v` fold into an insertion-ordered association list |
| `dashboard.dfy` | `Dashboard` | KPI folds, chart series, the summary |
| `auth.dfy` | `Auth` | the e-mail rule and the header presence test |
| `api.dfy` | `Api` | the two guarded endpoints as replies (401, 500, or a body) |
| `seed.dfy` | `Seed` | the default store worked through the summary and the filter |

Modelling decisions:

- A JSON object read through `.values()` becomes a `seq` in insertion order;
  `locations` stays a `map` because it is only looked up by key.
- A filter value is `Missing`, `NotAList` (null, string, number, object) or
  `ListOf(items)`, and each list item is `Str(s)`, `Null` or `OtherValue`.
  Only a non-empty list narrows. Python's `x in list` is equality-based, so a
  JSON `null` in the location list equals the `None` that
  `doc.get('source_location')` gives for a missing key. A document without a
  source or target location therefore passes a location filter that holds
  `null`. `DocumentFilter.NullLocationSelectsUnplaced` states this case;
  `DocumentFilter.UnplacedNeverMatches` states the rule for filters without
  `null`.
- `created_at` is compared as Python compares `str`: lexicographically by
  code point (`Text.AtMost`). Python's `list.sort(reverse=True)` is stable.
  The model is an insertion sort. It is proved newest first, a permutation
  and stable, and it is the only ordering with those properties.
- The summary handler raises in two cases, and the endpoint then answers a
  server error. First, `data['locations'][loc]['name']` raises `KeyError`
  for an unknown location id. Second, the pie chart's
  `count / total_stock` raises `ZeroDivisionError` when there are products
  and their stock adds up to 0. This happens, for example, when every
  product is out of stock. `Dashboard.DashboardSummary` returns `None` in
  these cases, without computing the float `percent` value itself. These are
  error paths, not preconditions. A third error, the `OverflowError` of a
  quotient too large for a float, is not modelled, and neither is the
  `KeyError` of a record that lacks a field (see "Left out").
- `str.lower()` is modelled for what can change the `"stockmaster" in …`
  test: it maps ASCII capitals, and it maps U+212A KELVIN SIGN to `k`, as
  Python does. Every other character is left unchanged, including the
  non-ASCII capitals Python would lower-case (see "Left out").
- Header names are matched without regard to ASCII letter case, as the web
  framework's header lookup does. Only the header's presence matters, never
  its value.
- The seed store comments "Cleaning Wipes" (stock 5) as an out-of-stock item.
  The code counts it as low stock. `Seed.SeedStockKpis` shows that the seed
  has two low-stock products and none out of stock.
- The code combines filters with AND across dimensions and OR within one list.

## Model

| member | source | states |
|---|---|---|
| `DocumentFilter.FilterDocuments` | ims_backend.py:170-205 | `count` is the number of admitted documents. At most 15 are returned (exactly min(count, 15)). Each returned document is stored and passes every narrowing filter. The result is a sub-multiset of the store and is ordered newest first. Every admitted document left out is no newer than any returned one. The returned list is the first min(count, 15) of the stable newest-first sort of the admitted documents. |
| `DocumentFilter.ReturnedTiesKeepStoredOrder` | ims_backend.py:203-205 | For every timestamp, the returned documents carrying it are a prefix of the admitted documents carrying it, in store order: ties keep their stored order through the sort and the cut. |
| `DocumentFilter.Matching` | ims_backend.py:176-201 | The four sequential narrowing stages. `DocumentFilter.MatchingIsAdmitted` equates them with the one-pass reference filter `Admitted`. |
| `DocumentFilter.MatchingIsAdmitted` | ims_backend.py:176-201 | The four sequential narrowing stages keep exactly the documents that pass all four dimensions (a one-pass reference filter), in their original order. |
| `DocumentFilter.AdmittedMembers` | ims_backend.py:181-201 | The matches are a sub-multiset of the store. A document is among them iff it is stored and passes every dimension. |
| `DocumentFilter.ReturnedMeetsFilters` | ims_backend.py:181-201 | A returned document satisfies each supplied non-empty filter: its type is listed, its status is listed, its source or target location is listed, and some category of it is listed. |
| `DocumentFilter.NoFiltersMatchAll` | ims_backend.py:176-201 | With no narrowing filter, every stored document matches and `count` is the number of stored documents. |
| `DocumentFilter.NonNarrowingIsIgnored` | ims_backend.py:182-199 | On each dimension, an empty list or a non-list value gives the same response as an absent key. |
| `DocumentFilter.UncategorisedNeverMatches` | ims_backend.py:198-201 | Under a non-empty category filter, a document with an empty or absent `category_list` is neither returned nor counted. |
| `DocumentFilter.UnplacedNeverMatches` | ims_backend.py:192-195 | Under a non-empty location filter without `null`, a document with neither source nor target location is neither returned nor counted. |
| `DocumentFilter.NullLocationSelectsUnplaced` | ims_backend.py:192-195 | A location filter `[null]` admits a document iff its source or its target location is missing. A stored document of that kind makes the count positive. |
| `DocumentFilter.RecentAdmitted` | ims_backend.py:203-205 | The first n of the sorted matches are admitted and stored, and are newest first. They are no older than any match outside them. |
| `Recency.SortNewestFirst` | ims_backend.py:203 | Sorting is a permutation: the multiset of documents is unchanged. |
| `Recency.SortIsNewestFirst` | ims_backend.py:203 | The sorted documents have non-increasing `created_at`. |
| `Recency.SortIsStable` | ims_backend.py:203 | For every timestamp, the documents carrying it keep their input order. |
| `Recency.SortCharacterized` | ims_backend.py:203 | Any newest-first ordering that keeps each timestamp's documents in input order is exactly the sort's result. |
| `Recency.InsertKeepsNewestFirst` | ims_backend.py:203 | Inserting a document into a newest-first sequence keeps it newest first. |
| `Text.AtMostIsLexLe` | ims_backend.py:203 | The timestamp comparison is the textbook lexicographic order: prefix, or smaller character at the first difference. |
| `Text.AtMostTotal` | ims_backend.py:203 | Any two timestamps are comparable. |
| `Text.AtMostTransitive` | ims_backend.py:203 | The timestamp order is transitive. |
| `Text.AtMostAntisymmetric` | ims_backend.py:203 | Two timestamps that are each at most the other are equal. |
| `Text.Contains` | ims_backend.py:95 | `needle in hay` holds iff the needle occurs at some index of the haystack. |
| `Text.Lower` | ims_backend.py:95 | Lower-casing keeps the length. At each index, an ASCII capital becomes its small letter (code point + 32), the Kelvin sign becomes `k`, and every other character is unchanged. |
| `Text.LowerIdempotent` | ims_backend.py:95 | Lower-cased text contains no ASCII capital and no Kelvin sign, so lower-casing it again changes nothing. |
| `Tally.TallyOfMeaning` | ims_backend.py:136-139 | The dictionary fold has one bucket per distinct key, for exactly the keys that occur. Each bucket holds the sum of its key's amounts, and the buckets sum to the total. The buckets are in order of their keys' first appearance among the entries, as a Python dict keeps insertion order. |
| `Tally.TallyOf` | ims_backend.py:136-139 | The fold from an empty dictionary. `Tally.TallyOfMeaning` states its keys, sums, total and order. |
| `Tally.Bump` | ims_backend.py:139 | Adding to a known key of a dictionary with distinct keys updates that bucket in place, adding the amount, and leaves every other bucket as it was. A new key opens a bucket at the end, after all the others. |
| `Dashboard.TotalStock` | ims_backend.py:123 | `sum(p['stock_level'] for p in products)`. `Dashboard.StockKpisAppend` states how one more product changes it, and `Dashboard.StockByMeaning` that the chart buckets sum to it. |
| `Dashboard.LowStockItems` | ims_backend.py:126 | The count of products with 0 < level <= 20. `Dashboard.StockKpisAppend` and `Dashboard.StockBandsPartition` characterize it. |
| `Dashboard.OutOfStockItems` | ims_backend.py:127 | The count of products at level 0. `Dashboard.StockKpisAppend` and `Dashboard.StockBandsPartition` characterize it. |
| `Dashboard.CountPending` | ims_backend.py:130-133 | The count of documents of one type with a listed status. `Dashboard.CountPendingAppend` characterizes it. |
| `Dashboard.PendingReceipts` | ims_backend.py:130 | Receipts in Waiting or Ready. `Dashboard.ClosedDocumentsUncounted`, `Dashboard.DraftsPendOnlyAsAdjustments` and `Dashboard.PendingKpisBounded` state its behaviour. |
| `Dashboard.PendingDeliveries` | ims_backend.py:131 | Deliveries in Waiting or Ready, characterized by the same lemmas. |
| `Dashboard.TransfersScheduled` | ims_backend.py:132 | Internal transfers in Waiting or Ready, characterized by the same lemmas. |
| `Dashboard.AdjustmentsPending` | ims_backend.py:133 | Adjustments in Draft, Waiting or Ready, characterized by the same lemmas. |
| `Dashboard.StockBy` | ims_backend.py:136-149 | The per-location or per-category fold of stock levels. `Dashboard.StockByMeaning` states its keys, sums and total. |
| `Dashboard.StockBandsPartition` | ims_backend.py:126-127 | Low-stock and out-of-stock counts are two of four disjoint stock bands (negative, zero, 1..20, above 20). Together the four bands count every product once. |
| `Dashboard.StockKpisBounded` | ims_backend.py:126-127 | `low_stock_items + out_of_stock_items` is at most the number of products. |
| `Dashboard.NegativeStockUncounted` | ims_backend.py:126-127 | A product with negative stock adds to neither the low-stock nor the out-of-stock count. |
| `Dashboard.StockKpisAppend` | ims_backend.py:123-127 | One more product raises the total by its level. It raises the low-stock count iff 0 < level <= 20, and the out-of-stock count iff level = 0. |
| `Dashboard.CountPendingAppend` | ims_backend.py:130-133 | A pending count rises by one for an added document exactly when the document has the counted type and a counted status. |
| `Dashboard.ClosedDocumentsUncounted` | ims_backend.py:130-133 | A Done or Canceled document changes none of the four pending counts. |
| `Dashboard.DraftsPendOnlyAsAdjustments` | ims_backend.py:130-133 | A Draft leaves receipts, deliveries and transfers unchanged. It raises `adjustments_pending` iff it is an Adjustment. |
| `Dashboard.PendingKpisBounded` | ims_backend.py:130-133 | The four pending counts together never exceed the number of documents. |
| `Dashboard.StockByMeaning` | ims_backend.py:136-149 | Per-location and per-category buckets have distinct keys, exactly the keys some product has. Each holds the stock of the products with its key, and they sum to `total_products_in_stock`. |
| `Dashboard.LocationChart` | ims_backend.py:141-142 | The chart exists iff every bucket's location id is known. It then has one point per bucket, with that location's name and stock, and the points sum to the bucket total. |
| `Dashboard.CategoryChart` | ims_backend.py:151-152 | One point per category bucket, named by the category, with values summing to the bucket total. |
| `Dashboard.DashboardSummary` | ims_backend.py:116-166 | Fails iff some product's location id is unknown (the `KeyError` at line 141), or there are products whose stock sums to 0 (the division at line 151). On success, both chart series sum to the total stock. The stock KPIs are bounded by the number of products, the pending KPIs by the number of documents, and `locations` is passed through. |
| `Dashboard.AllOutOfStockFails` | ims_backend.py:127-152 | When there are products and all are at stock 0, every product is out of stock and the summary does not exist, because the percent division has a zero divisor. |
| `Dashboard.EmptyShelves` | ims_backend.py:123-127 | Products all at stock 0 have total stock 0, and all of them count as out of stock. |
| `Dashboard.SummaryFields` | ims_backend.py:155-166 | When all locations are known and the stock total is nonzero (or there are no products), the summary exists, each KPI field of the summary is the corresponding fold over the store, and each chart is built from its buckets. |
| `Auth.HasAuthHeader` | ims_backend.py:83 | Presence of a `User-Id` header, in any letter case and with any value. `Api.AnyHeaderValueAdmits`, `Api.HeaderSpellings` and `Api.MissingHeaderRefused` state its effect. |
| `Auth.MockLogin` | ims_backend.py:90-104 | Login always succeeds. The user id is `SM001` iff the e-mail holds "stockmaster" in any letter case, otherwise `WH002`. Role and profile name follow from the id, and the message names the role. |
| `Auth.MarkerInLowered` | ims_backend.py:95 | Searching the lower-cased e-mail for "stockmaster" is the same as a case-insensitive match at some index. |
| `Auth.LoginIgnoresCase` | ims_backend.py:95 | E-mails equal after lower-casing log in identically. |
| `Auth.IdentityFollowsUserId` | ims_backend.py:96-103 | Logins with the same user id have the same role, profile name and reply. |
| `Auth.WithoutKNoMarker` | ims_backend.py:95 | An e-mail with no character that lower-cases to `k` never selects the stock master. |
| `Auth.MarkerSelectsStockMaster` | ims_backend.py:95-103 | A case-insensitive occurrence of "stockmaster" at any index gives user id `SM001`, with role and profile name "StockMaster". |
| `Auth.MixedCaseExample` | ims_backend.py:95-96 | `Admin@StockMaster.io` logs in as `SM001`. |
| `Auth.CapitalsExample` | ims_backend.py:95-103 | `STOCKMASTER` gets the profile name "StockMaster". |
| `Auth.KelvinSignExample` | ims_backend.py:95-97 | `stoc` + U+212A + `master` gets the role "StockMaster", because Python lower-cases the Kelvin sign to `k`. |
| `Auth.StaffExamples` | ims_backend.py:95-100 | `warehouse@example.com` logs in as `WH002`, and the empty e-mail gets the role "WarehouseStaff". |
| `Api.RequireAuth` | ims_backend.py:79-87 | Without a `User-Id` header the reply is 401 with the fixed message. With it, the handler's reply is passed through. |
| `Api.SummaryEndpoint` | ims_backend.py:114-116 | Rejected iff the header is missing. A server error iff the header is present and the handler raises: a location is unknown, or there are products whose stock sums to 0. Otherwise the body is the summary. |
| `Api.FilterEndpoint` | ims_backend.py:168-170 | Answered iff the header is present, with the filter result as body. Otherwise a 401. |
| `Api.MissingHeaderRefused` | ims_backend.py:83-84 | A request without the header gets the same 401 whatever the store and filters: the handler's result never shows. |
| `Api.AnyHeaderValueAdmits` | ims_backend.py:83 | For every header name equal to `User-Id` after lower-casing, and any value, both endpoints let the request through. The filter answers with its result, and the summary answers with its body whenever the summary exists. |
| `Api.HeaderSpellings` | ims_backend.py:83 | `user-id` with a value, and `USER-ID` with an empty value, both reach the filter handler. |
| `Api.SummaryServerErrors` | ims_backend.py:123-152 | With the header present and no negative stock level, the summary errors iff some product names an unknown location id, or there are products and every one of them is out of stock: without negative stock, a zero total means empty shelves. |
| `Api.AllOutOfStockIsServerError` | ims_backend.py:151-152 | With the header present, a store whose products are all at stock 0 gets a server error, not a dashboard. |
| `Records.DefaultStore` | ims_backend.py:36-65 | The default store written on first start. `Seed.SeedStockKpis`, `Seed.SeedPendingKpis`, `Seed.SeedLocationTotals` and `Seed.SeedReceiptsAndDeliveries` state its figures. |
| `Seed.SeedStockKpis` | ims_backend.py:38-42 | The seed products total 1170 units, with 2 low-stock and 0 out-of-stock items. |
| `Seed.SeedPendingKpis` | ims_backend.py:45-59 | Seed documents give 1 pending receipt, 1 pending delivery, 0 scheduled transfers and 0 pending adjustments. |
| `Seed.SeedSummary` | ims_backend.py:36-66 | The seed's summary exists and carries the KPI values above. |
| `Seed.SeedLocationTotals` | ims_backend.py:136-139 | Seed stock per location, in first-appearance order: W001 1125, W002 45. |
| `Seed.SeedLocationChart` | ims_backend.py:141-142 | The seed's bar chart is Main Warehouse 1125, then Overflow Storage 45. |
| `Seed.SeedReceiptsAndDeliveries` | ims_backend.py:181-184 | Filtering the seed by type Receipt or Delivery counts two documents. |

## Left out

- Flask routing, CORS, `request`/`jsonify`, `serve_index`/`send_file` and `app.run`: web-framework plumbing. The guarded endpoints are modelled as functions from headers, store and filters to a reply.
- `load_data`/`save_data` and the corrupted-file fallback: file I/O. The store is an in-memory value. The default data written on first start is `Records.DefaultStore`.
- `generate_id` and `datetime.now()`: non-deterministic foreign calls. The seed's four `created_at` values are parameters.
- The value of the `percent` field of `category_chart_data`: a rounded float. Its division by a zero total is modelled as an error path.
- `get_products`: a pass-through of the product map.
- Request bodies that are not JSON objects, or an `email` that is not a string: the handler raises. The model takes the body as an object with string fields.
- A stored `category_list` that is not a list: the model's documents always hold a list of strings, and an absent key reads as empty. In the backend the value is read only under a narrowing category filter. A null, number or bool value then raises. A string is iterated character by character, so a one-character category filter can match it. An object is iterated over its keys. None of these cases is modelled.
- Non-integer stock levels and non-string document fields: the model uses `int` and `string`.
- Records missing a key that the backend reads with `[]` are not modelled. The model's records always carry these fields. In the backend, such a record makes the handler raise `KeyError`, and the endpoint answers a server error. The keys are:
  - `created_at`, read for every matched document by the filter's sort;
  - `type` and `status`, read by the filter under a narrowing type or status filter, and by the pending counts;
  - `stock_level`, `location_id` and `category` of a product, read by the summary;
  - a location's `name`, read by the bar chart.
- Api.FilterEndpoint: its "answered iff the header is present" holds for stores whose records carry every indexed key. A matched document without `created_at` gives a server error in the backend.
- Text.Lower: Python's `str.lower` also maps non-ASCII capitals other than U+212A and U+0130 (for example `É`, `Ω`). The model leaves them unchanged. Each of them lowers to a non-ASCII letter, which is not in "stockmaster" and not in `user-id`. So neither the login test nor the header test changes.
- Python lower-cases U+0130 to two characters. The model keeps it as one character. Neither of the two characters occurs in "stockmaster", so the login test is unaffected. A header name holding U+0130 lowers in Python to a string with a combining dot, so it never equals `user-id`; in the model it does not either.
- WSGI normalization of header names beyond letter case (`-` versus `_`) is not modelled.
- The browser client (navigation, filter toggling, notifications, charts) is a separate program. It is not part of this model.
- Dashboard.DashboardSummary: its contract states the error condition and the invariants linking the fields. The field-by-field values are stated by `Dashboard.SummaryFields` instead.
- Dashboard.DashboardSummary: `count / total_stock` also raises `OverflowError` when the quotient exceeds the largest float (about 1.8e308). This needs negative stock levels, so that the total is tiny against one category's count. Such a store makes the endpoint answer a server error, but the model returns a summary.
- Dashboard.SummaryFields: the summary it promises for a nonzero stock total does not exist in the backend in the float-overflow case above.
- Api.SummaryEndpoint: the float-overflow case above is a server error in the backend and a body in the model.
- Api.SummaryServerErrors: the float-overflow case above needs negative stock, which the lemma's premise excludes. Like the other summary members, it assumes records carry every indexed key.
- Dashboard.DashboardSummary: its error condition assumes records carry every indexed key (see the missing-key line above).
- Api.SummaryEndpoint: its error condition assumes records carry every indexed key (see the missing-key line above).
