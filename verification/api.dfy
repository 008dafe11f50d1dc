/**
 The two guarded endpoints as replies to a request: the dashboard summary
 and the document filter, both behind `require_auth`. The login endpoint is
 not guarded and is `Auth.MockLogin` itself.
 Routing, JSON encoding and the store file are outside the model; the store
 is passed in as a value.
 */
module Api {
  import opened Text
  import opened Records
  import opened Auth
  import opened Dashboard
  import opened DocumentFilter

  /** What an endpoint answers: the 401 of `require_auth`, a 500 from an
      exception inside the handler, or a JSON body. */
  datatype Reply<T> =
    | Rejected(status: nat, success: bool, message: string)
    | ServerError
    | Ok(body: T)

  /** `require_auth`: without the `User-Id` header the handler's reply is
      replaced by a 401; with it, the handler's reply goes out unchanged. */
  function RequireAuth<T>(headers: seq<Header>, handled: Reply<T>): (r: Reply<T>)
    ensures !HasAuthHeader(headers) ==>
              r == Rejected(UnauthorizedStatus, false, MissingHeaderMessage)
    ensures HasAuthHeader(headers) ==> r == handled
  {
    if HasAuthHeader(headers) then handled
    else Rejected(UnauthorizedStatus, false, MissingHeaderMessage)
  }

  /** `GET /api/dashboard/summary`. */
  function SummaryEndpoint(headers: seq<Header>, store: Store): (r: Reply<Summary>)
    ensures r.Rejected? <==> !HasAuthHeader(headers)
    ensures r.ServerError? <==> HasAuthHeader(headers)
                                && (UnknownLocation(store) || PercentDividesByZero(store.products))
    ensures r.Ok? ==> Some(r.body) == DashboardSummary(store)
  {
    RequireAuth(headers,
      match DashboardSummary(store)
      case None => ServerError
      case Some(s) => Ok(s))
  }

  /** `POST /api/documents/filter`. */
  function FilterEndpoint(headers: seq<Header>, store: Store, f: Filters): (r: Reply<FilterResult>)
    ensures r.Ok? <==> HasAuthHeader(headers)
    ensures r.Ok? ==> r.body == FilterDocuments(store.documents, f)
    ensures !r.Ok? ==> r.Rejected? && r.status == UnauthorizedStatus
  {
    RequireAuth(headers, Ok(FilterDocuments(store.documents, f)))
  }

  /** A request without the header is refused the same way whatever the
      store and the filters hold: the handler's work never shows. */
  lemma MissingHeaderRefused(headers: seq<Header>, s1: Store, s2: Store, f1: Filters, f2: Filters)
    requires !HasAuthHeader(headers)
    ensures SummaryEndpoint(headers, s1) == SummaryEndpoint(headers, s2)
    ensures FilterEndpoint(headers, s1, f1) == FilterEndpoint(headers, s2, f2)
    ensures SummaryEndpoint(headers, s1).Rejected? && SummaryEndpoint(headers, s1).status == 401
    ensures FilterEndpoint(headers, s1, f1).Rejected? && FilterEndpoint(headers, s1, f1).status == 401
  {
  }

  /** The header's value is never inspected, and its name may be written in
      any letter case: any name that lower-cases to "user-id" lets both
      endpoints through. */
  lemma AnyHeaderValueAdmits(store: Store, f: Filters, name: string, value: string)
    requires Lower(name) == Lower(AuthHeader)
    ensures FilterEndpoint([Header(name, value)], store, f) == Ok(FilterDocuments(store.documents, f))
    ensures !SummaryEndpoint([Header(name, value)], store).Rejected?
    ensures DashboardSummary(store).Some? ==>
              SummaryEndpoint([Header(name, value)], store) == Ok(DashboardSummary(store).value)
  {
    assert SameHeaderName([Header(name, value)][0].name, AuthHeader);
  }

  /** Two spellings of the header name, one with an empty value. */
  lemma HeaderSpellings(store: Store, f: Filters)
    ensures FilterEndpoint([Header("user-id", "SM001")], store, f) == Ok(FilterDocuments(store.documents, f))
    ensures FilterEndpoint([Header("USER-ID", "")], store, f) == Ok(FilterDocuments(store.documents, f))
  {
    assert SameHeaderName([Header("user-id", "SM001")][0].name, AuthHeader);
    assert SameHeaderName([Header("USER-ID", "")][0].name, AuthHeader);
    AnyHeaderValueAdmits(store, f, "user-id", "SM001");
    AnyHeaderValueAdmits(store, f, "USER-ID", "");
  }

  /** With the header present and no negative stock level, the summary fails
      exactly when a product names an unknown location or every product is
      out of stock: a zero total then means empty shelves. */
  lemma SummaryServerErrors(headers: seq<Header>, store: Store)
    requires HasAuthHeader(headers)
    ensures (forall i :: 0 <= i < |store.products| ==> store.products[i].stockLevel >= 0) ==>
              (SummaryEndpoint(headers, store).ServerError?
               <==> || (exists i :: 0 <= i < |store.products| && store.products[i].locationId !in store.locations)
                    || (|store.products| > 0 && OutOfStockItems(store.products) == |store.products|))
  {
    if forall i :: 0 <= i < |store.products| ==> store.products[i].stockLevel >= 0 {
      ZeroTotalIsEmptyShelves(store.products);
    }
  }

  /** A warehouse whose products are all out of stock gets a 500 instead of
      a dashboard. */
  lemma AllOutOfStockIsServerError(headers: seq<Header>, store: Store)
    requires HasAuthHeader(headers)
    requires |store.products| > 0
    requires forall i :: 0 <= i < |store.products| ==> store.products[i].stockLevel == 0
    ensures SummaryEndpoint(headers, store) == ServerError
  {
    AllOutOfStockFails(store);
  }
}
