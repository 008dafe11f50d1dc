/**
 The `/api/documents/filter` computation: narrow the stored documents by
 document type, status, location and category, sort the survivors newest
 first, and return the first fifteen together with the number of matches.
 */
module DocumentFilter {
  import opened Records
  import opened Text
  import opened Recency

  /** A JSON value inside a filter list. Only a string or null can ever equal
      a document field; every other JSON value is `OtherValue`. */
  datatype Item = Str(text: string) | Null | OtherValue

  /** What the request body holds under one filter key: nothing, some value
      that is not a list (null, a string, a number, an object), or a list. */
  datatype Selection = Missing | NotAList | ListOf(items: seq<Item>)

  datatype Filters = Filters(
    documentType: Selection,
    status: Selection,
    location: Selection,
    category: Selection)

  const NoFilters: Filters := Filters(Missing, Missing, Missing, Missing)

  /** Only this many of the newest matches are returned. */
  const RecentLimit: nat := 15

  datatype Dimension = ByType | ByStatus | ByLocation | ByCategory

  datatype FilterResult = FilterResult(count: nat, documents: seq<Document>)

  /** A selection narrows only when it is a non-empty list. */
  predicate Narrows(s: Selection) {
    s.ListOf? && |s.items| > 0
  }

  /** The JSON value `doc.get(key)` yields for an optional location. */
  function FieldItem(o: Option<string>): Item {
    match o
    case None => Null
    case Some(s) => Str(s)
  }

  /** Whether `d` passes a narrowing list on one dimension: its type or status
      is listed, its source or its target location is listed, or one of its
      categories is listed. */
  predicate Matches(dim: Dimension, items: seq<Item>, d: Document) {
    match dim
    case ByType => Str(d.docType) in items
    case ByStatus => Str(d.status) in items
    case ByLocation => FieldItem(d.sourceLocation) in items || FieldItem(d.targetLocation) in items
    case ByCategory => exists i :: 0 <= i < |d.categoryList| && Str(d.categoryList[i]) in items
  }

  /** The list comprehension `[doc for doc in docs if <match>]`. */
  function Keep(docs: seq<Document>, dim: Dimension, items: seq<Item>): (r: seq<Document>)
    ensures |r| <= |docs|
  {
    if |docs| == 0 then []
    else (if Matches(dim, items, docs[0]) then [docs[0]] else []) + Keep(docs[1..], dim, items)
  }

  /** One filtering stage: a non-narrowing selection leaves `docs` alone. */
  function Narrow(docs: seq<Document>, dim: Dimension, sel: Selection): seq<Document> {
    if Narrows(sel) then Keep(docs, dim, sel.items) else docs
  }

  /** The four stages, in the backend's order. */
  function Matching(docs: seq<Document>, f: Filters): seq<Document> {
    var byType := Narrow(docs, ByType, f.documentType);
    var byStatus := Narrow(byType, ByStatus, f.status);
    var byLocation := Narrow(byStatus, ByLocation, f.location);
    Narrow(byLocation, ByCategory, f.category)
  }

  /** `d` passes selection `sel` on dimension `dim`. */
  predicate Passes(sel: Selection, dim: Dimension, d: Document) {
    Narrows(sel) ==> Matches(dim, sel.items, d)
  }

  /** `d` passes every dimension of `f`. */
  predicate Admits(f: Filters, d: Document) {
    && Passes(f.documentType, ByType, d)
    && Passes(f.status, ByStatus, d)
    && Passes(f.location, ByLocation, d)
    && Passes(f.category, ByCategory, d)
  }

  /** Reference definition: one pass keeping the documents `f` admits. */
  function Admitted(docs: seq<Document>, f: Filters): seq<Document> {
    if |docs| == 0 then []
    else (if Admits(f, docs[0]) then [docs[0]] else []) + Admitted(docs[1..], f)
  }

  lemma {:induction false} KeepSplits(a: seq<Document>, b: seq<Document>, dim: Dimension, items: seq<Item>)
    ensures Keep(a + b, dim, items) == Keep(a, dim, items) + Keep(b, dim, items)
  {
    if |a| > 0 {
      assert (a + b)[1..] == a[1..] + b;
      KeepSplits(a[1..], b, dim, items);
    } else {
      assert a + b == b;
    }
  }

  lemma NarrowSplits(a: seq<Document>, b: seq<Document>, dim: Dimension, sel: Selection)
    ensures Narrow(a + b, dim, sel) == Narrow(a, dim, sel) + Narrow(b, dim, sel)
  {
    if Narrows(sel) {
      KeepSplits(a, b, dim, sel.items);
    }
  }

  /** The pipeline distributes over concatenation. */
  lemma MatchingSplits(a: seq<Document>, b: seq<Document>, f: Filters)
    ensures Matching(a + b, f) == Matching(a, f) + Matching(b, f)
  {
    var t1 := Narrow(a, ByType, f.documentType);
    var t2 := Narrow(b, ByType, f.documentType);
    NarrowSplits(a, b, ByType, f.documentType);
    var s1 := Narrow(t1, ByStatus, f.status);
    var s2 := Narrow(t2, ByStatus, f.status);
    NarrowSplits(t1, t2, ByStatus, f.status);
    var l1 := Narrow(s1, ByLocation, f.location);
    var l2 := Narrow(s2, ByLocation, f.location);
    NarrowSplits(s1, s2, ByLocation, f.location);
    NarrowSplits(l1, l2, ByCategory, f.category);
  }

  /** On one document the pipeline keeps it exactly when `f` admits it. */
  lemma MatchingOne(d: Document, f: Filters)
    ensures Matching([d], f) == if Admits(f, d) then [d] else []
  {
  }

  /** The four-stage pipeline keeps exactly the admitted documents, in order. */
  lemma {:induction false} MatchingIsAdmitted(docs: seq<Document>, f: Filters)
    ensures Matching(docs, f) == Admitted(docs, f)
  {
    if |docs| > 0 {
      assert docs == [docs[0]] + docs[1..];
      MatchingSplits([docs[0]], docs[1..], f);
      MatchingOne(docs[0], f);
      MatchingIsAdmitted(docs[1..], f);
    }
  }

  lemma {:induction false} AdmittedCounts(docs: seq<Document>, f: Filters)
    ensures forall d :: multiset(Admitted(docs, f))[d] == if Admits(f, d) then multiset(docs)[d] else 0
  {
    if |docs| > 0 {
      AdmittedCounts(docs[1..], f);
      assert docs == [docs[0]] + docs[1..];
    }
  }

  /** Membership in the reference result: stored and admitted. */
  lemma AdmittedMembers(docs: seq<Document>, f: Filters)
    ensures multiset(Admitted(docs, f)) <= multiset(docs)
    ensures forall d :: d in Admitted(docs, f) <==> d in docs && Admits(f, d)
  {
    AdmittedCounts(docs, f);
    forall d
      ensures d in Admitted(docs, f) <==> d in docs && Admits(f, d)
    {
      assert d in Admitted(docs, f) <==> d in multiset(Admitted(docs, f));
    }
  }

  /** Cutting a newest-first sequence after `n` keeps the `n` newest. */
  lemma {:induction false} CutKeepsNewest(s: seq<Document>, n: nat)
    requires NewestFirst(s) && n <= |s|
    ensures NewestFirst(s[..n])
    ensures multiset(s[..n]) <= multiset(s)
    ensures forall d :: d in s && d !in s[..n] ==>
              forall i :: 0 <= i < n ==> AtMost(d.createdAt, s[i].createdAt)
  {
    assert s == s[..n] + s[n..];
    forall d | d in s && d !in s[..n]
      ensures forall i :: 0 <= i < n ==> AtMost(d.createdAt, s[i].createdAt)
    {
      var k :| 0 <= k < |s| && s[k] == d;
      assert k >= n;
    }
  }

  /** The `n` newest admitted documents are admitted, stored, ordered newest
      first and at least as new as every admitted document left out. */
  lemma RecentAdmitted(all: seq<Document>, f: Filters, n: nat)
    requires n <= |Admitted(all, f)|
    ensures forall d :: d in SortNewestFirst(Admitted(all, f))[..n] ==> d in all && Admits(f, d)
    ensures multiset(SortNewestFirst(Admitted(all, f))[..n]) <= multiset(all)
    ensures NewestFirst(SortNewestFirst(Admitted(all, f))[..n])
    ensures forall d :: d in all && Admits(f, d) && d !in SortNewestFirst(Admitted(all, f))[..n] ==>
              forall i :: 0 <= i < n ==> AtMost(d.createdAt, SortNewestFirst(Admitted(all, f))[i].createdAt)
  {
    var admitted := Admitted(all, f);
    var sorted := SortNewestFirst(admitted);
    AdmittedMembers(all, f);
    SortIsNewestFirst(admitted);
    CutKeepsNewest(sorted, n);
    forall d
      ensures d in sorted <==> d in admitted
    {
      assert d in sorted <==> d in multiset(sorted);
      assert d in admitted <==> d in multiset(admitted);
    }
  }

  /** `filter_documents`: the matching documents, newest first, cut to the
      fifteen newest, with the number of matches before the cut. */
  function FilterDocuments(all: seq<Document>, f: Filters): (r: FilterResult)
    ensures r.count == |Admitted(all, f)|
    ensures |r.documents| == if r.count < RecentLimit then r.count else RecentLimit
    ensures forall d :: d in r.documents ==> d in all && Admits(f, d)
    ensures multiset(r.documents) <= multiset(all)
    ensures NewestFirst(r.documents)
    ensures forall d :: d in all && Admits(f, d) && d !in r.documents ==>
              forall i :: 0 <= i < |r.documents| ==> AtMost(d.createdAt, r.documents[i].createdAt)
    ensures r.documents == SortNewestFirst(Admitted(all, f))[..|r.documents|]
  {
    var matched := Matching(all, f);
    var sorted := SortNewestFirst(matched);
    var n := if |sorted| < RecentLimit then |sorted| else RecentLimit;
    MatchingIsAdmitted(all, f);
    assert |sorted| == |multiset(sorted)| == |multiset(matched)| == |matched|;
    RecentAdmitted(all, f, n);
    FilterResult(|matched|, sorted[..n])
  }

  /** Documents stamped alike come back in the order they are stored: for
      every timestamp, the returned documents carrying it are the first of
      the admitted documents carrying it. */
  lemma ReturnedTiesKeepStoredOrder(all: seq<Document>, f: Filters, t: string)
    ensures StampedAt(FilterDocuments(all, f).documents, t) <= StampedAt(Admitted(all, f), t)
  {
    var sorted := SortNewestFirst(Admitted(all, f));
    var r := FilterDocuments(all, f).documents;
    assert |sorted| == |multiset(sorted)| == |multiset(Admitted(all, f))| == |Admitted(all, f)|;
    assert r == sorted[..|r|];
    StampedAtCut(sorted, |r|, t);
    SortIsStable(Admitted(all, f), t);
  }

  /** Every returned document meets every narrowing filter, dimension by
      dimension. */
  lemma ReturnedMeetsFilters(all: seq<Document>, f: Filters, d: Document)
    ensures d in FilterDocuments(all, f).documents ==>
              && d in all
              && (Narrows(f.documentType) ==> Str(d.docType) in f.documentType.items)
              && (Narrows(f.status) ==> Str(d.status) in f.status.items)
              && (Narrows(f.location) ==>
                    FieldItem(d.sourceLocation) in f.location.items || FieldItem(d.targetLocation) in f.location.items)
              && (Narrows(f.category) ==>
                    exists i :: 0 <= i < |d.categoryList| && Str(d.categoryList[i]) in f.category.items)
  {
  }

  lemma {:induction false} AdmittedWithoutFilters(all: seq<Document>, f: Filters)
    requires !Narrows(f.documentType) && !Narrows(f.status)
    requires !Narrows(f.location) && !Narrows(f.category)
    ensures Admitted(all, f) == all
  {
    if |all| > 0 {
      AdmittedWithoutFilters(all[1..], f);
      assert Admits(f, all[0]);
      assert all == [all[0]] + all[1..];
    }
  }

  /** Every document `f` admits is counted: with no narrowing filter at all,
      `count` is the number of stored documents. */
  lemma NoFiltersMatchAll(all: seq<Document>, f: Filters)
    requires !Narrows(f.documentType) && !Narrows(f.status)
    requires !Narrows(f.location) && !Narrows(f.category)
    ensures Admitted(all, f) == all
    ensures FilterDocuments(all, f).count == |all|
  {
    AdmittedWithoutFilters(all, f);
  }

  /** An absent key, a non-list value and an empty list are interchangeable
      on every dimension. */
  lemma NonNarrowingIsIgnored(all: seq<Document>, f: Filters)
    ensures !Narrows(f.documentType) ==>
              FilterDocuments(all, f) == FilterDocuments(all, f.(documentType := Missing))
    ensures !Narrows(f.status) ==>
              FilterDocuments(all, f) == FilterDocuments(all, f.(status := Missing))
    ensures !Narrows(f.location) ==>
              FilterDocuments(all, f) == FilterDocuments(all, f.(location := Missing))
    ensures !Narrows(f.category) ==>
              FilterDocuments(all, f) == FilterDocuments(all, f.(category := Missing))
  {
    if !Narrows(f.documentType) {
      assert Matching(all, f) == Matching(all, f.(documentType := Missing));
    }
    if !Narrows(f.status) {
      assert Matching(all, f) == Matching(all, f.(status := Missing));
    }
    if !Narrows(f.location) {
      assert Matching(all, f) == Matching(all, f.(location := Missing));
    }
    if !Narrows(f.category) {
      assert Matching(all, f) == Matching(all, f.(category := Missing));
    }
  }

  /** Under a narrowing category filter, a document without categories (an
      empty or absent `category_list`) is never returned or counted. */
  lemma UncategorisedNeverMatches(all: seq<Document>, f: Filters, d: Document)
    requires Narrows(f.category) && d.categoryList == []
    ensures d !in FilterDocuments(all, f).documents
    ensures d !in Admitted(all, f)
  {
    assert !Passes(f.category, ByCategory, d) && !Admits(f, d);
    AdmittedMembers(all, f);
  }

  /** Under a narrowing location filter with no JSON null in it, a document
      with neither a source nor a target location is never returned. */
  lemma UnplacedNeverMatches(all: seq<Document>, f: Filters, d: Document)
    requires Narrows(f.location) && Null !in f.location.items
    requires d.sourceLocation == None && d.targetLocation == None
    ensures d !in FilterDocuments(all, f).documents
    ensures d !in Admitted(all, f)
  {
    assert FieldItem(d.sourceLocation) == Null && FieldItem(d.targetLocation) == Null;
    assert !Passes(f.location, ByLocation, d);
    AdmittedMembers(all, f);
  }

  /** The exception: `doc.get('source_location')` is `None`, and `None in
      [None]` holds, so a location filter holding a JSON null selects exactly
      the documents that lack a source or a target location. */
  lemma NullLocationSelectsUnplaced(all: seq<Document>, d: Document)
    ensures Admits(Filters(Missing, Missing, ListOf([Null]), Missing), d)
            <==> d.sourceLocation == None || d.targetLocation == None
    ensures d in all && (d.sourceLocation == None || d.targetLocation == None) ==>
              FilterDocuments(all, Filters(Missing, Missing, ListOf([Null]), Missing)).count > 0
  {
    var f := Filters(Missing, Missing, ListOf([Null]), Missing);
    AdmittedMembers(all, f);
    assert FieldItem(d.sourceLocation) in [Null] <==> d.sourceLocation == None;
    assert FieldItem(d.targetLocation) in [Null] <==> d.targetLocation == None;
  }
}
