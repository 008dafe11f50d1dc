/**
 The dictionary fold the dashboard uses twice:

     totals[key] = totals.get(key, 0) + amount

 over a sequence of (key, amount) entries. A Python dict remembers insertion
 order, so the result is an association list with one bucket per distinct
 key, in order of each key's first appearance (`TallyOfMeaning`).
 */
module Tally {

  datatype Entry = Entry(key: string, amount: int)

  /** Sum of the amounts of `entries`. */
  function Total(entries: seq<Entry>): int {
    if |entries| == 0 then 0 else entries[0].amount + Total(entries[1..])
  }

  /** Reference definition: the sum of the amounts filed under `key`. */
  function SumFor(entries: seq<Entry>, key: string): int {
    if |entries| == 0 then 0
    else (if entries[0].key == key then entries[0].amount else 0) + SumFor(entries[1..], key)
  }

  function Keys(entries: seq<Entry>): set<string> {
    set i | 0 <= i < |entries| :: entries[i].key
  }

  /** Reference definition: the index of the first entry filed under `key`,
      or `|entries|` when there is none. */
  function FirstIndex(entries: seq<Entry>, key: string): nat {
    if |entries| == 0 then 0
    else if entries[0].key == key then 0
    else 1 + FirstIndex(entries[1..], key)
  }

  /** The buckets' keys come in the order in which they first appear in
      `entries`. */
  predicate FirstAppearanceOrder(buckets: seq<Entry>, entries: seq<Entry>) {
    forall i, j :: 0 <= i < j < |buckets| ==>
      FirstIndex(entries, buckets[i].key) < FirstIndex(entries, buckets[j].key)
  }

  /** No key has two buckets. */
  predicate DistinctKeys(buckets: seq<Entry>) {
    forall i, j :: 0 <= i < j < |buckets| ==> buckets[i].key != buckets[j].key
  }

  /** `totals.get(key, 0)`. */
  function Lookup(buckets: seq<Entry>, key: string): int {
    if |buckets| == 0 then 0
    else if buckets[0].key == key then buckets[0].amount
    else Lookup(buckets[1..], key)
  }

  /** Without repeated keys, the first bucket's key is not among the rest,
      and the rest has no repeated keys either. */
  lemma DistinctTail(buckets: seq<Entry>)
    requires |buckets| > 0
    ensures DistinctKeys(buckets) ==> DistinctKeys(buckets[1..]) && buckets[0].key !in Keys(buckets[1..])
  {
    if DistinctKeys(buckets) {
      forall i | 0 <= i < |buckets| - 1
        ensures buckets[1..][i].key != buckets[0].key
      {
        assert buckets[1..][i] == buckets[i + 1];
      }
    }
  }

  /** One step of the fold: add `e.amount` to the bucket for `e.key`, in
      place, or open a new bucket at the end. */
  function Bump(buckets: seq<Entry>, e: Entry): (r: seq<Entry>)
    ensures e.key in Keys(buckets) ==> |r| == |buckets|
    ensures DistinctKeys(buckets) && e.key in Keys(buckets) ==>
              forall i :: 0 <= i < |buckets| ==>
                r[i] == if buckets[i].key == e.key then Entry(e.key, buckets[i].amount + e.amount) else buckets[i]
    ensures e.key !in Keys(buckets) ==> r == buckets + [e]
  {
    if |buckets| == 0 then [e]
    else if buckets[0].key == e.key then
      var r := [Entry(e.key, buckets[0].amount + e.amount)] + buckets[1..];
      assert DistinctKeys(buckets) ==> forall i :: 1 <= i < |buckets| ==> buckets[i].key != e.key;
      assert forall i :: 1 <= i < |buckets| ==> r[i] == buckets[i];
      r
    else
      DistinctTail(buckets);
      assert e.key in Keys(buckets) <==> e.key in Keys(buckets[1..]) by {
        if e.key in Keys(buckets) {
          var i :| 0 <= i < |buckets| && buckets[i].key == e.key;
          assert buckets[1..][i - 1].key == e.key;
        }
        if e.key in Keys(buckets[1..]) {
          var i :| 0 <= i < |buckets[1..]| && buckets[1..][i].key == e.key;
          assert buckets[i + 1].key == e.key;
        }
      }
      [buckets[0]] + Bump(buckets[1..], e)
  }

  /** Folds `entries` into `buckets`, left to right. */
  function TallyInto(buckets: seq<Entry>, entries: seq<Entry>): seq<Entry>
    decreases |entries|
  {
    if |entries| == 0 then buckets
    else TallyInto(Bump(buckets, entries[0]), entries[1..])
  }

  /** The fold from an empty dict. */
  function TallyOf(entries: seq<Entry>): seq<Entry> {
    TallyInto([], entries)
  }

  lemma {:induction false} KeysOfCons(e: Entry, s: seq<Entry>)
    ensures Keys([e] + s) == {e.key} + Keys(s)
  {
    var c := [e] + s;
    forall k | k in Keys(c)
      ensures k in {e.key} + Keys(s)
    {
      var i :| 0 <= i < |c| && c[i].key == k;
      if i > 0 {
        assert s[i - 1].key == k;
      }
    }
    forall k | k in Keys(s)
      ensures k in Keys(c)
    {
      var i :| 0 <= i < |s| && s[i].key == k;
      assert c[i + 1].key == k;
    }
    assert c[0].key == e.key;
  }

  lemma {:induction false} BumpKeys(buckets: seq<Entry>, e: Entry)
    ensures Keys(Bump(buckets, e)) == Keys(buckets) + {e.key}
  {
    if |buckets| == 0 {
      KeysOfCons(e, []);
    } else {
      var r := Bump(buckets, e);
      assert buckets == [buckets[0]] + buckets[1..];
      KeysOfCons(buckets[0], buckets[1..]);
      if buckets[0].key == e.key {
        KeysOfCons(r[0], buckets[1..]);
      } else {
        var rest := Bump(buckets[1..], e);
        BumpKeys(buckets[1..], e);
        KeysOfCons(buckets[0], rest);
      }
    }
  }

  lemma {:induction false} BumpTotal(buckets: seq<Entry>, e: Entry)
    ensures Total(Bump(buckets, e)) == Total(buckets) + e.amount
  {
    if |buckets| > 0 {
      var r := Bump(buckets, e);
      if buckets[0].key == e.key {
        assert r[1..] == buckets[1..];
      } else {
        BumpTotal(buckets[1..], e);
        assert r[1..] == Bump(buckets[1..], e);
      }
    }
  }

  lemma {:induction false} BumpLookup(buckets: seq<Entry>, e: Entry, k: string)
    ensures Lookup(Bump(buckets, e), k) == Lookup(buckets, k) + (if k == e.key then e.amount else 0)
  {
    if |buckets| > 0 {
      var r := Bump(buckets, e);
      if buckets[0].key == e.key {
        assert r[1..] == buckets[1..];
      } else {
        BumpLookup(buckets[1..], e, k);
        assert r[1..] == Bump(buckets[1..], e);
      }
    }
  }

  lemma BumpDistinct(buckets: seq<Entry>, e: Entry)
    requires DistinctKeys(buckets)
    ensures DistinctKeys(Bump(buckets, e))
  {
    var r := Bump(buckets, e);
    if e.key in Keys(buckets) {
      assert forall i :: 0 <= i < |r| ==> r[i].key == buckets[i].key;
    } else {
      assert forall i :: 0 <= i < |buckets| ==> buckets[i].key in Keys(buckets);
    }
  }

  lemma {:induction false} TallyIntoShape(buckets: seq<Entry>, entries: seq<Entry>)
    requires DistinctKeys(buckets)
    ensures DistinctKeys(TallyInto(buckets, entries))
    ensures Keys(TallyInto(buckets, entries)) == Keys(buckets) + Keys(entries)
    decreases |entries|
  {
    if |entries| == 0 {
      assert Keys(entries) == {};
    } else {
      var e := entries[0];
      BumpDistinct(buckets, e);
      BumpKeys(buckets, e);
      TallyIntoShape(Bump(buckets, e), entries[1..]);
      assert entries == [e] + entries[1..];
      KeysOfCons(e, entries[1..]);
    }
  }

  lemma {:induction false} TallyIntoSums(buckets: seq<Entry>, entries: seq<Entry>, k: string)
    ensures Total(TallyInto(buckets, entries)) == Total(buckets) + Total(entries)
    ensures Lookup(TallyInto(buckets, entries), k) == Lookup(buckets, k) + SumFor(entries, k)
    decreases |entries|
  {
    if |entries| > 0 {
      var e := entries[0];
      BumpTotal(buckets, e);
      BumpLookup(buckets, e, k);
      TallyIntoSums(Bump(buckets, e), entries[1..], k);
    }
  }

  lemma TallyIntoFacts(buckets: seq<Entry>, entries: seq<Entry>)
    requires DistinctKeys(buckets)
    ensures DistinctKeys(TallyInto(buckets, entries))
    ensures Keys(TallyInto(buckets, entries)) == Keys(buckets) + Keys(entries)
    ensures Total(TallyInto(buckets, entries)) == Total(buckets) + Total(entries)
    ensures forall k :: Lookup(TallyInto(buckets, entries), k) == Lookup(buckets, k) + SumFor(entries, k)
  {
    TallyIntoShape(buckets, entries);
    TallyIntoSums(buckets, entries, "");
    forall k
      ensures Lookup(TallyInto(buckets, entries), k) == Lookup(buckets, k) + SumFor(entries, k)
    {
      TallyIntoSums(buckets, entries, k);
    }
  }

  /** The fold has one bucket per distinct key, exactly the keys that occur;
      each bucket holds the sum of that key's amounts, and the buckets
      together hold the sum of all amounts. */
  lemma TallyOfMeaning(entries: seq<Entry>)
    ensures DistinctKeys(TallyOf(entries))
    ensures Keys(TallyOf(entries)) == Keys(entries)
    ensures forall k :: Lookup(TallyOf(entries), k) == SumFor(entries, k)
    ensures Total(TallyOf(entries)) == Total(entries)
    ensures forall i, j :: 0 <= i < j < |TallyOf(entries)| ==>
              FirstIndex(entries, TallyOf(entries)[i].key) < FirstIndex(entries, TallyOf(entries)[j].key)
  {
    TallyIntoFacts([], entries);
    TallyIntoOrder([], [], entries);
    assert [] + entries == entries;
  }

  lemma {:induction false} FirstIndexAppend(s: seq<Entry>, t: seq<Entry>, k: string)
    ensures k in Keys(s) ==> FirstIndex(s + t, k) == FirstIndex(s, k) < |s|
    ensures k !in Keys(s) ==> FirstIndex(s + t, k) == |s| + FirstIndex(t, k)
  {
    if |s| == 0 {
      assert s + t == t;
    } else {
      assert (s + t)[1..] == s[1..] + t;
      assert s == [s[0]] + s[1..];
      KeysOfCons(s[0], s[1..]);
      FirstIndexAppend(s[1..], t, k);
    }
  }

  lemma KeysOfSnoc(s: seq<Entry>, e: Entry)
    ensures Keys(s + [e]) == Keys(s) + {e.key}
  {
    var c := s + [e];
    assert c[|s|].key == e.key;
    forall k | k in Keys(s)
      ensures k in Keys(c)
    {
      var i :| 0 <= i < |s| && s[i].key == k;
      assert c[i].key == k;
    }
  }

  /** Strictly ordered keys are distinct. */
  lemma OrderedIsDistinct(buckets: seq<Entry>, seen: seq<Entry>)
    requires FirstAppearanceOrder(buckets, seen)
    ensures DistinctKeys(buckets)
  {
  }

  /** Entries already seen keep their first index when one more arrives. */
  lemma SeenKeepFirstIndex(seen: seq<Entry>, e: Entry)
    ensures forall k :: k in Keys(seen) ==> FirstIndex(seen + [e], k) == FirstIndex(seen, k) < |seen|
    ensures e.key !in Keys(seen) ==> FirstIndex(seen + [e], e.key) == |seen|
  {
    forall k | k in Keys(seen)
      ensures FirstIndex(seen + [e], k) == FirstIndex(seen, k) < |seen|
    {
      FirstIndexAppend(seen, [e], k);
    }
    FirstIndexAppend(seen, [e], e.key);
  }

  /** Adding to a known key keeps every bucket's place. */
  lemma BumpKnownKeepsOrder(buckets: seq<Entry>, seen: seq<Entry>, e: Entry)
    requires Keys(buckets) == Keys(seen) && e.key in Keys(seen)
    requires FirstAppearanceOrder(buckets, seen)
    ensures FirstAppearanceOrder(Bump(buckets, e), seen + [e])
  {
    var b := Bump(buckets, e);
    SeenKeepFirstIndex(seen, e);
    OrderedIsDistinct(buckets, seen);
    assert forall i :: 0 <= i < |b| ==> b[i].key == buckets[i].key;
    assert forall i :: 0 <= i < |buckets| ==> buckets[i].key in Keys(buckets);
  }

  /** A new key is the latest to appear, and it goes last. */
  lemma BumpNewKeepsOrder(buckets: seq<Entry>, seen: seq<Entry>, e: Entry)
    requires Keys(buckets) == Keys(seen) && e.key !in Keys(seen)
    requires FirstAppearanceOrder(buckets, seen)
    ensures FirstAppearanceOrder(Bump(buckets, e), seen + [e])
  {
    var b := Bump(buckets, e);
    SeenKeepFirstIndex(seen, e);
    assert b == buckets + [e];
    forall i, j | 0 <= i < j < |b|
      ensures FirstIndex(seen + [e], b[i].key) < FirstIndex(seen + [e], b[j].key)
    {
      assert b[i] == buckets[i] && buckets[i].key in Keys(buckets);
      if j < |buckets| {
        assert b[j] == buckets[j] && buckets[j].key in Keys(buckets);
      }
    }
  }

  /** One fold step keeps the buckets' keys those of the entries seen, in
      first-appearance order. */
  lemma BumpKeepsOrder(buckets: seq<Entry>, seen: seq<Entry>, e: Entry)
    requires Keys(buckets) == Keys(seen)
    requires FirstAppearanceOrder(buckets, seen)
    ensures Keys(Bump(buckets, e)) == Keys(seen + [e])
    ensures FirstAppearanceOrder(Bump(buckets, e), seen + [e])
  {
    BumpKeys(buckets, e);
    KeysOfSnoc(seen, e);
    if e.key in Keys(seen) {
      BumpKnownKeepsOrder(buckets, seen, e);
    } else {
      BumpNewKeepsOrder(buckets, seen, e);
    }
  }

  /** Each fold step keeps the buckets in first-appearance order of the
      entries seen so far. */
  lemma {:induction false} TallyIntoOrder(buckets: seq<Entry>, seen: seq<Entry>, entries: seq<Entry>)
    requires Keys(buckets) == Keys(seen)
    requires FirstAppearanceOrder(buckets, seen)
    ensures FirstAppearanceOrder(TallyInto(buckets, entries), seen + entries)
    decreases |entries|
  {
    if |entries| == 0 {
      assert seen + entries == seen;
    } else {
      var e := entries[0];
      var b, seen' := Bump(buckets, e), seen + [e];
      BumpKeepsOrder(buckets, seen, e);
      TallyIntoOrder(b, seen', entries[1..]);
      assert TallyInto(buckets, entries) == TallyInto(b, entries[1..]);
      assert seen' + entries[1..] == seen + entries;
    }
  }

  /** In a bucket list without repeated keys, each bucket is what `Lookup`
      finds for its key. */
  lemma {:induction false} BucketIsLookup(buckets: seq<Entry>, i: nat)
    requires DistinctKeys(buckets) && i < |buckets|
    ensures Lookup(buckets, buckets[i].key) == buckets[i].amount
  {
    if i > 0 {
      BucketIsLookup(buckets[1..], i - 1);
    }
  }
}
