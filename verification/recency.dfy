/**
 The ordering step of the document filter: `list.sort(key=created_at,
 reverse=True)`. Python's sort is stable even when reversed, so documents
 with equal timestamps keep their original relative order. The model is an
 insertion sort that places each document before every document that is not
 newer than it; the lemmas show that its result is ordered newest first, is
 a permutation of its input, is stable, and is the only sequence with these
 three properties.
 */
module Recency {
  import opened Records
  import opened Text

  /** `created_at` never increases along `s`. */
  ghost predicate NewestFirst(s: seq<Document>) {
    forall i, j :: 0 <= i < j < |s| ==> AtMost(s[j].createdAt, s[i].createdAt)
  }

  /** The documents of `s` stamped exactly `t`, in their order in `s`. */
  function StampedAt(s: seq<Document>, t: string): (r: seq<Document>)
    ensures |r| <= |s|
  {
    if |s| == 0 then []
    else (if s[0].createdAt == t then [s[0]] else []) + StampedAt(s[1..], t)
  }

  /** Places `d` in front of the first document that is not newer than it. */
  function Insert(d: Document, s: seq<Document>): (r: seq<Document>)
    ensures multiset(r) == multiset(s) + multiset{d}
  {
    if |s| == 0 then [d]
    else if AtMost(s[0].createdAt, d.createdAt) then [d] + s
    else
      assert s == [s[0]] + s[1..];
      [s[0]] + Insert(d, s[1..])
  }

  /** The stable newest-first sort of `s`. */
  function SortNewestFirst(s: seq<Document>): (r: seq<Document>)
    ensures multiset(r) == multiset(s)
  {
    if |s| == 0 then []
    else
      assert s == [s[0]] + s[1..];
      Insert(s[0], SortNewestFirst(s[1..]))
  }

  lemma {:induction false} StampedAtMember(s: seq<Document>, t: string, x: Document)
    requires x in StampedAt(s, t)
    ensures x in s && x.createdAt == t
  {
    if s[0].createdAt == t && x == s[0] {
    } else {
      StampedAtMember(s[1..], t, x);
    }
  }

  lemma {:induction false} HeadIsNewest(s: seq<Document>, x: Document)
    requires NewestFirst(s) && x in s
    ensures AtMost(x.createdAt, s[0].createdAt)
  {
    var k :| 0 <= k < |s| && s[k] == x;
    if k == 0 {
      AtMostReflexive(x.createdAt);
    }
  }

  /** A document at least as new as everything in a newest-first sequence can
      go in front of it. */
  lemma ConsNewestFirst(x: Document, rest: seq<Document>)
    requires NewestFirst(rest)
    requires forall y :: y in rest ==> AtMost(y.createdAt, x.createdAt)
    ensures NewestFirst([x] + rest)
  {
    var r := [x] + rest;
    forall i, j | 0 <= i < j < |r|
      ensures AtMost(r[j].createdAt, r[i].createdAt)
    {
      assert r[j] == rest[j - 1];
      if i == 0 {
        assert r[j] in rest;
      } else {
        assert r[i] == rest[i - 1];
      }
    }
  }

  lemma {:induction false} InsertKeepsNewestFirst(d: Document, s: seq<Document>)
    requires NewestFirst(s)
    ensures NewestFirst(Insert(d, s))
  {
    if |s| == 0 {
    } else if AtMost(s[0].createdAt, d.createdAt) {
      assert Insert(d, s) == [d] + s;
      forall y | y in s
        ensures AtMost(y.createdAt, d.createdAt)
      {
        HeadIsNewest(s, y);
        AtMostTransitive(y.createdAt, s[0].createdAt, d.createdAt);
      }
      ConsNewestFirst(d, s);
    } else {
      AtMostTotal(s[0].createdAt, d.createdAt);
      var rest := Insert(d, s[1..]);
      InsertKeepsNewestFirst(d, s[1..]);
      assert Insert(d, s) == [s[0]] + rest;
      assert NewestFirst(s[1..]);
      forall y | y in rest
        ensures AtMost(y.createdAt, s[0].createdAt)
      {
        assert y in multiset(rest);
        if y != d {
          assert y in s[1..];
          assert y in s;
          HeadIsNewest(s, y);
        }
      }
      ConsNewestFirst(s[0], rest);
    }
  }

  lemma {:induction false} SortIsNewestFirst(s: seq<Document>)
    ensures NewestFirst(SortNewestFirst(s))
  {
    if |s| > 0 {
      SortIsNewestFirst(s[1..]);
      InsertKeepsNewestFirst(s[0], SortNewestFirst(s[1..]));
    }
  }

  /** Inserting `d` in front of `s` puts it in front of `s`'s documents
      stamped `t`. */
  lemma InsertAtFront(d: Document, s: seq<Document>, t: string)
    requires |s| > 0 && AtMost(s[0].createdAt, d.createdAt)
    ensures StampedAt(Insert(d, s), t) == (if d.createdAt == t then [d] else []) + StampedAt(s, t)
  {
    assert Insert(d, s) == [d] + s;
    assert ([d] + s)[0] == d && ([d] + s)[1..] == s;
  }

  /** `d` lands in front of every document already stamped like it. */
  lemma {:induction false} InsertStable(d: Document, s: seq<Document>, t: string)
    ensures StampedAt(Insert(d, s), t)
         == (if d.createdAt == t then [d] else []) + StampedAt(s, t)
  {
    if |s| == 0 {
      assert Insert(d, s) == [d] && [d][1..] == [];
    } else if AtMost(s[0].createdAt, d.createdAt) {
      InsertAtFront(d, s, t);
    } else {
      InsertStable(d, s[1..], t);
      InsertBehind(d, s, t);
    }
  }

  /** Inserting `d` behind the head of `s`, which is strictly newer than `d`,
      keeps the head in front of `d` and of the rest. */
  lemma InsertBehind(d: Document, s: seq<Document>, t: string)
    requires |s| > 0 && !AtMost(s[0].createdAt, d.createdAt)
    requires StampedAt(Insert(d, s[1..]), t)
          == (if d.createdAt == t then [d] else []) + StampedAt(s[1..], t)
    ensures StampedAt(Insert(d, s), t)
         == (if d.createdAt == t then [d] else []) + StampedAt(s, t)
  {
    assert Insert(d, s) == [s[0]] + Insert(d, s[1..]);
    StampedAtCons(s[0], Insert(d, s[1..]), t);
    AtMostReflexive(d.createdAt);
    SwapUnlessBothPresent(
      if s[0].createdAt == t then [s[0]] else [],
      if d.createdAt == t then [d] else [],
      StampedAt(s[1..], t));
  }

  lemma StampedAtCons(x: Document, rest: seq<Document>, t: string)
    ensures StampedAt([x] + rest, t) == (if x.createdAt == t then [x] else []) + StampedAt(rest, t)
  {
    assert ([x] + rest)[0] == x && ([x] + rest)[1..] == rest;
  }

  /** Two pieces of which one is empty can swap places. */
  lemma SwapUnlessBothPresent(head: seq<Document>, front: seq<Document>, tail: seq<Document>)
    requires head == [] || front == []
    ensures head + (front + tail) == front + (head + tail)
  {
    if head == [] {
      assert head + (front + tail) == front + tail;
      assert head + tail == tail;
    } else {
      assert front + tail == tail;
      assert front + (head + tail) == head + tail;
    }
  }

  /** Picking out one timestamp's documents distributes over concatenation. */
  lemma {:induction false} StampedAtSplits(a: seq<Document>, b: seq<Document>, t: string)
    ensures StampedAt(a + b, t) == StampedAt(a, t) + StampedAt(b, t)
  {
    if |a| > 0 {
      assert (a + b)[0] == a[0] && (a + b)[1..] == a[1..] + b;
      StampedAtSplits(a[1..], b, t);
    } else {
      assert a + b == b;
    }
  }

  /** Cutting a sequence keeps a prefix of each timestamp's documents. */
  lemma StampedAtCut(s: seq<Document>, n: nat, t: string)
    requires n <= |s|
    ensures StampedAt(s[..n], t) <= StampedAt(s, t)
  {
    assert s == s[..n] + s[n..];
    StampedAtSplits(s[..n], s[n..], t);
  }

  /** Stability: for every timestamp, the documents carrying it appear in the
      sorted result in the same order as in the input. */
  lemma {:induction false} SortIsStable(s: seq<Document>, t: string)
    ensures StampedAt(SortNewestFirst(s), t) == StampedAt(s, t)
  {
    if |s| > 0 {
      SortIsStable(s[1..], t);
      InsertStable(s[0], SortNewestFirst(s[1..]), t);
    }
  }

  /** Two newest-first sequences that agree on every timestamp's documents
      are the same sequence. */
  lemma {:induction false} NewestFirstUnique(a: seq<Document>, b: seq<Document>)
    requires NewestFirst(a) && NewestFirst(b)
    requires forall t :: StampedAt(a, t) == StampedAt(b, t)
    ensures a == b
    decreases |a|
  {
    if |a| == 0 || |b| == 0 {
      var t := if |a| > 0 then a[0].createdAt else if |b| > 0 then b[0].createdAt else [];
      assert StampedAt(a, t) == StampedAt(b, t);
    } else {
      var ka, kb := a[0].createdAt, b[0].createdAt;
      var sa := StampedAt(b, ka);
      assert sa == StampedAt(a, ka) && sa[0] == a[0];
      StampedAtMember(b, ka, sa[0]);
      HeadIsNewest(b, sa[0]);
      var sb := StampedAt(a, kb);
      assert sb == StampedAt(b, kb) && sb[0] == b[0];
      StampedAtMember(a, kb, sb[0]);
      HeadIsNewest(a, sb[0]);
      AtMostAntisymmetric(ka, kb);
      assert a[0] == b[0] by {
        assert StampedAt(a, ka)[0] == StampedAt(b, ka)[0];
      }
      forall t
        ensures StampedAt(a[1..], t) == StampedAt(b[1..], t)
      {
        if t == ka {
          assert StampedAt(a, t) == [a[0]] + StampedAt(a[1..], t);
          assert StampedAt(b, t) == [b[0]] + StampedAt(b[1..], t);
          assert StampedAt(a[1..], t) == StampedAt(a, t)[1..];
          assert StampedAt(b[1..], t) == StampedAt(b, t)[1..];
        } else {
          assert StampedAt(a, t) == StampedAt(a[1..], t);
          assert StampedAt(b, t) == StampedAt(b[1..], t);
        }
      }
      NewestFirstUnique(a[1..], b[1..]);
      assert a == [a[0]] + a[1..];
      assert b == [b[0]] + b[1..];
    }
  }

  /** Any ordering of `s` that is newest first and stable is the one the
      backend produces. */
  lemma SortCharacterized(s: seq<Document>, r: seq<Document>)
    requires NewestFirst(r)
    requires forall t :: StampedAt(r, t) == StampedAt(s, t)
    ensures r == SortNewestFirst(s)
  {
    SortIsNewestFirst(s);
    forall t
      ensures StampedAt(r, t) == StampedAt(SortNewestFirst(s), t)
    {
      SortIsStable(s, t);
    }
    NewestFirstUnique(r, SortNewestFirst(s));
  }
}
