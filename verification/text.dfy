/**
 The handful of Python `str` operations the backend relies on: lower-casing
 (for the login e-mail test), substring containment (`"x" in s`) and the
 code-point ordering that `list.sort` uses on ISO timestamps.
 */
module Text {

  /** U+212A KELVIN SIGN: the one non-ASCII character whose Python lower-case
      form is a single ASCII letter (`k`). */
  const KelvinSign: char := '\U{212A}'

  predicate IsAsciiUpper(c: char) {
    'A' <= c <= 'Z'
  }

  /** Lower-casing of one character, as far as it can matter when the
      lowered text is searched for an ASCII needle. */
  function LowerChar(c: char): (r: char)
    ensures !IsAsciiUpper(r)
    ensures IsAsciiUpper(c) ==> r != c && r as int - c as int == 'a' as int - 'A' as int
    ensures !IsAsciiUpper(c) && c != KelvinSign ==> r == c
  {
    if IsAsciiUpper(c) then (c as int - 'A' as int + 'a' as int) as char
    else if c == KelvinSign then 'k'
    else c
  }

  /** `s.lower()`, character by character, for the characters that can take
      part in a match against ASCII lower-case text: ASCII capitals move down
      to their small letters and the Kelvin sign becomes `k`. Every other
      character is kept as it is. Python lowers the other non-ASCII capitals
      to non-ASCII letters, which no ASCII text contains, except U+0130,
      which becomes `i` followed by U+0307 COMBINING DOT ABOVE; that pair
      matches neither "stockmaster" nor `user-id`. */
  function Lower(s: string): (r: string)
    ensures |r| == |s|
    ensures forall i :: 0 <= i < |s| && IsAsciiUpper(s[i]) ==>
              r[i] as int == s[i] as int + ('a' as int - 'A' as int)
    ensures forall i :: 0 <= i < |s| && s[i] == KelvinSign ==> r[i] == 'k'
    ensures forall i :: 0 <= i < |s| && !IsAsciiUpper(s[i]) && s[i] != KelvinSign ==> r[i] == s[i]
  {
    seq(|s|, i requires 0 <= i < |s| => LowerChar(s[i]))
  }

  /** Lower-casing leaves no ASCII capital and no Kelvin sign behind, so a
      second pass changes nothing. */
  lemma {:induction false} LowerIdempotent(s: string)
    ensures forall i :: 0 <= i < |s| ==> !IsAsciiUpper(Lower(s)[i]) && Lower(s)[i] != KelvinSign
    ensures Lower(Lower(s)) == Lower(s)
  {
    forall i | 0 <= i < |s|
      ensures !IsAsciiUpper(Lower(s)[i]) && Lower(s)[i] != KelvinSign
    {
      assert Lower(s)[i] == LowerChar(s[i]);
    }
  }

  /** `needle` occurs in `hay` starting at index `i`. */
  predicate OccursAt(hay: string, needle: string, i: int) {
    0 <= i && i + |needle| <= |hay| && hay[i..i + |needle|] == needle
  }

  lemma {:induction false} OccursShift(hay: string, needle: string, i: int)
    requires |hay| > 0 && 0 <= i
    ensures OccursAt(hay[1..], needle, i) <==> OccursAt(hay, needle, i + 1)
  {
    if 0 <= i && i + |needle| <= |hay| - 1 {
      assert hay[1..][i..i + |needle|] == hay[i + 1..i + 1 + |needle|];
    }
  }

  /** Python's `needle in hay` for strings, scanning left to right. */
  function Contains(hay: string, needle: string): (b: bool)
    ensures b <==> exists i :: OccursAt(hay, needle, i)
    decreases |hay|
  {
    if |needle| <= |hay| && hay[..|needle|] == needle then
      assert OccursAt(hay, needle, 0);
      true
    else if |hay| == 0 then
      false
    else
      var rest := Contains(hay[1..], needle);
      assert rest ==> exists i :: OccursAt(hay, needle, i) by {
        if rest {
          var i :| OccursAt(hay[1..], needle, i);
          OccursShift(hay, needle, i);
        }
      }
      assert (exists i :: OccursAt(hay, needle, i)) ==> rest by {
        if exists i :: OccursAt(hay, needle, i) {
          var i :| OccursAt(hay, needle, i);
          assert i != 0;
          OccursShift(hay, needle, i - 1);
        }
      }
      rest
  }

  /** Python's `a <= b` on strings: code-point lexicographic order. */
  predicate AtMost(a: string, b: string)
    decreases |a|
  {
    if |a| == 0 then true
    else if |b| == 0 then false
    else if a[0] != b[0] then a[0] < b[0]
    else AtMost(a[1..], b[1..])
  }

  /** `a` is a prefix of `b`. */
  ghost predicate PrefixOf(a: string, b: string) {
    |a| <= |b| && b[..|a|] == a
  }

  /** `a` and `b` first differ at `k`, where `a` has the smaller character. */
  ghost predicate FirstDiffersBelow(a: string, b: string, k: int) {
    0 <= k < |a| && k < |b| && a[..k] == b[..k] && a[k] < b[k]
  }

  /** The textbook definition of lexicographic order, for reference: `a` is a
      prefix of `b`, or the first difference has the smaller character in `a`. */
  ghost predicate LexLe(a: string, b: string) {
    PrefixOf(a, b) || exists k :: FirstDiffersBelow(a, b, k)
  }

  /** When the first characters differ, they alone decide `LexLe`. */
  lemma LexLeHeadsDiffer(a: string, b: string)
    requires |a| > 0 && |b| > 0 && a[0] != b[0]
    ensures LexLe(a, b) <==> a[0] < b[0]
  {
    if a[0] < b[0] {
      assert FirstDiffersBelow(a, b, 0);
    }
    assert !PrefixOf(a, b) by {
      if |a| <= |b| {
        assert b[..|a|][0] == b[0];
      }
    }
    forall k | 0 < k < |a| && k < |b|
      ensures a[..k] != b[..k]
    {
      assert a[..k][0] != b[..k][0];
    }
  }

  lemma PrefixOfTails(a: string, b: string)
    requires |a| > 0 && |b| > 0 && a[0] == b[0]
    ensures PrefixOf(a, b) <==> PrefixOf(a[1..], b[1..])
  {
    if |a| <= |b| {
      assert b[..|a|] == [b[0]] + b[1..][..|a| - 1];
      assert a == [a[0]] + a[1..];
    }
  }

  lemma FirstDiffersBelowTails(a: string, b: string, k: int)
    requires |a| > 0 && |b| > 0 && a[0] == b[0] && 0 <= k
    ensures FirstDiffersBelow(a, b, k + 1) <==> FirstDiffersBelow(a[1..], b[1..], k)
  {
    if k + 1 < |a| && k + 1 < |b| {
      assert a[..k + 1] == [a[0]] + a[1..][..k];
      assert b[..k + 1] == [b[0]] + b[1..][..k];
    }
  }

  /** When the first characters agree, `LexLe` is decided one character
      further in. */
  lemma LexLeHeadsAgree(a: string, b: string)
    requires |a| > 0 && |b| > 0 && a[0] == b[0]
    ensures LexLe(a, b) <==> LexLe(a[1..], b[1..])
  {
    PrefixOfTails(a, b);
    if exists k :: FirstDiffersBelow(a[1..], b[1..], k) {
      var k :| FirstDiffersBelow(a[1..], b[1..], k);
      FirstDiffersBelowTails(a, b, k);
    }
    if exists k :: FirstDiffersBelow(a, b, k) {
      var k :| FirstDiffersBelow(a, b, k);
      assert k != 0;
      FirstDiffersBelowTails(a, b, k - 1);
    }
  }

  lemma {:induction false} AtMostIsLexLe(a: string, b: string)
    ensures AtMost(a, b) <==> LexLe(a, b)
    decreases |a|
  {
    if |a| == 0 {
      assert b[..0] == a;
    } else if |b| == 0 {
    } else if a[0] != b[0] {
      LexLeHeadsDiffer(a, b);
    } else {
      AtMostIsLexLe(a[1..], b[1..]);
      LexLeHeadsAgree(a, b);
    }
  }

  lemma {:induction false} AtMostReflexive(a: string)
    ensures AtMost(a, a)
    decreases |a|
  {
    if |a| > 0 {
      AtMostReflexive(a[1..]);
    }
  }

  lemma {:induction false} AtMostTotal(a: string, b: string)
    ensures AtMost(a, b) || AtMost(b, a)
    decreases |a|
  {
    if |a| > 0 && |b| > 0 && a[0] == b[0] {
      AtMostTotal(a[1..], b[1..]);
    }
  }

  lemma {:induction false} AtMostAntisymmetric(a: string, b: string)
    requires AtMost(a, b) && AtMost(b, a)
    ensures a == b
    decreases |a|
  {
    if |a| > 0 {
      AtMostAntisymmetric(a[1..], b[1..]);
      assert a == [a[0]] + a[1..];
      assert b == [b[0]] + b[1..];
    }
  }

  lemma {:induction false} AtMostTransitive(a: string, b: string, c: string)
    requires AtMost(a, b) && AtMost(b, c)
    ensures AtMost(a, c)
    decreases |a|
  {
    if |a| > 0 && a[0] == b[0] && b[0] == c[0] {
      AtMostTransitive(a[1..], b[1..], c[1..]);
    }
  }
}
