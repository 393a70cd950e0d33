/** String matching used by the listing searches (SQL `ILIKE '%term%'`) and the string sort order. */
module Text {

  /** ASCII case folding. */
  function LowerChar(c: char): char
  {
    if 'A' <= c <= 'Z' then (c as int + 32) as char else c
  }

  function Lower(s: string): string
  {
    seq(|s|, i requires 0 <= i < |s| => LowerChar(s[i]))
  }

  predicate IsPrefix(p: string, s: string)
  {
    |p| <= |s| && s[..|p|] == p
  }

  /** `needle` occurs in `hay` (the pattern `%needle%`). */
  predicate Contains(hay: string, needle: string)
    decreases |hay|
  {
    IsPrefix(needle, hay) || (|hay| > 0 && Contains(hay[1..], needle))
  }

  /** `needle` occurs in `hay` starting at position k. */
  predicate OccursAt(hay: string, needle: string, k: int)
  {
    0 <= k <= |hay| - |needle| && hay[k..k + |needle|] == needle
  }

  /** `Contains` finds an occurrence at some position, and every occurrence is found. */
  lemma {:induction false} ContainsIff(hay: string, needle: string)
    ensures Contains(hay, needle) <==> exists k :: OccursAt(hay, needle, k)
  {
    var n := |needle|;
    if Contains(hay, needle) {
      if IsPrefix(needle, hay) {
        assert OccursAt(hay, needle, 0);
      } else {
        ContainsIff(hay[1..], needle);
        var k :| OccursAt(hay[1..], needle, k);
        assert hay[1..][k..k + n] == hay[k + 1..k + 1 + n];
        assert OccursAt(hay, needle, k + 1);
      }
    }
    if exists k :: OccursAt(hay, needle, k) {
      var k :| OccursAt(hay, needle, k);
      if k > 0 {
        assert hay[1..][k - 1..k - 1 + n] == hay[k..k + n];
        assert OccursAt(hay[1..], needle, k - 1);
        ContainsIff(hay[1..], needle);
      } else {
        assert IsPrefix(needle, hay);
      }
    }
  }

  /** The empty pattern `%%` matches everything. */
  lemma ContainsEmpty(hay: string)
    ensures Contains(hay, "")
  {
    assert IsPrefix("", hay);
  }

  /** Case-insensitive substring, as `column ILIKE '%term%'` (ASCII folding only). */
  predicate ILike(hay: string, term: string)
  {
    Contains(Lower(hay), Lower(term))
  }

  /** A character JavaScript stores as two UTF-16 code units (a surrogate pair). */
  predicate IsAstral(c: char)
  {
    c as int >= 0x1_0000
  }

  /** A JavaScript string's `length`: UTF-16 code units, so an astral character counts twice. */
  function JsLength(s: string): nat
  {
    if s == [] then 0 else (if IsAstral(s[0]) then 2 else 1) + JsLength(s[1..])
  }

  /** The UTF-16 length lies between the number of characters and twice that. */
  lemma {:induction false} JsLengthBounds(s: string)
    ensures |s| <= JsLength(s) <= 2 * |s|
  {
    if s != [] {
      JsLengthBounds(s[1..]);
    }
  }

  /** Without astral characters the two lengths agree. */
  lemma {:induction false} JsLengthNoAstral(s: string)
    requires forall i :: 0 <= i < |s| ==> !IsAstral(s[i])
    ensures JsLength(s) == |s|
  {
    if s != [] {
      assert forall i :: 0 <= i < |s[1..]| ==> !IsAstral(s[1..][i]) by {
        forall i | 0 <= i < |s[1..]| ensures !IsAstral(s[1..][i]) { assert s[1..][i] == s[i + 1]; }
      }
      JsLengthNoAstral(s[1..]);
    }
  }

  /** Each astral character adds one to the UTF-16 length: `n` of them measure `2 * n`. */
  lemma {:induction false} JsLengthAllAstral(s: string)
    requires forall i :: 0 <= i < |s| ==> IsAstral(s[i])
    ensures JsLength(s) == 2 * |s|
  {
    if s != [] {
      assert forall i :: 0 <= i < |s[1..]| ==> IsAstral(s[1..][i]) by {
        forall i | 0 <= i < |s[1..]| ensures IsAstral(s[1..][i]) { assert s[1..][i] == s[i + 1]; }
      }
      JsLengthAllAstral(s[1..]);
    }
  }

  /** Lexicographic order on character codes. */
  predicate LexLe(a: string, b: string)
  {
    |a| == 0 || (|b| > 0 && (a[0] < b[0] || (a[0] == b[0] && LexLe(a[1..], b[1..]))))
  }

  lemma {:induction false} LexTotal(a: string, b: string)
    ensures LexLe(a, b) || LexLe(b, a)
  {
    if |a| > 0 && |b| > 0 && a[0] == b[0] {
      LexTotal(a[1..], b[1..]);
    }
  }

  lemma {:induction false} LexTransitive(a: string, b: string, c: string)
    requires LexLe(a, b) && LexLe(b, c)
    ensures LexLe(a, c)
  {
    if |a| > 0 && a[0] == b[0] && b[0] == c[0] {
      LexTransitive(a[1..], b[1..], c[1..]);
    }
  }
}
