/**
 * The two string operations the system relies on: Python's `str.strip()`
 * (used on every log line and on every message a subscriber receives) and
 * Python's substring test `needle in hay` (the keyword match).
 */
module Text {

  /** The characters for which Python's `str.isspace()` holds; `str.strip()` removes exactly these. */
  predicate IsWhitespace(c: char) {
    c == ' ' || ('\t' <= c <= '\r') || ('\U{1C}' <= c <= '\U{1F}')
    || c == '\U{85}' || c == '\U{A0}' || c == '\U{1680}'
    || ('\U{2000}' <= c <= '\U{200A}') || c == '\U{2028}' || c == '\U{2029}'
    || c == '\U{202F}' || c == '\U{205F}' || c == '\U{3000}'
  }

  /** All characters of `s` are whitespace. */
  predicate AllWhitespace(s: string) {
    forall k :: 0 <= k < |s| ==> IsWhitespace(s[k])
  }

  /** A string that `strip()` leaves alone: empty, or non-whitespace at both ends. */
  predicate Unpadded(s: string) {
    s == [] || (!IsWhitespace(s[0]) && !IsWhitespace(s[|s| - 1]))
  }

  /** `s.lstrip()`: `s` without its leading whitespace. */
  function TrimStart(s: string): string
    decreases |s|
  {
    if |s| > 0 && IsWhitespace(s[0]) then TrimStart(s[1..]) else s
  }

  /** `s.rstrip()`: `s` without its trailing whitespace. */
  function TrimEnd(s: string): string
    decreases |s|
  {
    if |s| > 0 && IsWhitespace(s[|s| - 1]) then TrimEnd(s[..|s| - 1]) else s
  }

  /** lstrip() keeps a suffix, drops only whitespace, and leaves no leading whitespace. */
  lemma {:induction false} TrimStartSpec(s: string)
    ensures var r := TrimStart(s);
            && |r| <= |s| && r == s[|s| - |r|..]
            && (forall k :: 0 <= k < |s| - |r| ==> IsWhitespace(s[k]))
            && (r != [] ==> !IsWhitespace(r[0]))
    decreases |s|
  {
    if |s| > 0 && IsWhitespace(s[0]) {
      TrimStartSpec(s[1..]);
      var r := TrimStart(s);
      assert s[1..][|s| - 1 - |r|..] == s[|s| - |r|..];
    }
  }

  /** rstrip() keeps a prefix, drops only whitespace, and leaves no trailing whitespace. */
  lemma {:induction false} TrimEndSpec(s: string)
    ensures var r := TrimEnd(s);
            && |r| <= |s| && r == s[..|r|]
            && (forall k :: |r| <= k < |s| ==> IsWhitespace(s[k]))
            && (r != [] ==> !IsWhitespace(r[|r| - 1]))
    decreases |s|
  {
    if |s| > 0 && IsWhitespace(s[|s| - 1]) {
      var p := s[..|s| - 1];
      TrimEndSpec(p);
      var r := TrimEnd(s);
      assert p[..|r|] == s[..|r|];
    }
  }

  /** `s.strip()`: never longer than `s`, and with no whitespace left at either end. */
  function Strip(s: string): (r: string)
    ensures |r| <= |s| && Unpadded(r)
  {
    var t := TrimStart(s);
    TrimStartSpec(s);
    TrimEndSpec(t);
    var r := TrimEnd(t);
    assert r != [] ==> r[0] == t[0];
    r
  }

  /** Strip removes a whitespace prefix and a whitespace suffix and leaves an unpadded middle. */
  lemma StripBounds(s: string) returns (i: nat, j: nat)
    ensures i <= j <= |s| && Strip(s) == s[i..j]
    ensures forall k :: 0 <= k < i ==> IsWhitespace(s[k])
    ensures forall k :: j <= k < |s| ==> IsWhitespace(s[k])
    ensures Unpadded(Strip(s))
  {
    var t := TrimStart(s);
    var u := TrimEnd(t);
    TrimStartSpec(s);
    TrimEndSpec(t);
    i := |s| - |t|;
    j := i + |u|;
    assert t == s[i..];
    assert u == t[..|u|];
    assert Strip(s) == u;
    forall k | j <= k < |s| ensures IsWhitespace(s[k]) {
      assert s[k] == t[k - i];
    }
    assert s[i..j] == t[..|u|];
  }

  /** TrimStart drops exactly a whitespace prefix that ends at a non-whitespace character (or the end). */
  lemma {:induction false} TrimStartDrops(s: string, n: nat)
    requires n <= |s| && forall k :: 0 <= k < n ==> IsWhitespace(s[k])
    requires n == |s| || !IsWhitespace(s[n])
    ensures TrimStart(s) == s[n..]
    decreases n
  {
    if n > 0 {
      var t := s[1..];
      assert TrimStart(s) == TrimStart(t);
      TrimStartDrops(t, n - 1);
      assert t[n - 1..] == s[n..];
    }
  }

  /** TrimEnd drops exactly a whitespace suffix that starts after a non-whitespace character (or the start). */
  lemma {:induction false} TrimEndDrops(s: string, n: nat)
    requires n <= |s| && forall k :: n <= k < |s| ==> IsWhitespace(s[k])
    requires n == 0 || !IsWhitespace(s[n - 1])
    ensures TrimEnd(s) == s[..n]
    decreases |s| - n
  {
    if n < |s| {
      var p := s[..|s| - 1];
      assert TrimEnd(s) == TrimEnd(p);
      TrimEndDrops(p, n);
      assert p[..n] == s[..n];
    }
  }

  /** Whitespace padding around an unpadded core is exactly what strip() removes. */
  lemma StripPadded(left: string, core: string, right: string)
    requires AllWhitespace(left) && AllWhitespace(right) && Unpadded(core)
    ensures Strip(left + core + right) == core
  {
    var s := left + core + right;
    if core == [] {
      assert s == left + right;
      assert forall k :: 0 <= k < |s| ==> IsWhitespace(s[k]) by {
        forall k | 0 <= k < |s| ensures IsWhitespace(s[k]) {
          if k < |left| { assert s[k] == left[k]; } else { assert s[k] == right[k - |left|]; }
        }
      }
      assert s[..|s|] == s;
      TrimStartDrops(s, |s|);
      assert TrimStart(s) == [];
    } else {
      assert s[..|left|] == left;
      assert s[|left|] == core[0];
      TrimStartDrops(s, |left|);
      var t := s[|left|..];
      assert t == core + right;
      assert t[|core|..] == right;
      assert t[|core| - 1] == core[|core| - 1];
      TrimEndDrops(t, |core|);
      assert t[..|core|] == core;
    }
  }

  /** strip() is the identity on unpadded strings. */
  lemma StripUnpadded(s: string)
    requires Unpadded(s)
    ensures Strip(s) == s
  {
    StripPadded([], s, []);
    assert [] + s + [] == s;
  }

  /** strip() is idempotent. */
  lemma StripIdempotent(s: string)
    ensures Strip(Strip(s)) == Strip(s)
  {
    var _, _ := StripBounds(s);
    StripUnpadded(Strip(s));
  }

  /** `needle` occurs in `hay` starting at index `i`. */
  ghost predicate OccursAt(needle: string, hay: string, i: int) {
    0 <= i && i + |needle| <= |hay| && hay[i..i + |needle|] == needle
  }

  /** Python's `needle in hay` for strings: true for the empty needle and for `hay` itself, false for a longer needle. */
  function Contains(needle: string, hay: string): (b: bool)
    ensures b ==> |needle| <= |hay|
    ensures needle == [] ==> b
    ensures needle == hay ==> b
    decreases |hay|
  {
    if |hay| < |needle| then false
    else if hay[..|needle|] == needle then true
    else Contains(needle, hay[1..])
  }

  /** Contains is substring occurrence at some position. */
  lemma {:induction false} ContainsIff(needle: string, hay: string)
    ensures Contains(needle, hay) <==> exists i :: OccursAt(needle, hay, i)
    decreases |hay|
  {
    if |hay| < |needle| {
    } else if hay[..|needle|] == needle {
      assert OccursAt(needle, hay, 0);
    } else {
      ContainsIff(needle, hay[1..]);
      assert hay[0..|needle|] == hay[..|needle|];
      forall i | OccursAt(needle, hay[1..], i) ensures OccursAt(needle, hay, i + 1) {
        assert hay[1..][i..i + |needle|] == hay[i + 1..i + 1 + |needle|];
      }
      forall i | OccursAt(needle, hay, i) ensures OccursAt(needle, hay[1..], i - 1) {
        assert hay[1..][i - 1..i - 1 + |needle|] == hay[i..i + |needle|];
      }
    }
  }

  /** A witness occurrence establishes Contains. */
  lemma ContainsAt(needle: string, hay: string, i: int)
    requires OccursAt(needle, hay, i)
    ensures Contains(needle, hay)
  {
    ContainsIff(needle, hay);
  }

  /** An occurrence in `hay` is still an occurrence after text is put in front of it. */
  lemma ContainsAfterPrefix(needle: string, prefix: string, hay: string)
    requires Contains(needle, hay)
    ensures Contains(needle, prefix + hay)
  {
    ContainsIff(needle, hay);
    var i :| OccursAt(needle, hay, i);
    assert (prefix + hay)[|prefix| + i..|prefix| + i + |needle|] == hay[i..i + |needle|];
    ContainsAt(needle, prefix + hay, |prefix| + i);
  }

  /** An occurrence that lies inside the window `s[i..j]` is an occurrence in that window. */
  lemma OccursInWindow(needle: string, s: string, k: int, i: int, j: int)
    requires OccursAt(needle, s, k) && 0 <= i <= k && k + |needle| <= j <= |s|
    ensures OccursAt(needle, s[i..j], k - i)
  {
    var w := s[i..j];
    forall m | 0 <= m < |needle| ensures w[k - i + m] == needle[m] {
      assert w[k - i + m] == s[k + m];
      assert s[k..k + |needle|][m] == s[k + m];
    }
    assert w[k - i..k - i + |needle|] == needle;
  }

  /** An occurrence of an unpadded, non-empty needle cannot overlap whitespace padding. */
  lemma OccurrenceAvoidsPadding(needle: string, s: string, k: int, i: int, j: int)
    requires needle != [] && Unpadded(needle) && OccursAt(needle, s, k)
    requires 0 <= i <= j <= |s|
    requires forall m :: 0 <= m < i ==> IsWhitespace(s[m])
    requires forall m :: j <= m < |s| ==> IsWhitespace(s[m])
    ensures i <= k && k + |needle| <= j
  {
    var e := k + |needle| - 1;
    assert s[k] == needle[0] by { assert s[k..k + |needle|][0] == s[k]; }
    assert s[e] == needle[|needle| - 1] by { assert s[k..k + |needle|][|needle| - 1] == s[e]; }
  }

  /** A needle that is unpadded and non-empty is found in `strip(s)` whenever it is found in `s`. */
  lemma ContainsStrip(needle: string, s: string)
    requires needle != [] && Unpadded(needle)
    requires Contains(needle, s)
    ensures Contains(needle, Strip(s))
  {
    ContainsIff(needle, s);
    var k :| OccursAt(needle, s, k);
    var i, j := StripBounds(s);
    OccurrenceAvoidsPadding(needle, s, k, i, j);
    OccursInWindow(needle, s, k, i, j);
    ContainsAt(needle, Strip(s), k - i);
  }
}
