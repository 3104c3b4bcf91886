/**
 * The operations of Go's strings package that the modelled code calls, on strings seen
 * as sequences of characters, together with the byte-wise order that Go's `<` and the
 * database's MAX use on version strings.
 */
module Strings {

  predicate HasSuffix(s: string, suffix: string) {
    |suffix| <= |s| && s[|s| - |suffix|..] == suffix
  }

  /** strings.Contains. */
  predicate Contains(s: string, sub: string) {
    sub <= s || (s != [] && Contains(s[1..], sub))
  }

  lemma PrefixesOfOneText(t: string, k: string, k': string)
    requires k <= t && k' <= t
    ensures k <= k' || k' <= k
  {
  }

  /** strings.IndexByte, with |s| standing for "not found". */
  function IndexOf(s: string, c: char): (i: nat)
    ensures i <= |s|
    ensures c !in s[..i]
    ensures i < |s| ==> s[i] == c
  {
    if s == [] || s[0] == c then 0
    else
      var k := IndexOf(s[1..], c);
      assert s[..1 + k] == [s[0]] + s[1..][..k];
      1 + k
  }

  lemma IndexOfUnique(s: string, c: char, i: nat)
    requires i <= |s| && c !in s[..i]
    requires i < |s| ==> s[i] == c
    ensures IndexOf(s, c) == i
  {
  }

  /** strings.SplitN for a one-character separator. */
  function SplitN(s: string, sep: char, n: nat): (parts: seq<string>)
    requires n > 0
    ensures 0 < |parts| <= n
    decreases n
  {
    var i := IndexOf(s, sep);
    if n == 1 || i == |s| then [s] else [s[..i]] + SplitN(s[i + 1..], sep, n - 1)
  }

  /** strings.Split: there are at most |s| separators, so the bound never bites. */
  function Split(s: string, sep: char): seq<string> {
    SplitN(s, sep, |s| + 1)
  }

  /** strings.TrimRight(s, string(c)). */
  function TrimRight(s: string, c: char): (r: string)
    ensures r <= s
    ensures r == [] || r[|r| - 1] != c
    ensures forall i | |r| <= i < |s| :: s[i] == c
  {
    if s != [] && s[|s| - 1] == c then TrimRight(s[..|s| - 1], c) else s
  }

  /** unicode.IsSpace. */
  predicate IsSpace(c: char) {
    || '\t' <= c <= '\r' || c == ' ' || c == '\U{85}' || c == '\U{A0}' || c == '\U{1680}'
    || '\U{2000}' <= c <= '\U{200A}' || '\U{2028}' <= c <= '\U{2029}'
    || c == '\U{202F}' || c == '\U{205F}' || c == '\U{3000}'
  }

  /** strings.TrimSpace. */
  function TrimSpace(s: string): string {
    TrimSpaceLeft(TrimSpaceRight(s))
  }

  function TrimSpaceLeft(s: string): (r: string)
    ensures |r| <= |s|
    ensures r != "" ==> !IsSpace(r[0])
  {
    if s != [] && IsSpace(s[0]) then TrimSpaceLeft(s[1..]) else s
  }

  function TrimSpaceRight(s: string): (r: string)
    ensures r <= s
  {
    if s != [] && IsSpace(s[|s| - 1]) then TrimSpaceRight(s[..|s| - 1]) else s
  }

  /** White space around a text that has none at its ends is trimmed, and nothing else. */
  lemma TrimSpaceTrims(a: string, s: string, b: string)
    requires (forall i | 0 <= i < |a| :: IsSpace(a[i])) && (forall i | 0 <= i < |b| :: IsSpace(b[i]))
    requires s == [] || (!IsSpace(s[0]) && !IsSpace(s[|s| - 1]))
    ensures TrimSpace(a + s + b) == s
  {
    TrimsRight(a + s, b);
    if s == [] {
      TrimsRight([], a);
      assert a + s == [] + a;
    } else {
      TrimsLeft(a, s);
    }
  }

  lemma {:induction false} TrimsRight(s: string, b: string)
    requires forall i | 0 <= i < |b| :: IsSpace(b[i])
    ensures TrimSpaceRight(s + b) == TrimSpaceRight(s)
  {
    if b == [] {
      assert s + b == s;
    } else {
      assert (s + b)[..|s + b| - 1] == s + b[..|b| - 1];
      TrimsRight(s, b[..|b| - 1]);
    }
  }

  lemma {:induction false} TrimsLeft(a: string, s: string)
    requires forall i | 0 <= i < |a| :: IsSpace(a[i])
    ensures TrimSpaceLeft(a + s) == TrimSpaceLeft(s)
  {
    if a == [] {
      assert a + s == s;
    } else {
      assert (a + s)[1..] == a[1..] + s;
      TrimsLeft(a[1..], s);
    }
  }

  /** A string is its own trimming exactly when neither end is white space. */
  lemma TrimSpaceFixed(s: string)
    ensures TrimSpace(s) == s <==> s == [] || (!IsSpace(s[0]) && !IsSpace(s[|s| - 1]))
  {
  }

  /** Go's `<` on strings. */
  predicate Less(a: string, b: string) {
    b != [] && (a == [] || a[0] < b[0] || (a[0] == b[0] && Less(a[1..], b[1..])))
  }

  lemma {:induction false} LessTransitive(a: string, b: string, c: string)
    ensures Less(a, b) && Less(b, c) ==> Less(a, c)
  {
    if a != [] && b != [] && c != [] {
      LessTransitive(a[1..], b[1..], c[1..]);
    }
  }

  lemma {:induction false} LessTotal(a: string, b: string)
    ensures !(Less(a, b) && Less(b, a))
    ensures Less(a, b) || a == b || Less(b, a)
    ensures !Less(a, a)
  {
    if a != [] && b != [] {
      LessTotal(a[1..], b[1..]);
      if a[1..] == b[1..] && a[0] == b[0] {
        assert a == [a[0]] + a[1..] == b;
      }
    }
    Irreflexive(a);
  }

  lemma {:induction false} Irreflexive(a: string)
    ensures !Less(a, a)
  {
    if a != [] {
      Irreflexive(a[1..]);
    }
  }

  /** Replacing a bound by a larger one keeps everything that was at or below it. */
  lemma NotLessTransitive(low: string, high: string, v: string)
    requires !Less(low, v) && !Less(high, low)
    ensures !Less(high, v)
  {
    LessTotal(low, v);
    LessTotal(high, low);
    LessTransitive(high, v, low);
    LessTransitive(low, high, v);
  }
}
