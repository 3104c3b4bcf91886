/**
 * The template engine of gormx/dsn.go: optional segments in square brackets and named
 * placeholders, filled from a map whose iteration order is arbitrary.
 */
module DsnTemplate {
  import opened Strings

  /** A placeholder and its encoded value. */
  datatype Binding = Binding(key: string, value: string)

  // ---- strings.NewReplacer(pairs...).Replace ----

  /** The first pair, in argument order, whose key starts the text; |pairs| if none does. */
  function FirstMatch(t: string, pairs: seq<Binding>): (i: nat)
    ensures i <= |pairs|
    ensures i < |pairs| ==> pairs[i].key != "" && pairs[i].key <= t
    ensures forall j | 0 <= j < i :: pairs[j].key == "" || !(pairs[j].key <= t)
  {
    if pairs == [] || (pairs[0].key != "" && pairs[0].key <= t) then 0 else 1 + FirstMatch(t, pairs[1..])
  }

  /** At each position the first matching key is replaced; replaced text is not looked at again. */
  function Replace(t: string, pairs: seq<Binding>): string
    decreases |t|
  {
    if t == "" then ""
    else
      var i := FirstMatch(t, pairs);
      if i < |pairs| then pairs[i].value + Replace(t[|pairs[i].key|..], pairs)
      else [t[0]] + Replace(t[1..], pairs)
  }

  /** No key starts another one. */
  predicate PrefixFree(pairs: seq<Binding>) {
    && (forall i | 0 <= i < |pairs| :: pairs[i].key != "")
    && (forall i, j | 0 <= i < |pairs| && 0 <= j < |pairs| && pairs[i].key <= pairs[j].key :: pairs[i] == pairs[j])
  }

  predicate SameBindings(pairs: seq<Binding>, pairs': seq<Binding>) {
    (forall b | b in pairs :: b in pairs') && (forall b | b in pairs' :: b in pairs)
  }

  /** Two prefix-free lists of the same pairs match alike at every text. */
  lemma SameMatch(t: string, pairs: seq<Binding>, pairs': seq<Binding>)
    requires PrefixFree(pairs) && PrefixFree(pairs') && SameBindings(pairs, pairs')
    ensures var i, j := FirstMatch(t, pairs), FirstMatch(t, pairs');
            (i < |pairs| <==> j < |pairs'|) && (i < |pairs| ==> pairs[i] == pairs'[j])
  {
    var i, j := FirstMatch(t, pairs), FirstMatch(t, pairs');
    if i < |pairs| {
      assert pairs[i] in pairs;
      var k :| 0 <= k < |pairs'| && pairs'[k] == pairs[i];
      PrefixesOfOneText(t, pairs'[k].key, pairs'[j].key);
    }
    if j < |pairs'| {
      assert pairs'[j] in pairs';
      var k :| 0 <= k < |pairs| && pairs[k] == pairs'[j];
    }
  }

  /** The result does not depend on the order in which the map yields its entries. */
  lemma {:induction false} OrderIndependent(t: string, pairs: seq<Binding>, pairs': seq<Binding>)
    requires PrefixFree(pairs) && PrefixFree(pairs') && SameBindings(pairs, pairs')
    ensures Replace(t, pairs) == Replace(t, pairs')
    decreases |t|
  {
    if t != "" {
      SameMatch(t, pairs, pairs');
      var i := FirstMatch(t, pairs);
      OrderIndependent(if i < |pairs| then t[|pairs[i].key|..] else t[1..], pairs, pairs');
    }
  }

  // ---- the template decides, not the values ----

  datatype Token = Literal(c: char) | Slot(i: nat)

  function Keys(pairs: seq<Binding>): seq<string> {
    seq(|pairs|, i requires 0 <= i < |pairs| => pairs[i].key)
  }

  function FirstKey(t: string, keys: seq<string>): (i: nat)
    ensures i <= |keys|
    ensures i < |keys| ==> keys[i] != "" && keys[i] <= t
  {
    if keys == [] || (keys[0] != "" && keys[0] <= t) then 0 else 1 + FirstKey(t, keys[1..])
  }

  /** How a template reads, whatever the values are. */
  function Tokens(t: string, keys: seq<string>): seq<Token>
    decreases |t|
  {
    if t == "" then []
    else
      var i := FirstKey(t, keys);
      if i < |keys| then [Slot(i)] + Tokens(t[|keys[i]|..], keys)
      else [Literal(t[0])] + Tokens(t[1..], keys)
  }

  function Fill(tokens: seq<Token>, values: seq<string>): string {
    if tokens == [] then ""
    else
      (match tokens[0]
       case Literal(c) => [c]
       case Slot(i) => if i < |values| then values[i] else "")
      + Fill(tokens[1..], values)
  }

  function Values(pairs: seq<Binding>): seq<string> {
    seq(|pairs|, i requires 0 <= i < |pairs| => pairs[i].value)
  }

  lemma {:induction false} FirstKeyIsFirstMatch(t: string, pairs: seq<Binding>)
    ensures FirstKey(t, Keys(pairs)) == FirstMatch(t, pairs)
  {
    if pairs != [] {
      assert Keys(pairs)[1..] == Keys(pairs[1..]);
      FirstKeyIsFirstMatch(t, pairs[1..]);
    }
  }

  /** Inserted values are never expanded again: each goes verbatim into a slot fixed by the template alone. */
  lemma {:induction false} ValuesAreVerbatim(t: string, pairs: seq<Binding>)
    ensures Replace(t, pairs) == Fill(Tokens(t, Keys(pairs)), Values(pairs))
    decreases |t|
  {
    if t != "" {
      FirstKeyIsFirstMatch(t, pairs);
      var i := FirstMatch(t, pairs);
      ValuesAreVerbatim(if i < |pairs| then t[|pairs[i].key|..] else t[1..], pairs);
    }
  }

  // ---- reading a template piece by piece ----

  predicate BraceKeys(pairs: seq<Binding>) {
    forall i | 0 <= i < |pairs| :: pairs[i].key != "" && pairs[i].key[0] == '{'
  }

  lemma {:induction false} LiteralText(text: string, rest: string, pairs: seq<Binding>)
    requires BraceKeys(pairs) && '{' !in text
    ensures Replace(text + rest, pairs) == text + Replace(rest, pairs)
  {
    if text == "" {
      assert text + rest == rest;
    } else {
      assert (text + rest)[1..] == text[1..] + rest;
      LiteralText(text[1..], rest, pairs);
    }
  }

  lemma Placeholder(i: nat, rest: string, pairs: seq<Binding>)
    requires PrefixFree(pairs) && i < |pairs|
    ensures Replace(pairs[i].key + rest, pairs) == pairs[i].value + Replace(rest, pairs)
  {
    var t := pairs[i].key + rest;
    var j := FirstMatch(t, pairs);
    PrefixesOfOneText(t, pairs[i].key, pairs[j].key);
    assert t[|pairs[i].key|..] == rest;
  }

  // ---- optional segments ----

  type Bindings = map<string, string>

  /** Every placeholder that occurs in the segment has a value. */
  predicate Ready(segment: string, values: Bindings) {
    forall key | key in values && values[key] == "" :: !Contains(segment, key)
  }

  method SegmentReady(segment: string, values: Bindings) returns (ready: bool)
    ensures ready <==> Ready(segment, values)
  {
    var keys := values.Keys;
    while keys != {}
      invariant keys <= values.Keys
      invariant forall key | key in values && key !in keys && values[key] == "" :: !Contains(segment, key)
      decreases |keys|
    {
      var key :| key in keys;
      if values[key] == "" && Contains(segment, key) {
        return false;
      }
      keys := keys - {key};
    }
    return true;
  }

  datatype Cut = NoSegment | Cut(before: string, segment: string, after: string)

  /** The first bracketed segment; an opening bracket that is never closed is plain text. */
  function FirstSegment(t: string): (cut: Cut)
    ensures cut.Cut? ==> |cut.after| < |t|
  {
    var start := IndexOf(t, '[');
    if start == |t| then NoSegment
    else
      var end := IndexOf(t[start..], ']');
      if end == |t| - start then NoSegment
      else Cut(t[..start], t[start + 1..start + end], t[start + end + 1..])
  }

  /** A template from left to right: text before a segment stays, the segment stays if it is ready. */
  function Expanded(template: string, values: Bindings): string
    decreases |template|
  {
    match FirstSegment(template)
    case NoSegment => template
    case Cut(before, segment, after) =>
      before + (if Ready(segment, values) then segment else "") + Expanded(after, values)
  }

  lemma Regrouped(a: string, b: string, c: string, d: string)
    ensures a + (b + c + d) == a + b + c + d
  {
  }

  method ExpandOptional(template: string, values: Bindings) returns (r: string)
    ensures r == Expanded(template, values)
  {
    r := "";
    var rest := template;
    while true
      invariant Expanded(template, values) == r + Expanded(rest, values)
      decreases |rest|
    {
      var cut := FirstSegment(rest);
      if cut.NoSegment? {
        return r + rest;
      }
      var ready := SegmentReady(cut.segment, values);
      var kept := if ready then cut.segment else "";
      Regrouped(r, cut.before, kept, Expanded(cut.after, values));
      r := r + cut.before + kept;
      rest := cut.after;
    }
  }

  lemma Bracketed(before: string, segment: string, after: string)
    requires '[' !in before && ']' !in segment
    ensures FirstSegment(before + ("[" + segment + "]" + after)) == Cut(before, segment, after)
  {
    var tail := "[" + segment + "]" + after;
    var t := before + tail;
    assert t[..|before|] == before && t[|before|..] == tail;
    IndexOfUnique(t, '[', |before|);
    var m := 1 + |segment|;
    assert tail[..m] == "[" + segment;
    IndexOfUnique(tail, ']', m);
    assert t[|before| + 1..|before| + m] == segment;
    assert t[|before| + m + 1..] == after;
  }

  /** A segment is kept without its brackets exactly when all its placeholders have values, else dropped whole. */
  lemma SegmentKeptIffReady(before: string, segment: string, after: string, values: Bindings)
    requires '[' !in before && ']' !in segment
    ensures Expanded(before + ("[" + segment + "]" + after), values) ==
            before + (if Ready(segment, values) then segment else "") + Expanded(after, values)
  {
    Bracketed(before, segment, after);
  }

  /** An opening bracket that is never closed is text like any other. */
  lemma UnclosedIsKept(before: string, rest: string, values: Bindings)
    requires '[' !in before && ']' !in rest
    ensures Expanded(before + "[" + rest, values) == before + "[" + rest
  {
    var t := before + "[" + rest;
    assert t[..|before|] == before && t[|before|..] == "[" + rest;
    IndexOfUnique(t, '[', |before|);
    IndexOfUnique(t[|before|..], ']', |t| - |before|);
  }

  lemma WithoutSegment(template: string, values: Bindings)
    requires '[' !in template
    ensures Expanded(template, values) == template
  {
    IndexOfUnique(template, '[', |template|);
  }

  // ---- substitute ----

  predicate Lists(pairs: seq<Binding>, values: Bindings) {
    && (forall b | b in pairs :: b.key in values && values[b.key] == b.value)
    && (forall key | key in values :: Binding(key, values[key]) in pairs)
  }

  predicate PrefixFreeKeys(keys: set<string>) {
    "" !in keys && forall k, k' | k in keys && k' in keys && k <= k' :: k == k'
  }

  lemma ListsArePrefixFree(pairs: seq<Binding>, values: Bindings)
    requires Lists(pairs, values) && PrefixFreeKeys(values.Keys)
    ensures PrefixFree(pairs)
  {
    forall i | 0 <= i < |pairs| ensures pairs[i].key in values.Keys && values[pairs[i].key] == pairs[i].value {
      assert pairs[i] in pairs;
    }
  }

  /** The pairs are collected in whatever order the map yields them. */
  method Substitute(template: string, values: Bindings) returns (r: string)
    requires PrefixFreeKeys(values.Keys)
    ensures forall pairs | Lists(pairs, values) :: r == Replace(template, pairs)
  {
    var pairs: seq<Binding> := [];
    var keys := values.Keys;
    while keys != {}
      invariant keys <= values.Keys
      invariant forall b | b in pairs :: b.key in values && values[b.key] == b.value
      invariant forall key | key in values && key !in keys :: Binding(key, values[key]) in pairs
      decreases |keys|
    {
      var key :| key in keys;
      pairs := pairs + [Binding(key, values[key])];
      keys := keys - {key};
    }
    r := Replace(template, pairs);
    forall pairs' | Lists(pairs', values) ensures r == Replace(template, pairs') {
      ListsArePrefixFree(pairs, values);
      ListsArePrefixFree(pairs', values);
      OrderIndependent(template, pairs, pairs');
    }
  }
}
