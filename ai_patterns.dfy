/** The fixed regular expressions of the meal-plan adapter, each written as a
    dedicated matcher with the search semantics of JavaScript's engine:
    tag extraction `<t>(.*?)</t>` (leftmost start, shortest content), the
    `<think>` section and marker removals, and the blank-line collapse. */
module AiPatterns {
  import opened Wrappers
  import opened Text

  function OpenTag(name: string): string { "<" + name + ">" }
  function CloseTag(name: string): string { "</" + name + ">" }

  /** Where a lazy `(.*?)` followed by `close` stops when it starts at p: the first
      occurrence of `close` at or after p. Without the dot-all flag `.` cannot
      step over a line terminator, so a terminator met first ends the attempt. */
  function CloseAfter(s: string, close: string, p: nat, dotAll: bool, fold: bool): (r: Option<nat>)
    requires p <= |s|
    decreases |s| - p
    ensures r.Some? ==> p <= r.value && MatchesAt(s, close, r.value, fold)
    ensures r.Some? ==> forall k :: p <= k < r.value ==> !MatchesAt(s, close, k, fold)
    ensures r.Some? && !dotAll ==> forall k :: p <= k < r.value ==> !IsLineTerminator(s[k])
    ensures r.None? ==> forall j :: p <= j <= |s| && MatchesAt(s, close, j, fold) ==>
      !dotAll && exists k :: p <= k < j && IsLineTerminator(s[k])
  {
    if MatchesAt(s, close, p, fold) then Some(p)
    else if p == |s| || (!dotAll && IsLineTerminator(s[p])) then None
    else CloseAfter(s, close, p + 1, dotAll, fold)
  }

  /** `<name>(.*?)</name>` attempted at position i: where the captured text ends. */
  function TagMatchAt(s: string, name: string, i: nat, dotAll: bool, fold: bool): Option<nat>
    requires i <= |s|
  {
    if MatchesAt(s, OpenTag(name), i, fold) then
      CloseAfter(s, CloseTag(name), i + |OpenTag(name)|, dotAll, fold)
    else None
  }

  /** One match of `<name>(.*?)</name>`: it spans s[start..end] and captures
      s[contentStart..contentEnd]. */
  datatype TagMatch = TagMatch(start: nat, contentStart: nat, contentEnd: nat, end: nat)

  ghost predicate IsMatch(s: string, name: string, m: TagMatch, dotAll: bool, fold: bool) {
    && m.start <= m.contentStart <= m.contentEnd <= m.end <= |s|
    && m.contentStart == m.start + |OpenTag(name)|
    && m.end == m.contentEnd + |CloseTag(name)|
    && TagMatchAt(s, name, m.start, dotAll, fold) == Some(m.contentEnd)
  }

  /** Some match of `<name>(.*?)</name>` starts at i. */
  ghost predicate MatchStarts(s: string, name: string, i: nat, dotAll: bool, fold: bool) {
    i <= |s| && TagMatchAt(s, name, i, dotAll, fold).Some?
  }

  /** `s.match(re)` for a non-global `re`: the match with the leftmost start at or
      after `from`. */
  function FirstTagMatch(s: string, name: string, from: nat, dotAll: bool, fold: bool): (r: Option<TagMatch>)
    requires from <= |s|
    decreases |s| - from
    ensures r.Some? ==> from <= r.value.start && IsMatch(s, name, r.value, dotAll, fold)
    ensures forall i :: from <= i <= |s| && (r.None? || i < r.value.start) ==>
      TagMatchAt(s, name, i, dotAll, fold).None?
  {
    match TagMatchAt(s, name, from, dotAll, fold)
    case Some(e) =>
      Some(TagMatch(from, from + |OpenTag(name)|, e, e + |CloseTag(name)|))
    case None =>
      if from == |s| then None else FirstTagMatch(s, name, from + 1, dotAll, fold)
  }

  /** `[...s.matchAll(re)]` for a global `re`: successive leftmost matches, each
      search resuming where the previous match ended. */
  function AllTagMatches(s: string, name: string, from: nat, dotAll: bool, fold: bool): (r: seq<TagMatch>)
    requires from <= |s|
    decreases |s| - from
    ensures forall k :: 0 <= k < |r| ==> from <= r[k].start && IsMatch(s, name, r[k], dotAll, fold)
    ensures forall k :: 0 <= k < |r| - 1 ==> r[k].end <= r[k + 1].start
  {
    match FirstTagMatch(s, name, from, dotAll, fold)
    case None => []
    case Some(m) =>
      var rest := AllTagMatches(s, name, m.end, dotAll, fold);
      MatchesBeforeRest(x => IsMatch(s, name, x, dotAll, fold), from, m, rest);
      [m] + rest
  }

  /** The scan misses no match: every position where a match starts, from `from`
      on, is the start of a reported match or lies inside one. */
  lemma {:induction false} AllTagMatchesComplete(s: string, name: string, from: nat, dotAll: bool, fold: bool)
    requires from <= |s|
    ensures var r := AllTagMatches(s, name, from, dotAll, fold);
      forall i :: from <= i && MatchStarts(s, name, i, dotAll, fold) ==>
        exists k :: 0 <= k < |r| && r[k].start <= i < r[k].end
    decreases |s| - from
  {
    match FirstTagMatch(s, name, from, dotAll, fold)
    case None =>
    case Some(m) =>
      var rest := AllTagMatches(s, name, m.end, dotAll, fold);
      AllTagMatchesComplete(s, name, m.end, dotAll, fold);
      CoverStep(s, name, from, dotAll, fold, m, rest);
      assert AllTagMatches(s, name, from, dotAll, fold) == [m] + rest;
  }

  /** One step of that: the first match, then the matches after it. */
  lemma CoverStep(s: string, name: string, from: nat, dotAll: bool, fold: bool, m: TagMatch, rest: seq<TagMatch>)
    requires from <= |s| && FirstTagMatch(s, name, from, dotAll, fold) == Some(m)
    requires forall i :: m.end <= i && MatchStarts(s, name, i, dotAll, fold) ==>
      exists k :: 0 <= k < |rest| && rest[k].start <= i < rest[k].end
    ensures forall i :: from <= i && MatchStarts(s, name, i, dotAll, fold) ==>
      exists k :: 0 <= k < |[m] + rest| && ([m] + rest)[k].start <= i < ([m] + rest)[k].end
  {
    var r := [m] + rest;
    forall i | from <= i && MatchStarts(s, name, i, dotAll, fold)
      ensures exists k :: 0 <= k < |r| && r[k].start <= i < r[k].end
    {
      if i < m.end {
        assert r[0] == m;
      } else {
        var k :| 0 <= k < |rest| && rest[k].start <= i < rest[k].end;
        assert r[k + 1] == rest[k];
      }
    }
  }

  /** A match followed by matches that all start after its end keeps the
      properties of AllTagMatches, whatever property `ok` each match has. */
  lemma MatchesBeforeRest(ok: TagMatch -> bool, from: nat, m: TagMatch, rest: seq<TagMatch>)
    requires from <= m.start <= m.end && ok(m)
    requires forall k :: 0 <= k < |rest| ==> m.end <= rest[k].start && ok(rest[k])
    requires forall k :: 0 <= k < |rest| - 1 ==> rest[k].end <= rest[k + 1].start
    ensures forall k :: 0 <= k < |[m] + rest| ==> from <= ([m] + rest)[k].start && ok(([m] + rest)[k])
    ensures forall k :: 0 <= k < |[m] + rest| - 1 ==> ([m] + rest)[k].end <= ([m] + rest)[k + 1].start
  {
    var r := [m] + rest;
    assert r[0] == m;
    assert forall k :: 1 <= k < |r| ==> r[k] == rest[k - 1];
  }

  /** The captured text of a match. */
  function Captured(s: string, m: TagMatch): string
    requires m.contentStart <= m.contentEnd <= |s|
  {
    s[m.contentStart..m.contentEnd]
  }

  /** The stop CloseAfter reports is the first reachable occurrence of `close`. */
  lemma CloseAfterIs(s: string, close: string, p: nat, j: nat, dotAll: bool, fold: bool)
    requires p <= j <= |s| && MatchesAt(s, close, j, fold)
    requires forall k :: p <= k < j ==> !MatchesAt(s, close, k, fold) && (dotAll || !IsLineTerminator(s[k]))
    ensures CloseAfter(s, close, p, dotAll, fold) == Some(j)
  {
  }

  /** The match FirstTagMatch reports is the one with the leftmost start. */
  lemma FirstTagMatchIs(s: string, name: string, from: nat, i: nat, e: nat, dotAll: bool, fold: bool)
    requires from <= i <= |s| && TagMatchAt(s, name, i, dotAll, fold) == Some(e)
    requires forall k :: from <= k < i ==> TagMatchAt(s, name, k, dotAll, fold).None?
    ensures FirstTagMatch(s, name, from, dotAll, fold)
         == Some(TagMatch(i, i + |OpenTag(name)|, e, e + |CloseTag(name)|))
  {
  }

  /** Upper-casing maps no character other than '<' itself to '<'. */
  lemma SameCharAsAngle(c: char, fold: bool)
    ensures SameChar(c, '<', fold) <==> c == '<'
    ensures SameChar('<', c, fold) <==> c == '<'
  {
  }

  /** No occurrence of `lit` in s, in any letter case the flag allows. */
  ghost predicate Lacks(s: string, lit: string, fold: bool) {
    forall k :: 0 <= k <= |s| ==> !MatchesAt(s, lit, k, fold)
  }

  /** Without case folding, lacking a literal is not containing it. */
  lemma LacksIsNotContains(s: string, lit: string)
    ensures Lacks(s, lit, false) <==> !Contains(s, lit)
  {
    ContainsMeans(s, lit);
  }

  /** A literal that holds '<' as its first character and nowhere else, as every
      tag and marker does. */
  ghost predicate AngleFirst(lit: string) {
    |lit| > 0 && lit[0] == '<' && forall t :: 0 < t < |lit| ==> lit[t] != '<'
  }

  /** Tags of a name without '<' hold '<' only at their start. */
  lemma TagsAreAngleFirst(name: string)
    requires '<' !in name
    ensures AngleFirst(OpenTag(name)) && AngleFirst(CloseTag(name))
  {
    var o, c := OpenTag(name), CloseTag(name);
    forall t | 0 < t < |o| ensures o[t] != '<' {
      if t <= |name| {
        assert o[t] == name[t - 1];
      }
    }
    forall t | 0 < t < |c| ensures c[t] != '<' {
      if 1 < t <= |name| + 1 {
        assert c[t] == name[t - 2];
      }
    }
  }

  /** One differing position rules an occurrence out. */
  lemma NoMatchAtOffset(s: string, lit: string, k: nat, t: nat, fold: bool)
    requires t < |lit| && k + t < |s| && !SameChar(s[k + t], lit[t], fold)
    ensures !MatchesAt(s, lit, k, fold)
  {
  }

  /** An occurrence that ends inside a slice is an occurrence in the slice. */
  lemma MatchesInSlice(s: string, x: string, lit: string, p: nat, q: nat, k: nat, fold: bool)
    requires p <= k && k + |lit| <= q <= |s| && x == s[p..q]
    ensures MatchesAt(s, lit, k, fold) <==> MatchesAt(x, lit, k - p, fold)
  {
    if MatchesAt(s, lit, k, fold) {
      forall t | 0 <= t < |lit| ensures SameChar(x[k - p + t], lit[t], fold) {
        assert x[k - p + t] == s[k + t];
      }
    }
    if MatchesAt(x, lit, k - p, fold) {
      forall t | 0 <= t < |lit| ensures SameChar(s[k + t], lit[t], fold) {
        assert x[k - p + t] == s[k + t];
      }
    }
  }

  /** Before a '<' at q, a literal with '<' only at its start can begin only where it
      lies wholly inside s[p..q]; so when that slice lacks it, it begins nowhere in
      the slice. */
  lemma {:induction false} NoOccurrenceBefore(s: string, x: string, lit: string, p: nat, q: nat, fold: bool)
    requires p <= q < |s| && x == s[p..q] && s[q] == '<'
    requires AngleFirst(lit) && Lacks(x, lit, fold)
    ensures forall k :: p <= k < q ==> !MatchesAt(s, lit, k, fold)
  {
    forall k | p <= k < q ensures !MatchesAt(s, lit, k, fold) {
      if k + |lit| <= q {
        MatchesInSlice(s, x, lit, p, q, k, fold);
      } else {
        SameCharAsAngle(lit[q - k], fold);
        NoMatchAtOffset(s, lit, k, q - k, fold);
      }
    }
  }

  /** Text without '<' lacks every literal that starts with '<'. */
  lemma {:induction false} PlainLacks(s: string, lit: string, fold: bool)
    requires '<' !in s && |lit| > 0 && lit[0] == '<'
    ensures Lacks(s, lit, fold)
  {
    forall k | 0 <= k <= |s| ensures !MatchesAt(s, lit, k, fold) {
      if k < |s| {
        SameCharAsAngle(s[k], fold);
        NoMatchAt(s, lit, k, fold);
      }
    }
  }

  /** A slice that agrees with a literal character by character holds an occurrence of it. */
  lemma {:induction false} SliceMatches(s: string, x: string, i: nat, lit: string, fold: bool)
    requires i + |x| <= |s| && s[i..i + |x|] == x
    requires |x| == |lit| && forall k :: 0 <= k < |x| ==> SameChar(x[k], lit[k], fold)
    ensures MatchesAt(s, lit, i, fold)
  {
    forall k | 0 <= k < |lit| ensures SameChar(s[i + k], lit[k], fold) {
      assert s[i + k] == s[i..i + |x|][k];
    }
  }

  /** No match can start before the first '<' of the text. */
  lemma {:induction false} NoTagMatchBefore(s: string, name: string, i: nat, dotAll: bool, fold: bool)
    requires i <= |s| && '<' !in s[..i]
    ensures forall k :: 0 <= k < i ==> TagMatchAt(s, name, k, dotAll, fold).None?
  {
    forall k | 0 <= k < i ensures !MatchesAt(s, OpenTag(name), k, fold) {
      assert s[k] == s[..i][k];
      SameCharAsAngle(s[k], fold);
      NoMatchAt(s, OpenTag(name), k, fold);
    }
  }

  /** A tag pair at i whose closing tag starts at j: no opening tag starts before i,
      no closing tag starts inside the content s[i + |OpenTag(name)|..j], and without
      the dot-all flag the content holds no line terminator. */
  ghost predicate LoneTagPair(s: string, name: string, i: nat, j: nat, dotAll: bool, fold: bool) {
    && i + |OpenTag(name)| <= j <= |s|
    && (forall k :: 0 <= k < i ==> !MatchesAt(s, OpenTag(name), k, fold))
    && (forall k :: i + |OpenTag(name)| <= k < j ==> !MatchesAt(s, CloseTag(name), k, fold))
    && (dotAll || forall k :: i + |OpenTag(name)| <= k < j ==> !IsLineTerminator(s[k]))
    && MatchesAt(s, OpenTag(name), i, fold) && MatchesAt(s, CloseTag(name), j, fold)
  }

  /** Such a pair is matched at i, and no match starts before it. */
  lemma {:induction false} LoneTagPairMatches(s: string, name: string, i: nat, j: nat, dotAll: bool, fold: bool)
    requires LoneTagPair(s, name, i, j, dotAll, fold)
    ensures TagMatchAt(s, name, i, dotAll, fold) == Some(j)
    ensures forall k :: 0 <= k < i ==> TagMatchAt(s, name, k, dotAll, fold).None?
  {
    CloseAfterIs(s, CloseTag(name), i + |OpenTag(name)|, j, dotAll, fold);
  }

  /** The first match in s is such a tag pair, capturing its content. */
  lemma {:induction false} FirstTagAt(s: string, name: string, i: nat, p: nat, j: nat, e: nat, dotAll: bool, fold: bool)
    requires p == i + |OpenTag(name)| && e == j + |CloseTag(name)|
    requires LoneTagPair(s, name, i, j, dotAll, fold)
    ensures FirstTagMatch(s, name, 0, dotAll, fold) == Some(TagMatch(i, p, j, e))
    ensures Captured(s, TagMatch(i, p, j, e)) == s[p..j]
  {
    LoneTagPairMatches(s, name, i, j, dotAll, fold);
    FirstTagMatchIs(s, name, 0, i, j, dotAll, fold);
  }

  /** Where the five parts of a concatenation sit in it. */
  lemma ConcatSlices(s: string, a: string, o: string, b: string, cl: string, rest: string)
    requires s == a + o + b + cl + rest
    ensures s[..|a|] == a && s[|a|..|a| + |o|] == o
    ensures s[|a| + |o|..|a| + |o| + |b|] == b
    ensures s[|a| + |o| + |b|..|a| + |o| + |b| + |cl|] == cl
    ensures s[|a| + |o| + |b| + |cl|..] == rest
  {
  }

  /** A text that starts with text a holding no opening tag, then an opening tag o
      written in any letter case the flag allows, content b holding no closing tag
      (and no line terminator without the dot-all flag), and a closing tag cl. */
  ghost predicate TaggedPrefix(s: string, a: string, o: string, b: string, cl: string,
                               name: string, dotAll: bool, fold: bool) {
    && |a| + |o| + |b| + |cl| <= |s|
    && s[..|a|] == a && s[|a|..|a| + |o|] == o
    && s[|a| + |o|..|a| + |o| + |b|] == b
    && s[|a| + |o| + |b|..|a| + |o| + |b| + |cl|] == cl
    && '<' !in name && Lacks(a, OpenTag(name), fold) && Lacks(b, CloseTag(name), fold)
    && (dotAll || forall k :: 0 <= k < |b| ==> !IsLineTerminator(b[k]))
    && |o| == |OpenTag(name)| && (forall k :: 0 <= k < |o| ==> SameChar(o[k], OpenTag(name)[k], fold))
    && |cl| == |CloseTag(name)| && (forall k :: 0 <= k < |cl| ==> SameChar(cl[k], CloseTag(name)[k], fold))
  }

  /** Such a text holds a lone tag pair. */
  lemma {:induction false} TagPartsInText(s: string, a: string, o: string, b: string, cl: string,
                       name: string, dotAll: bool, fold: bool)
    requires TaggedPrefix(s, a, o, b, cl, name, dotAll, fold)
    ensures LoneTagPair(s, name, |a|, |a| + |o| + |b|, dotAll, fold)
  {
    var i := |a|;
    var p := |a| + |o|;
    var j := p + |b|;
    TagsAreAngleFirst(name);
    SliceMatches(s, o, i, OpenTag(name), fold);
    SliceMatches(s, cl, j, CloseTag(name), fold);
    assert s[i] == o[0] && s[j] == cl[0];
    SameCharAsAngle(o[0], fold);
    SameCharAsAngle(cl[0], fold);
    assert s[0..i] == a;
    NoOccurrenceBefore(s, a, OpenTag(name), 0, i, fold);
    NoOccurrenceBefore(s, b, CloseTag(name), p, j, fold);
    if !dotAll {
      forall k | p <= k < j ensures !IsLineTerminator(s[k]) {
        assert s[k] == s[p..j][k - p];
      }
    }
  }

  /** In such a text the first match is that tag pair. */
  lemma {:induction false} FirstTagIn(s: string, a: string, o: string, b: string, cl: string,
                   name: string, dotAll: bool, fold: bool)
    requires TaggedPrefix(s, a, o, b, cl, name, dotAll, fold)
    ensures FirstTagMatch(s, name, 0, dotAll, fold)
         == Some(TagMatch(|a|, |a| + |o|, |a| + |o| + |b|, |a| + |o| + |b| + |cl|))
  {
    var m := TagMatch(|a|, |a| + |o|, |a| + |o| + |b|, |a| + |o| + |b| + |cl|);
    TagPartsInText(s, a, o, b, cl, name, dotAll, fold);
    FirstTagAt(s, name, m.start, m.contentStart, m.contentEnd, m.end, dotAll, fold);
  }

  /** A text made of text a without an opening tag, an opening tag written in any
      letter case the flag allows, content b without a closing tag (on one line
      without the dot-all flag), a closing tag and the rest: its first match is that
      tag pair, capturing b. This is all the lazy pattern needs; in particular a may
      hold other markup, and the rest anything at all. */
  lemma {:induction false} FirstTagCaptures(s: string, a: string, o: string, b: string, cl: string, rest: string,
                                            name: string, dotAll: bool, fold: bool)
    requires s == a + o + b + cl + rest
    requires '<' !in name && Lacks(a, OpenTag(name), fold) && Lacks(b, CloseTag(name), fold)
    requires dotAll || forall k :: 0 <= k < |b| ==> !IsLineTerminator(b[k])
    requires |o| == |OpenTag(name)| && forall k :: 0 <= k < |o| ==> SameChar(o[k], OpenTag(name)[k], fold)
    requires |cl| == |CloseTag(name)| && forall k :: 0 <= k < |cl| ==> SameChar(cl[k], CloseTag(name)[k], fold)
    ensures var m := TagMatch(|a|, |a| + |o|, |a| + |o| + |b|, |a| + |o| + |b| + |cl|);
      FirstTagMatch(s, name, 0, dotAll, fold) == Some(m) && Captured(s, m) == b
  {
    var m := TagMatch(|a|, |a| + |o|, |a| + |o| + |b|, |a| + |o| + |b| + |cl|);
    ConcatSlices(s, a, o, b, cl, rest);
    FirstTagIn(s, a, o, b, cl, name, dotAll, fold);
    assert Captured(s, m) == b;
  }

  // ---------------------------------------------------------------------------
  // <think> sections

  /** No occurrence of `lit` can begin inside p, whatever follows p: p holds no '<',
      or p is markup whose only '<' leads it and that differs from `lit` before p
      ends. */
  ghost predicate CannotStart(p: string, lit: string, fold: bool) {
    || '<' !in p
    || (AngleFirst(p) && exists d :: 0 <= d < |p| && d < |lit| && !SameChar(p[d], lit[d], fold))
  }

  /** Such a piece put in front of text lacking `lit` keeps it lacking. */
  lemma LacksPrepend(x: string, w: string, lit: string, fold: bool)
    requires |lit| > 0 && lit[0] == '<' && CannotStart(x, lit, fold) && Lacks(w, lit, fold)
    ensures Lacks(x + w, lit, fold)
  {
    var s := x + w;
    forall k | 0 <= k <= |s| ensures !MatchesAt(s, lit, k, fold) {
      if k < |x| {
        if k == 0 && '<' in x {
          var d :| 0 <= d < |x| && d < |lit| && !SameChar(x[d], lit[d], fold);
          assert s[d] == x[d];
          NoMatchAtOffset(s, lit, 0, d, fold);
        } else {
          assert s[k] == x[k] && x[k] != '<';
          SameCharAsAngle(s[k], fold);
          NoMatchAt(s, lit, k, fold);
        }
      } else if k + |lit| <= |s| {
        MatchesInSlice(s, w, lit, |x|, |s|, k, fold);
      }
    }
  }

  /** `<tag>body</tag>`. */
  function Element(tag: string, body: string): string {
    OpenTag(tag) + body + CloseTag(tag)
  }

  /** An element with '<'-free content, followed by '<'-free text and then text
      lacking `lit`, lacks `lit` when each of its tags differs from `lit` at the given
      position. */
  lemma ElementLacks(tag: string, body: string, after: string, w: string, lit: string, dOpen: nat, dClose: nat)
    requires '<' !in tag && '<' !in body && '<' !in after
    requires |lit| > 0 && lit[0] == '<' && Lacks(w, lit, false)
    requires dOpen < |OpenTag(tag)| && dOpen < |lit| && OpenTag(tag)[dOpen] != lit[dOpen]
    requires dClose < |CloseTag(tag)| && dClose < |lit| && CloseTag(tag)[dClose] != lit[dClose]
    ensures Lacks(Element(tag, body) + (after + w), lit, false)
  {
    var o, cl := OpenTag(tag), CloseTag(tag);
    TagsAreAngleFirst(tag);
    assert !SameChar(o[dOpen], lit[dOpen], false) && !SameChar(cl[dClose], lit[dClose], false);
    LacksPrepend(after, w, lit, false);
    LacksPrepend(cl, after + w, lit, false);
    LacksPrepend(body, cl + (after + w), lit, false);
    LacksPrepend(o, body + (cl + (after + w)), lit, false);
    assert Element(tag, body) + (after + w) == o + (body + (cl + (after + w)));
  }

  /** A suffix of text lacking `lit` lacks it too. */
  lemma LacksSuffix(s: string, e: nat, lit: string, fold: bool)
    requires e <= |s| && Lacks(s, lit, fold)
    ensures Lacks(s[e..], lit, fold)
  {
    forall k | 0 <= k <= |s[e..]| ensures !MatchesAt(s[e..], lit, k, fold) {
      if k + |lit| <= |s| - e {
        MatchesInSlice(s, s[e..], lit, e, |s|, k + e, fold);
      }
    }
  }

  /** Without an opening tag after a prefix p, no match starts after it. */
  lemma NoMatchAfter(s: string, p: string, w: string, name: string, dotAll: bool, fold: bool)
    requires s == p + w && Lacks(w, OpenTag(name), fold)
    ensures FirstTagMatch(s, name, |p|, dotAll, fold).None?
  {
    assert s[|p|..] == w;
    forall i | |p| <= i <= |s| ensures !MatchesAt(s, OpenTag(name), i, fold) {
      if i + |OpenTag(name)| <= |s| {
        MatchesInSlice(s, w, OpenTag(name), |p|, |s|, i, fold);
      }
    }
  }

  const Think: string := "<think>"
  const ThinkEnd: string := "</think>"

  /** `s.replace(/<think>[\s\S]*?<\/think>/g, "")`: from the first `<think>`, up to
      and including the first `</think>` after it, is removed; the search resumes
      after the removed span and stops at the first `<think>` left unclosed. */
  function StripThinkSections(s: string): (r: string)
    decreases |s|
    ensures |r| <= |s|
  {
    match IndexOf(s, Think, 0)
    case None => s
    case Some(i) =>
      match IndexOf(s, ThinkEnd, i + |Think|)
      case None => s
      case Some(j) => s[..i] + StripThinkSections(s[j + |ThinkEnd|..])
  }

  /** `s.replace(/<\/?think>/g, "")`: one left-to-right pass deleting every
      `<think>` and `</think>` marker. */
  function RemoveThinkMarkers(s: string): (r: string)
    decreases |s|
    ensures |r| <= |s|
  {
    if s == [] then []
    else if MatchesAt(s, Think, 0, false) then RemoveThinkMarkers(s[|Think|..])
    else if MatchesAt(s, ThinkEnd, 0, false) then RemoveThinkMarkers(s[|ThinkEnd|..])
    else [s[0]] + RemoveThinkMarkers(s[1..])
  }

  /** A marker met after text that does not contain it is first found there. */
  lemma {:induction false} MarkerAfter(s: string, x: string, lit: string, p: nat, q: nat)
    requires p <= q && q + |lit| <= |s| && x == s[p..q] && !Contains(x, lit) && AngleFirst(lit)
    requires s[q..q + |lit|] == lit
    ensures IndexOf(s, lit, p) == Some(q)
  {
    LacksIsNotContains(x, lit);
    assert s[q] == s[q..q + |lit|][0];
    NoOccurrenceBefore(s, x, lit, p, q, false);
    MatchesAtSlice(s, lit, q);
    IndexOfIs(s, lit, p, q);
  }

  lemma MarkersAreAngleFirst()
    ensures AngleFirst(Think) && AngleFirst(ThinkEnd)
  {
  }

  /** Where the first section is found, one step of the removal. */
  lemma {:induction false} StripFirstSection(s: string, i: nat, j: nat)
    requires i + |Think| <= j && j + |ThinkEnd| <= |s|
    requires IndexOf(s, Think, 0) == Some(i) && IndexOf(s, ThinkEnd, i + |Think|) == Some(j)
    ensures StripThinkSections(s) == s[..i] + StripThinkSections(s[j + |ThinkEnd|..])
  {
  }

  /** A matched `<think>…</think>` section vanishes with its contents, the text
      before it is kept as it is, and the removal goes on after it: the section
      found is the first `<think>`, closed by the first `</think>` after it. */
  lemma {:induction false} ThinkSectionRemoved(a: string, b: string, c: string)
    requires !Contains(a, Think) && !Contains(b, ThinkEnd)
    ensures StripThinkSections(a + Think + b + ThinkEnd + c) == a + StripThinkSections(c)
  {
    var s := a + Think + b + ThinkEnd + c;
    var i := |a|;
    var j := |a| + |Think| + |b|;
    ConcatSlices(s, a, Think, b, ThinkEnd, c);
    assert s[0..i] == a;
    MarkersAreAngleFirst();
    MarkerAfter(s, a, Think, 0, i);
    MarkerAfter(s, b, ThinkEnd, i + |Think|, j);
    StripFirstSection(s, i, j);
  }

  /** Text without '<' holds no marker and passes through both removals unchanged. */
  lemma {:induction false} PlainTextKept(s: string)
    requires '<' !in s
    ensures StripThinkSections(s) == s
    ensures RemoveThinkMarkers(s) == s
  {
    NotContainsWithoutFirst(s, Think);
    if s != [] {
      NoMatchAt(s, Think, 0, false);
      NoMatchAt(s, ThinkEnd, 0, false);
      PlainTextKept(s[1..]);
      assert s == [s[0]] + s[1..];
    }
  }

  /** One step of the marker pass over a character that starts no marker. */
  lemma MarkerPassKeeps(s: string)
    requires s != [] && !MatchesAt(s, Think, 0, false) && !MatchesAt(s, ThinkEnd, 0, false)
    ensures RemoveThinkMarkers(s) == [s[0]] + RemoveThinkMarkers(s[1..])
  {
  }

  /** A character other than '<' starts no marker and is kept. */
  lemma MarkerPassKeepsChar(c: char, w: string)
    requires c != '<'
    ensures RemoveThinkMarkers([c] + w) == [c] + RemoveThinkMarkers(w)
  {
    var s := [c] + w;
    NoMatchAt(s, Think, 0, false);
    NoMatchAt(s, ThinkEnd, 0, false);
    MarkerPassKeeps(s);
    assert s[1..] == w;
  }

  /** A '<' followed by neither "/" nor "thi" then "n" starts no marker. */
  lemma AngleStartsNoMarker(w: string)
    requires |w| >= 4 && w[0] != '/' && w[3] != 'n'
    ensures !MatchesAt(['<'] + w, Think, 0, false) && !MatchesAt(['<'] + w, ThinkEnd, 0, false)
  {
    var s := ['<'] + w;
    assert s[1] == w[0] && s[4] == w[3];
    assert Think[4] == 'n' && ThinkEnd[1] == '/';
    MatchedPair(s, Think, 0, 3);
    MatchedPair(s, ThinkEnd, 0, 0);
  }

  /** Such a '<' is kept. */
  lemma MarkerPassKeepsAngle(w: string)
    requires |w| >= 4 && w[0] != '/' && w[3] != 'n'
    ensures RemoveThinkMarkers(['<'] + w) == ['<'] + RemoveThinkMarkers(w)
  {
    var s := ['<'] + w;
    AngleStartsNoMarker(w);
    MarkerPassKeeps(s);
    assert s[1..] == w;
  }

  /** A leading `<think>` marker is deleted. */
  lemma MarkerPassDropsThink(w: string)
    ensures RemoveThinkMarkers(Think + w) == RemoveThinkMarkers(w)
  {
    var s := Think + w;
    assert s[..|Think|] == Think;
    MatchesAtSlice(s, Think, 0);
    assert s[|Think|..] == w;
  }

  /** Keeping the first character of x, and then the rest of x, keeps all of x:
      stated over the pass's results, so that no further unfolding is needed. */
  lemma MarkerPassKeepsFirst(x: string, w: string, whole: string, rest: string, after: string)
    requires x != []
    requires whole == [x[0]] + rest && rest == x[1..] + after
    ensures x + w == [x[0]] + (x[1..] + w)
    ensures whole == x + after
  {
    assert [x[0]] + x[1..] == x;
  }

  /** The opening "<thi" of an unfinished marker is kept when what follows it does
      not complete the marker. */
  lemma MarkerPassKeepsOpening(head: string, w: string)
    requires |head| == 4 && head[0] == '<' && head[1] == 't' && head[2] == 'h' && head[3] == 'i'
    requires w != [] && w[0] != 'n'
    ensures RemoveThinkMarkers(head + w) == head + RemoveThinkMarkers(w)
  {
    var h1, h2, h3 := head[1..], head[2..], head[3..];
    assert h3[1..] == [] && h2[1..] == h3 && h1[1..] == h2 && head[1..] == h1;
    assert h3[1..] + w == w;
    var r := RemoveThinkMarkers(w);
    MarkerPassKeepsChar(head[3], w);
    MarkerPassKeepsFirst(h3, w, RemoveThinkMarkers([head[3]] + w), r, r);
    MarkerPassKeepsChar(head[2], h3 + w);
    MarkerPassKeepsFirst(h2, w, RemoveThinkMarkers([head[2]] + (h3 + w)), RemoveThinkMarkers(h3 + w), r);
    MarkerPassKeepsChar(head[1], h2 + w);
    MarkerPassKeepsFirst(h1, w, RemoveThinkMarkers([head[1]] + (h2 + w)), RemoveThinkMarkers(h2 + w), r);
    assert (h1 + w)[0] == 't' && (h1 + w)[3] == w[0];
    MarkerPassKeepsAngle(h1 + w);
    MarkerPassKeepsFirst(head, w, RemoveThinkMarkers(['<'] + (h1 + w)), RemoveThinkMarkers(h1 + w), r);
  }

  /** The marker pass does not rescan what it produced: deleting the inner marker of
      `<thi<think>nk>` splices a new `<think>` together. */
  lemma SplicedMarkerSurvives(head: string, tail: string)
    requires head == "<thi" && tail == "nk>"
    ensures RemoveThinkMarkers(head + Think + tail) == Think
  {
    var w := Think + tail;
    MarkerPassDropsThink(tail);
    PlainTextKept(tail);
    MarkerPassKeepsOpening(head, w);
    assert head + Think + tail == head + w;
    assert head + tail == Think;
  }

  /** Text lacking both markers passes the marker pass unchanged. */
  lemma {:induction false} MarkerFreeKept(s: string)
    requires Lacks(s, Think, false) && Lacks(s, ThinkEnd, false)
    ensures RemoveThinkMarkers(s) == s
    decreases |s|
  {
    if s != [] {
      MarkerPassKeeps(s);
      LacksSuffix(s, 1, Think, false);
      LacksSuffix(s, 1, ThinkEnd, false);
      MarkerFreeKept(s[1..]);
      assert [s[0]] + s[1..] == s;
    }
  }

  /** Without a closing marker, no think section is removed. */
  lemma UnclosedThinkKept(s: string)
    requires !Contains(s, ThinkEnd)
    ensures StripThinkSections(s) == s
  {
    ContainsMeans(s, ThinkEnd);
    match IndexOf(s, Think, 0)
    case None =>
    case Some(i) =>
      assert IndexOf(s, ThinkEnd, i + |Think|).None?;
  }

  // ---------------------------------------------------------------------------
  // Blank lines

  /** Number of line feeds in the maximal white-space prefix of s. */
  function RunBreaks(s: string): nat
  {
    if s == [] || !IsSpace(s[0]) then 0
    else (if s[0] == '\n' then 1 else 0) + RunBreaks(s[1..])
  }

  /** Just past the last line feed of the maximal white-space prefix of s, or 0
      when that prefix has none. */
  function RunBreaksEnd(s: string): (e: nat)
    ensures e <= |s|
    ensures RunBreaks(s[e..]) == 0
    ensures RunBreaks(s) > 0 ==> e > 0
    ensures forall k :: 0 <= k < e ==> IsSpace(s[k])
  {
    if s == [] || !IsSpace(s[0]) then 0
    else
      var e := RunBreaksEnd(s[1..]);
      if e > 0 then
        assert s[e + 1..] == s[1..][e..];
        e + 1
      else if s[0] == '\n' then 1
      else 0
  }

  /** No white-space run holds three or more line feeds. */
  ghost predicate NoTripleBreak(s: string) {
    forall i :: 0 <= i < |s| ==> RunBreaks(s[i..]) <= 2
  }

  /** `s.replace(/\n\s*\n\s*\n/g, "\n\n")`: a match starts at a line feed whose
      white-space run holds at least three line feeds and, the `\s*` being greedy,
      ends just past the last of them; it becomes exactly two line feeds. */
  function CollapseBlankLines(s: string): (r: string)
    decreases |s|
  {
    if s == [] then []
    else if s[0] == '\n' && RunBreaks(s) >= 3 then "\n\n" + CollapseBlankLines(s[RunBreaksEnd(s)..])
    else [s[0]] + CollapseBlankLines(s[1..])
  }

  lemma {:induction false} CollapseKeepsRunBound(s: string)
    ensures RunBreaks(CollapseBlankLines(s)) <= RunBreaks(s)
    ensures NoTripleBreak(CollapseBlankLines(s))
    decreases |s|
  {
    if s == [] {
    } else if s[0] == '\n' && RunBreaks(s) >= 3 {
      var rest := s[RunBreaksEnd(s)..];
      CollapseKeepsRunBound(rest);
      CollapsedRunBound(CollapseBlankLines(s), CollapseBlankLines(rest));
    } else {
      CollapseKeepsRunBound(s[1..]);
      KeptCharBound(s, CollapseBlankLines(s), CollapseBlankLines(s[1..]));
    }
  }

  /** A collapsed run followed by text that starts with no line break. */
  lemma CollapsedRunBound(r: string, x: string)
    requires r == "\n\n" + x && RunBreaks(x) == 0 && NoTripleBreak(x)
    ensures RunBreaks(r) == 2 && NoTripleBreak(r)
  {
    assert r[1..] == "\n" + x;
    assert r[2..] == x;
    forall i | 0 <= i < |r| ensures RunBreaks(r[i..]) <= 2 {
      if i >= 2 {
        assert r[i..] == x[i - 2..];
      }
    }
  }

  /** A kept character in front of collapsed text. */
  lemma KeptCharBound(s: string, r: string, x: string)
    requires s != [] && !(s[0] == '\n' && RunBreaks(s) >= 3) && r == [s[0]] + x
    requires RunBreaks(x) <= RunBreaks(s[1..]) && NoTripleBreak(x)
    ensures RunBreaks(r) <= RunBreaks(s) && NoTripleBreak(r)
  {
    assert r[1..] == x;
    if IsSpace(s[0]) {
      assert RunBreaks(s) == (if s[0] == '\n' then 1 else 0) + RunBreaks(s[1..]);
    }
    forall i | 0 <= i < |r| ensures RunBreaks(r[i..]) <= 2 {
      if i >= 1 {
        assert r[i..] == x[i - 1..];
      } else if s[0] != '\n' && IsSpace(s[0]) && x != [] {
        assert x[0..] == x;
      }
    }
  }

  /** Text without three line breaks in one white-space run is left as it is. */
  lemma {:induction false} CollapseKeepsTidyText(s: string)
    requires NoTripleBreak(s)
    ensures CollapseBlankLines(s) == s
    decreases |s|
  {
    if s != [] {
      assert s[0..] == s;
      assert NoTripleBreak(s[1..]) by {
        forall i | 0 <= i < |s[1..]| ensures RunBreaks(s[1..][i..]) <= 2 {
          assert s[1..][i..] == s[i + 1..];
        }
      }
      CollapseKeepsTidyText(s[1..]);
      assert s == [s[0]] + s[1..];
    }
  }

  /** Collapsing twice is collapsing once. */
  lemma CollapseIdempotent(s: string)
    ensures CollapseBlankLines(CollapseBlankLines(s)) == CollapseBlankLines(s)
  {
    CollapseKeepsRunBound(s);
    CollapseKeepsTidyText(CollapseBlankLines(s));
  }

  /** The characters of s other than white space, in order. */
  function NonSpace(s: string): string {
    if s == [] then [] else (if IsSpace(s[0]) then [] else [s[0]]) + NonSpace(s[1..])
  }

  /** A leading run of white space contributes nothing. */
  lemma {:induction false} NonSpaceSkipsSpace(s: string, e: nat)
    requires e <= |s| && forall k :: 0 <= k < e ==> IsSpace(s[k])
    ensures NonSpace(s) == NonSpace(s[e..])
    decreases e
  {
    if e > 0 {
      assert s[1..][e - 1..] == s[e..];
      assert forall k :: 0 <= k < e - 1 ==> s[1..][k] == s[k + 1];
      NonSpaceSkipsSpace(s[1..], e - 1);
    }
  }

  /** The collapse changes white space only: every other character is kept, in
      order, and nothing else is added. */
  lemma {:induction false} CollapseKeepsNonSpace(s: string)
    ensures NonSpace(CollapseBlankLines(s)) == NonSpace(s)
    decreases |s|
  {
    if s != [] {
      if s[0] == '\n' && RunBreaks(s) >= 3 {
        var e := RunBreaksEnd(s);
        var x := CollapseBlankLines(s[e..]);
        CollapseKeepsNonSpace(s[e..]);
        NonSpaceSkipsSpace(s, e);
        assert ("\n\n" + x)[2..] == x;
        NonSpaceSkipsSpace("\n\n" + x, 2);
      } else {
        var x := CollapseBlankLines(s[1..]);
        CollapseKeepsNonSpace(s[1..]);
        assert ([s[0]] + x)[1..] == x;
      }
    }
  }

  /** Text ending in a character other than white space: its white-space runs all
      end inside it, whatever follows. */
  predicate EndsUnspaced(a: string) {
    a == [] || !IsSpace(a[|a| - 1])
  }

  lemma {:induction false} RunBreaksBeforeText(a: string, t: string)
    requires a != [] && EndsUnspaced(a)
    ensures RunBreaks(a + t) == RunBreaks(a)
    decreases |a|
  {
    if IsSpace(a[0]) {
      assert (a + t)[1..] == a[1..] + t;
      RunBreaksBeforeText(a[1..], t);
    }
  }

  /** Collapsing leaves a prefix without triple breaks that ends in other text alone. */
  lemma {:induction false} CollapseAfterTidyPrefix(a: string, t: string)
    requires NoTripleBreak(a) && EndsUnspaced(a)
    ensures CollapseBlankLines(a + t) == a + CollapseBlankLines(t)
    decreases |a|
  {
    if a == [] {
      assert a + t == t;
    } else {
      var s := a + t;
      RunBreaksBeforeText(a, t);
      assert a[0..] == a;
      assert s[0] == a[0] && s[1..] == a[1..] + t;
      SliceKeepsNoTripleBreak(a, 1, |a|, a[1..]);
      CollapseAfterTidyPrefix(a[1..], t);
      assert a == [a[0]] + a[1..];
    }
  }

  /** A white-space run made of white space only adds its line feeds to those after it. */
  lemma {:induction false} RunBreaksOfSpace(w: string, b: string)
    requires forall k :: 0 <= k < |w| ==> IsSpace(w[k])
    ensures RunBreaks(w + b) == RunBreaks(w) + RunBreaks(b)
    decreases |w|
  {
    if w == [] {
      assert w + b == b;
    } else {
      assert (w + b)[1..] == w[1..] + b;
      RunBreaksOfSpace(w[1..], b);
    }
  }

  /** A white-space run ending in a line feed, followed by other text: the match of
      the pattern ends where the run does. */
  lemma {:induction false} RunBreaksEndOfRun(w: string, b: string)
    requires w != [] && w[|w| - 1] == '\n' && forall k :: 0 <= k < |w| ==> IsSpace(w[k])
    requires b == [] || !IsSpace(b[0])
    ensures RunBreaksEnd(w + b) == |w|
    decreases |w|
  {
    assert (w + b)[1..] == w[1..] + b;
    if |w| == 1 {
      assert w + b == [w[0]] + b;
    } else {
      RunBreaksEndOfRun(w[1..], b);
    }
  }

  /** A run that starts and ends with a line feed and holds at least three of them,
      followed by text that starts with no white space, becomes exactly two line feeds. */
  lemma CollapseLongRun(w: string, b: string)
    requires |w| > 0 && w[0] == '\n' && w[|w| - 1] == '\n' && RunBreaks(w) >= 3
    requires forall k :: 0 <= k < |w| ==> IsSpace(w[k])
    requires NoTripleBreak(b) && (b == [] || !IsSpace(b[0]))
    ensures CollapseBlankLines(w + b) == "\n\n" + b
  {
    RunBreaksOfSpace(w, b);
    RunBreaksEndOfRun(w, b);
    assert (w + b)[|w|..] == b;
    CollapseKeepsTidyText(b);
  }

  /** Each blank-line run with three or more line feeds becomes exactly "\n\n": between
      tidy text ending in other text and tidy text starting with it, such a run
      (white space from its first line feed to its last) is replaced by two line
      feeds and nothing else changes. */
  lemma CollapseRunBetween(a: string, w: string, b: string)
    requires NoTripleBreak(a) && EndsUnspaced(a)
    requires |w| > 0 && w[0] == '\n' && w[|w| - 1] == '\n' && RunBreaks(w) >= 3
    requires forall k :: 0 <= k < |w| ==> IsSpace(w[k])
    requires NoTripleBreak(b) && (b == [] || !IsSpace(b[0]))
    ensures CollapseBlankLines(a + w + b) == a + "\n\n" + b
  {
    CollapseAfterTidyPrefix(a, w + b);
    CollapseLongRun(w, b);
    Regroup(a, w, b);
    Regroup(a, "\n\n", b);
  }

  lemma Regroup(a: string, w: string, b: string)
    ensures a + w + b == a + (w + b)
  {
  }

  /** Cutting text short cannot lengthen its leading white-space run. */
  lemma {:induction false} RunBreaksOfPrefix(s: string, n: nat)
    requires n <= |s|
    ensures RunBreaks(s[..n]) <= RunBreaks(s)
    decreases n
  {
    if n > 0 && IsSpace(s[0]) {
      assert s[..n][1..] == s[1..][..n - 1];
      RunBreaksOfPrefix(s[1..], n - 1);
    }
  }

  /** A slice of text without triple line breaks has none either. */
  lemma SliceKeepsNoTripleBreak(s: string, a: nat, b: nat, t: string)
    requires a <= b <= |s| && t == s[a..b] && NoTripleBreak(s)
    ensures NoTripleBreak(t)
  {
    forall i | 0 <= i < |t| ensures RunBreaks(t[i..]) <= 2 {
      assert t[i..] == s[a + i..][..b - a - i];
      RunBreaksOfPrefix(s[a + i..], b - a - i);
    }
  }
}
