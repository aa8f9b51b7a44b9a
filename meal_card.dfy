/** The splitters the meal card uses to list a dish's ingredients and its cooking
    steps: JavaScript's `String.prototype.split` with three fixed separator
    patterns, followed by `.map(trim).filter(Boolean)` and a fallback. */
module MealCard {
  import opened Wrappers
  import opened Text

  /** The three separator patterns:
      `[,\n;]+` between ingredients,
      `\s*(?:\d+\.|\d+\)|•|-|→)\s+` around a step number or bullet,
      `(?<=\.)\s+` after the full stop of a sentence. */
  datatype Separator = IngredientDelimiters | StepMarker | SentenceBreak

  predicate IsIngredientDelimiter(c: char) {
    c == ',' || c == '\n' || c == ';'
  }

  predicate IsDigit(c: char) {
    '0' <= c <= '9'
  }

  predicate IsBullet(c: char) {
    c == '\U{2022}' || c == '-' || c == '\U{2192}'
  }

  /** End of the run of white space starting at i. */
  function SpaceRunEnd(s: string, i: nat): (r: nat)
    requires i <= |s|
    decreases |s| - i
    ensures i <= r <= |s| && (r < |s| ==> !IsSpace(s[r]))
    ensures forall k :: i <= k < r ==> IsSpace(s[k])
  {
    if i < |s| && IsSpace(s[i]) then SpaceRunEnd(s, i + 1) else i
  }

  /** End of the run of digits starting at i. */
  function DigitRunEnd(s: string, i: nat): (r: nat)
    requires i <= |s|
    decreases |s| - i
    ensures i <= r <= |s| && (r < |s| ==> !IsDigit(s[r]))
  {
    if i < |s| && IsDigit(s[i]) then DigitRunEnd(s, i + 1) else i
  }

  /** End of the run of ingredient delimiters starting at i. */
  function DelimiterRunEnd(s: string, i: nat): (r: nat)
    requires i <= |s|
    decreases |s| - i
    ensures i <= r <= |s|
    ensures forall k :: i <= k < r ==> IsIngredientDelimiter(s[k])
    ensures i < |s| && IsIngredientDelimiter(s[i]) ==> i < r
  {
    if i < |s| && IsIngredientDelimiter(s[i]) then DelimiterRunEnd(s, i + 1) else i
  }

  /** Just past a step number with its `.` or `)`, or past a bullet, at w. */
  function MarkerEnd(s: string, w: nat): (r: Option<nat>)
    requires w <= |s|
    ensures r.Some? ==> w < r.value <= |s|
  {
    if w == |s| then None
    else if IsDigit(s[w]) then
      var d := DigitRunEnd(s, w);
      if d < |s| && (s[d] == '.' || s[d] == ')') then Some(d + 1) else None
    else if IsBullet(s[w]) then Some(w + 1)
    else None
  }

  /** Where the separator matched at exactly position q ends, if it matches there.
      The greedy quantifiers never need to give characters back: no marker
      character is white space, and a digit run is followed by its `.` or `)` or
      by nothing usable. */
  function SeparatorEnd(sep: Separator, s: string, q: nat): (r: Option<nat>)
    requires q < |s|
    ensures r.Some? ==> q < r.value <= |s|
  {
    match sep
    case IngredientDelimiters =>
      if IsIngredientDelimiter(s[q]) then Some(DelimiterRunEnd(s, q)) else None
    case StepMarker =>
      var marker := MarkerEnd(s, SpaceRunEnd(s, q));
      if marker.Some? && marker.value < |s| && IsSpace(s[marker.value])
      then Some(SpaceRunEnd(s, marker.value))
      else None
    case SentenceBreak =>
      if q > 0 && s[q - 1] == '.' && IsSpace(s[q]) then Some(SpaceRunEnd(s, q)) else None
  }

  /** The splitting loop of `split` from piece start p, trying a separator at each
      q in turn; the text after the last separator is the final piece. */
  function SplitFrom(sep: Separator, s: string, p: nat, q: nat): (r: seq<string>)
    requires p <= q <= |s|
    decreases |s| - q
    ensures |r| > 0
  {
    if q == |s| then [s[p..]]
    else
      match SeparatorEnd(sep, s, q)
      case None => SplitFrom(sep, s, p, q + 1)
      case Some(e) => [s[p..q]] + SplitFrom(sep, s, e, e)
  }

  /** `s.split(sep)`. None of the separators matches the empty string, so the
      empty text splits into one empty piece. */
  function Split(sep: Separator, s: string): seq<string> {
    SplitFrom(sep, s, 0, 0)
  }

  /** `.map((p) => p.trim()).filter(Boolean)`. */
  function TrimNonEmpty(pieces: seq<string>): (r: seq<string>)
    ensures |r| <= |pieces|
    ensures forall k :: 0 <= k < |r| ==> r[k] != "" && IsTrimmed(r[k])
  {
    if pieces == [] then []
    else
      var t := Trim(pieces[0]);
      (if t == "" then [] else [t]) + TrimNonEmpty(pieces[1..])
  }

  function SplitIngredients(text: string): (r: seq<string>)
    ensures text == "" <==> r == []
  {
    if text == "" then []
    else
      var parts := TrimNonEmpty(Split(IngredientDelimiters, text));
      if |parts| > 0 then parts else [text]
  }

  function SplitInstructions(text: string): (r: seq<string>)
    ensures text == "" <==> r == []
    ensures r == [text] || forall k :: 0 <= k < |r| ==> r[k] != "" && IsTrimmed(r[k])
  {
    if text == "" then []
    else
      var numbered := TrimNonEmpty(Split(StepMarker, text));
      if |numbered| > 1 then numbered
      else
        var sentences := TrimNonEmpty(Split(SentenceBreak, text));
        if |sentences| > 0 then sentences else [text]
  }

  // ---------------------------------------------------------------------------
  // Ingredients

  predicate NoDelimiter(t: string) {
    forall k :: 0 <= k < |t| ==> !IsIngredientDelimiter(t[k])
  }

  /** The text with every ingredient delimiter removed. */
  function WithoutDelimiters(s: string): (r: string)
    ensures NoDelimiter(r)
  {
    if s == [] then []
    else (if IsIngredientDelimiter(s[0]) then [] else [s[0]]) + WithoutDelimiters(s[1..])
  }

  lemma {:induction false} WithoutDelimitersAppend(a: string, b: string)
    ensures WithoutDelimiters(a + b) == WithoutDelimiters(a) + WithoutDelimiters(b)
  {
    if a == [] {
      assert a + b == b;
    } else {
      assert (a + b)[0] == a[0] && (a + b)[1..] == a[1..] + b;
      WithoutDelimitersAppend(a[1..], b);
    }
  }

  lemma {:induction false} WithoutDelimitersOfDelimiters(a: string)
    requires forall k :: 0 <= k < |a| ==> IsIngredientDelimiter(a[k])
    ensures WithoutDelimiters(a) == []
  {
    if a != [] {
      assert forall k :: 0 <= k < |a[1..]| ==> a[1..][k] == a[k + 1];
      WithoutDelimitersOfDelimiters(a[1..]);
      assert IsIngredientDelimiter(a[0]);
      assert WithoutDelimiters(a) == [] + WithoutDelimiters(a[1..]);
    }
  }

  /** Splitting on delimiter runs loses nothing but the delimiters, and keeps the
      order of the text. */
  lemma {:induction false} SplitFromConcat(s: string, p: nat, q: nat)
    requires p <= q <= |s| && NoDelimiter(s[p..q])
    ensures Concat(SplitFrom(IngredientDelimiters, s, p, q)) == s[p..q] + WithoutDelimiters(s[q..])
    decreases |s| - q
  {
    var r := SplitFrom(IngredientDelimiters, s, p, q);
    if q == |s| {
      assert r == [s[p..]];
      assert Concat(r) == s[p..] + Concat([]);
    } else if !IsIngredientDelimiter(s[q]) {
      assert s[p..q + 1] == s[p..q] + [s[q]];
      SplitFromConcat(s, p, q + 1);
      assert s[q..][1..] == s[q + 1..];
    } else {
      var e := DelimiterRunEnd(s, q);
      var rest := SplitFrom(IngredientDelimiters, s, e, e);
      assert r == [s[p..q]] + rest;
      SplitFromConcat(s, e, e);
      ConcatRunStep(s, p, q, e, rest);
    }
  }

  /** One cut: the piece before a run of delimiters, then the rest. */
  lemma ConcatRunStep(s: string, p: nat, q: nat, e: nat, rest: seq<string>)
    requires p <= q <= e <= |s| && forall k :: q <= k < e ==> IsIngredientDelimiter(s[k])
    requires Concat(rest) == s[e..e] + WithoutDelimiters(s[e..])
    ensures Concat([s[p..q]] + rest) == s[p..q] + WithoutDelimiters(s[q..])
  {
    assert ([s[p..q]] + rest)[1..] == rest;
    assert s[q..] == s[q..e] + s[e..];
    WithoutDelimitersAppend(s[q..e], s[e..]);
    WithoutDelimitersOfDelimiters(s[q..e]);
  }

  lemma IngredientSplitConcat(s: string)
    ensures Concat(Split(IngredientDelimiters, s)) == WithoutDelimiters(s)
  {
    SplitFromConcat(s, 0, 0);
    assert s[0..] == s;
  }

  /** No piece of the delimiter split holds a delimiter. */
  lemma {:induction false} SplitFromHasNoDelimiter(s: string, p: nat, q: nat)
    requires p <= q <= |s| && NoDelimiter(s[p..q])
    ensures forall i :: 0 <= i < |SplitFrom(IngredientDelimiters, s, p, q)| ==>
      NoDelimiter(SplitFrom(IngredientDelimiters, s, p, q)[i])
    decreases |s| - q
  {
    var r := SplitFrom(IngredientDelimiters, s, p, q);
    if q == |s| {
      assert r == [s[p..]];
    } else if !IsIngredientDelimiter(s[q]) {
      assert s[p..q + 1] == s[p..q] + [s[q]];
      SplitFromHasNoDelimiter(s, p, q + 1);
    } else {
      var e := DelimiterRunEnd(s, q);
      SplitFromHasNoDelimiter(s, e, e);
      assert r == [s[p..q]] + SplitFrom(IngredientDelimiters, s, e, e);
    }
  }

  /** A non-empty run made only of delimiters. */
  predicate DelimiterRun(t: string) {
    t != [] && forall k :: 0 <= k < |t| ==> IsIngredientDelimiter(t[k])
  }

  /** The delimiter runs from q on, left to right. */
  function DelimiterRuns(s: string, q: nat): seq<string>
    requires q <= |s|
    decreases |s| - q
  {
    if q == |s| then []
    else if IsIngredientDelimiter(s[q]) then
      var e := DelimiterRunEnd(s, q);
      [s[q..e]] + DelimiterRuns(s, e)
    else DelimiterRuns(s, q + 1)
  }

  /** The pieces with runs put back between each two. */
  function Interleave(pieces: seq<string>, runs: seq<string>): string
    requires |runs| + 1 == |pieces|
  {
    if runs == [] then pieces[0]
    else pieces[0] + runs[0] + Interleave(pieces[1..], runs[1..])
  }

  lemma InterleaveCons(piece: string, pieces: seq<string>, run: string, runs: seq<string>)
    requires |runs| + 1 == |pieces|
    ensures Interleave([piece] + pieces, [run] + runs) == piece + run + Interleave(pieces, runs)
  {
    assert ([piece] + pieces)[1..] == pieces && ([run] + runs)[1..] == runs;
  }

  /** One cut: a piece and a run in front of an interleaving of the rest. */
  lemma RunStep(s: string, p: nat, q: nat, e: nat, rest: seq<string>, runs: seq<string>)
    requires p <= q < e <= |s| && DelimiterRun(s[q..e])
    requires |runs| + 1 == |rest| && (forall k :: 0 <= k < |runs| ==> DelimiterRun(runs[k]))
    requires Interleave(rest, runs) == s[e..]
    ensures var r, rs := [s[p..q]] + rest, [s[q..e]] + runs;
      && |rs| + 1 == |r|
      && (forall k :: 0 <= k < |rs| ==> DelimiterRun(rs[k]))
      && Interleave(r, rs) == s[p..]
  {
    var rs := [s[q..e]] + runs;
    forall k | 0 <= k < |rs| ensures DelimiterRun(rs[k]) {
      if k > 0 {
        assert rs[k] == runs[k - 1];
      }
    }
    InterleaveCons(s[p..q], rest, s[q..e], runs);
    SliceInThree(s, p, q, e);
  }

  lemma SliceInThree(s: string, p: nat, q: nat, e: nat)
    requires p <= q <= e <= |s|
    ensures s[p..] == s[p..q] + s[q..e] + s[e..]
  {
  }

  lemma {:induction false} SplitFromInterleaves(s: string, p: nat, q: nat)
    requires p <= q <= |s| && NoDelimiter(s[p..q])
    ensures var r := SplitFrom(IngredientDelimiters, s, p, q); var runs := DelimiterRuns(s, q);
      && |runs| + 1 == |r|
      && (forall k :: 0 <= k < |runs| ==> DelimiterRun(runs[k]))
      && Interleave(r, runs) == s[p..]
    decreases |s| - q
  {
    var r := SplitFrom(IngredientDelimiters, s, p, q);
    if q == |s| {
      assert r == [s[p..]];
    } else if !IsIngredientDelimiter(s[q]) {
      assert s[p..q + 1] == s[p..q] + [s[q]];
      SplitFromInterleaves(s, p, q + 1);
    } else {
      var e := DelimiterRunEnd(s, q);
      var rest, runs := SplitFrom(IngredientDelimiters, s, e, e), DelimiterRuns(s, e);
      SplitFromInterleaves(s, e, e);
      assert DelimiterRun(s[q..e]) by {
        forall k | 0 <= k < e - q ensures IsIngredientDelimiter(s[q..e][k]) {
          assert s[q..e][k] == s[q + k];
        }
      }
      RunStep(s, p, q, e, rest, runs);
    }
  }

  /** The delimiter split cuts the text exactly at its delimiter runs: the text is the
      pieces with a non-empty run of delimiters between each two, and no piece holds
      a delimiter, so every run is cut out whole. */
  lemma IngredientSplitAtRuns(s: string)
    ensures var pieces := Split(IngredientDelimiters, s); var runs := DelimiterRuns(s, 0);
      && |runs| + 1 == |pieces|
      && (forall k :: 0 <= k < |runs| ==> DelimiterRun(runs[k]))
      && (forall k :: 0 <= k < |pieces| ==> NoDelimiter(pieces[k]))
      && Interleave(pieces, runs) == s
  {
    SplitFromInterleaves(s, 0, 0);
    SplitFromHasNoDelimiter(s, 0, 0);
    assert s[0..] == s;
  }

  /** Trimming and dropping empty pieces keeps pieces free of delimiters. */
  lemma {:induction false} TrimNonEmptyHasNoDelimiter(pieces: seq<string>)
    requires forall i :: 0 <= i < |pieces| ==> NoDelimiter(pieces[i])
    ensures forall k :: 0 <= k < |TrimNonEmpty(pieces)| ==> NoDelimiter(TrimNonEmpty(pieces)[k])
  {
    if pieces != [] {
      var x := pieces[0];
      var t := Trim(x);
      assert t == x[LeadingSpace(x)..LeadingSpace(x) + |t|];
      assert NoDelimiter(t) by {
        forall k | 0 <= k < |t| ensures !IsIngredientDelimiter(t[k]) {
          assert t[k] == x[LeadingSpace(x) + k];
        }
      }
      TrimNonEmptyHasNoDelimiter(pieces[1..]);
    }
  }

  /** Each listed ingredient is non-empty, trimmed and free of delimiters, unless
      the list is the whole text kept as one item. */
  lemma IngredientsAreClean(text: string)
    ensures var r := SplitIngredients(text);
      r == [text] || forall k :: 0 <= k < |r| ==> r[k] != "" && IsTrimmed(r[k]) && NoDelimiter(r[k])
  {
    if text != "" {
      SplitFromHasNoDelimiter(text, 0, 0);
      TrimNonEmptyHasNoDelimiter(Split(IngredientDelimiters, text));
    }
  }

  lemma {:induction false} TrimNonEmptyEmpty(pieces: seq<string>)
    ensures TrimNonEmpty(pieces) == [] <==> forall i :: 0 <= i < |pieces| ==> AllSpace(pieces[i])
  {
    if pieces != [] {
      TrimNonEmptyEmpty(pieces[1..]);
      assert forall i :: 1 <= i < |pieces| ==> pieces[i] == pieces[1..][i - 1];
    }
  }

  lemma {:induction false} ConcatAllSpace(pieces: seq<string>)
    ensures AllSpace(Concat(pieces)) <==> forall i :: 0 <= i < |pieces| ==> AllSpace(pieces[i])
  {
    if pieces != [] {
      ConcatAllSpace(pieces[1..]);
      var c := Concat(pieces);
      assert c == pieces[0] + Concat(pieces[1..]);
      assert forall i :: 1 <= i < |pieces| ==> pieces[i] == pieces[1..][i - 1];
      if AllSpace(c) {
        assert forall k :: 0 <= k < |pieces[0]| ==> c[k] == pieces[0][k];
        assert forall k :: 0 <= k < |Concat(pieces[1..])| ==> c[|pieces[0]| + k] == Concat(pieces[1..])[k];
      }
    }
  }

  lemma {:induction false} WithoutDelimitersAllSpace(s: string)
    ensures AllSpace(WithoutDelimiters(s)) <==>
      forall k :: 0 <= k < |s| ==> IsIngredientDelimiter(s[k]) || IsSpace(s[k])
  {
    if s != [] {
      WithoutDelimitersAllSpace(s[1..]);
      var w := WithoutDelimiters(s);
      var head: string := if IsIngredientDelimiter(s[0]) then [] else [s[0]];
      assert w == head + WithoutDelimiters(s[1..]);
      assert forall k :: 1 <= k < |s| ==> s[k] == s[1..][k - 1];
      assert forall k :: 0 <= k < |WithoutDelimiters(s[1..])| ==>
        w[|head| + k] == WithoutDelimiters(s[1..])[k];
      if !IsIngredientDelimiter(s[0]) {
        assert w[0] == s[0];
      }
    }
  }

  /** The split finds no item, and the whole text is kept as the single item,
      exactly when the text consists of delimiters and white space only. */
  lemma IngredientsFallbackIff(text: string)
    requires text != ""
    ensures TrimNonEmpty(Split(IngredientDelimiters, text)) == [] <==>
      forall k :: 0 <= k < |text| ==> IsIngredientDelimiter(text[k]) || IsSpace(text[k])
    ensures (forall k :: 0 <= k < |text| ==> IsIngredientDelimiter(text[k]) || IsSpace(text[k])) ==>
      SplitIngredients(text) == [text]
  {
    var pieces := Split(IngredientDelimiters, text);
    IngredientSplitConcat(text);
    ConcatAllSpace(pieces);
    WithoutDelimitersAllSpace(text);
    TrimNonEmptyEmpty(pieces);
  }

  // ---------------------------------------------------------------------------
  // Instructions

  predicate EndsWithPeriod(t: string) {
    |t| > 0 && t[|t| - 1] == '.'
  }

  /** All but the last of the pieces end in a full stop. */
  predicate PeriodsBeforeLast(pieces: seq<string>) {
    forall i :: 0 <= i < |pieces| - 1 ==> EndsWithPeriod(pieces[i])
  }

  lemma ConsPeriods(piece: string, rest: seq<string>)
    requires EndsWithPeriod(piece) && PeriodsBeforeLast(rest)
    ensures PeriodsBeforeLast([piece] + rest)
  {
    var r := [piece] + rest;
    forall i | 0 <= i < |r| - 1 ensures EndsWithPeriod(r[i]) {
      if i > 0 {
        assert r[i] == rest[i - 1];
      }
    }
  }

  /** Cutting only at white space that follows a full stop leaves every piece but
      the last ending in a full stop. */
  lemma {:induction false} SentenceSplitFrom(s: string, p: nat, q: nat)
    requires p <= q <= |s| && (p == 0 || IsSpace(s[p - 1]))
    ensures PeriodsBeforeLast(SplitFrom(SentenceBreak, s, p, q))
    decreases |s| - q
  {
    if q < |s| {
      var sep := SeparatorEnd(SentenceBreak, s, q);
      if sep.None? {
        SentenceSplitFrom(s, p, q + 1);
        assert SplitFrom(SentenceBreak, s, p, q) == SplitFrom(SentenceBreak, s, p, q + 1);
      } else {
        var e := sep.value;
        assert q > 0 && s[q - 1] == '.';
        assert p < q;
        var piece := s[p..q];
        assert piece[|piece| - 1] == s[q - 1];
        assert IsSpace(s[e - 1]);
        SentenceSplitFrom(s, e, e);
        ConsPeriods(piece, SplitFrom(SentenceBreak, s, e, e));
        assert SplitFrom(SentenceBreak, s, p, q) == [piece] + SplitFrom(SentenceBreak, s, e, e);
      }
    }
  }

  /** Trimming keeps a closing full stop. */
  lemma TrimKeepsPeriod(x: string)
    requires EndsWithPeriod(x)
    ensures EndsWithPeriod(Trim(x))
  {
    var i := TrimSlice(x);
    var t := Trim(x);
    assert !IsSpace(x[|x| - 1]);
    assert i + |t| == |x|;
    assert t[|t| - 1] == x[|x| - 1];
  }

  lemma {:induction false} TrimNonEmptyKeepsPeriods(pieces: seq<string>)
    requires PeriodsBeforeLast(pieces)
    ensures PeriodsBeforeLast(TrimNonEmpty(pieces))
  {
    if |pieces| > 1 {
      var rest := pieces[1..];
      assert forall i :: 0 <= i < |rest| - 1 ==> rest[i] == pieces[i + 1];
      TrimNonEmptyKeepsPeriods(rest);
      TrimKeepsPeriod(pieces[0]);
      assert TrimNonEmpty(pieces) == [Trim(pieces[0])] + TrimNonEmpty(rest);
      ConsPeriods(Trim(pieces[0]), TrimNonEmpty(rest));
    }
  }

  /** In the sentence split, every step but the last ends in a full stop. */
  lemma SentencesEndWithPeriod(text: string)
    ensures PeriodsBeforeLast(TrimNonEmpty(Split(SentenceBreak, text)))
  {
    SentenceSplitFrom(text, 0, 0);
    assert Split(SentenceBreak, text) == SplitFrom(SentenceBreak, text, 0, 0);
    TrimNonEmptyKeepsPeriods(Split(SentenceBreak, text));
  }

  /** A non-empty run made only of white space. */
  predicate SpaceRun(t: string) {
    t != [] && forall k :: 0 <= k < |t| ==> IsSpace(t[k])
  }

  /** No full stop in t is directly followed by white space. */
  predicate NoSentenceBreak(t: string) {
    forall k :: 0 < k < |t| ==> !(t[k - 1] == '.' && IsSpace(t[k]))
  }

  predicate StartsUnspaced(t: string) {
    t == [] || !IsSpace(t[0])
  }

  /** The white-space runs after a full stop from q on, left to right, each taken
      whole. */
  function SentenceBreaks(s: string, q: nat): seq<string>
    requires q <= |s|
    decreases |s| - q
  {
    if q == |s| then []
    else if q > 0 && s[q - 1] == '.' && IsSpace(s[q]) then
      var e := SpaceRunEnd(s, q);
      [s[q..e]] + SentenceBreaks(s, e)
    else SentenceBreaks(s, q + 1)
  }

  /** One cut of the sentence split: a piece and a white-space run in front of an
      interleaving of the rest. */
  lemma SpaceRunStep(s: string, p: nat, q: nat, e: nat, rest: seq<string>, runs: seq<string>)
    requires p <= q < e <= |s| && SpaceRun(s[q..e])
    requires |runs| + 1 == |rest| && (forall k :: 0 <= k < |runs| ==> SpaceRun(runs[k]))
    requires Interleave(rest, runs) == s[e..]
    ensures var r, rs := [s[p..q]] + rest, [s[q..e]] + runs;
      && |rs| + 1 == |r|
      && (forall k :: 0 <= k < |rs| ==> SpaceRun(rs[k]))
      && Interleave(r, rs) == s[p..]
  {
    var rs := [s[q..e]] + runs;
    forall k | 0 <= k < |rs| ensures SpaceRun(rs[k]) {
      if k > 0 {
        assert rs[k] == runs[k - 1];
      }
    }
    InterleaveCons(s[p..q], rest, s[q..e], runs);
    SliceInThree(s, p, q, e);
  }

  /** The sentence split puts the text back together with its breaks. */
  lemma {:induction false} SentenceSplitInterleaves(s: string, p: nat, q: nat)
    requires p <= q <= |s|
    ensures var r := SplitFrom(SentenceBreak, s, p, q); var runs := SentenceBreaks(s, q);
      && |runs| + 1 == |r|
      && (forall k :: 0 <= k < |runs| ==> SpaceRun(runs[k]))
      && Interleave(r, runs) == s[p..]
    decreases |s| - q
  {
    var r := SplitFrom(SentenceBreak, s, p, q);
    if q == |s| {
      assert r == [s[p..]];
    } else if SeparatorEnd(SentenceBreak, s, q).None? {
      SentenceSplitInterleaves(s, p, q + 1);
    } else {
      var e := SpaceRunEnd(s, q);
      var rest, runs := SplitFrom(SentenceBreak, s, e, e), SentenceBreaks(s, e);
      SentenceSplitInterleaves(s, e, e);
      assert SpaceRun(s[q..e]) by {
        forall k | 0 <= k < e - q ensures IsSpace(s[q..e][k]) {
          assert s[q..e][k] == s[q + k];
        }
      }
      SpaceRunStep(s, p, q, e, rest, runs);
    }
  }

  /** No piece of the sentence split holds a full stop followed by white space, and
      every piece after the first starts with other text, so each run is cut out
      whole. */
  lemma {:induction false} SentencePiecesUnbroken(s: string, p: nat, q: nat)
    requires p <= q <= |s| && NoSentenceBreak(s[p..q])
    ensures var r := SplitFrom(SentenceBreak, s, p, q);
      && (forall k :: 0 <= k < |r| ==> NoSentenceBreak(r[k]))
      && (forall k :: 0 < k < |r| ==> StartsUnspaced(r[k]))
      && (StartsUnspaced(s[p..]) ==> StartsUnspaced(r[0]))
    decreases |s| - q
  {
    var r := SplitFrom(SentenceBreak, s, p, q);
    if q == |s| {
      assert r == [s[p..]];
    } else if SeparatorEnd(SentenceBreak, s, q).None? {
      NoSentenceBreakExtends(s, p, q);
      SentencePiecesUnbroken(s, p, q + 1);
      assert r == SplitFrom(SentenceBreak, s, p, q + 1);
    } else {
      var e := SpaceRunEnd(s, q);
      var rest := SplitFrom(SentenceBreak, s, e, e);
      assert NoSentenceBreak(s[e..e]);
      SentencePiecesUnbroken(s, e, e);
      assert r == [s[p..q]] + rest;
      assert StartsUnspaced(s[e..]) by {
        if e < |s| {
          assert s[e..][0] == s[e];
        }
      }
      forall k | 0 < k < |r| ensures StartsUnspaced(r[k]) && NoSentenceBreak(r[k]) {
        assert r[k] == rest[k - 1];
      }
      if q > p {
        assert s[p..][0] == s[p..q][0];
      }
    }
  }

  /** A piece grows by one character where the sentence break does not match. */
  lemma NoSentenceBreakExtends(s: string, p: nat, q: nat)
    requires p <= q < |s| && NoSentenceBreak(s[p..q]) && SeparatorEnd(SentenceBreak, s, q).None?
    ensures NoSentenceBreak(s[p..q + 1])
  {
    var t, u := s[p..q], s[p..q + 1];
    forall k | 0 < k < |u| ensures !(u[k - 1] == '.' && IsSpace(u[k])) {
      if k < |t| {
        assert u[k - 1] == t[k - 1] && u[k] == t[k];
      } else {
        assert u[k - 1] == s[q - 1] && u[k] == s[q];
      }
    }
  }

  /** The sentence split cuts the text exactly at each maximal run of white space
      that follows a full stop: the text is the pieces with such a run between each
      two, every piece but the last ends in the full stop before its run, the next
      piece starts with other text, and no piece holds a full stop followed by white
      space. */
  lemma SentenceSplitAtBreaks(s: string)
    ensures var pieces := Split(SentenceBreak, s); var runs := SentenceBreaks(s, 0);
      && |runs| + 1 == |pieces|
      && (forall k :: 0 <= k < |runs| ==> SpaceRun(runs[k]) && EndsWithPeriod(pieces[k]))
      && (forall k :: 0 < k < |pieces| ==> StartsUnspaced(pieces[k]))
      && (forall k :: 0 <= k < |pieces| ==> NoSentenceBreak(pieces[k]))
      && Interleave(pieces, runs) == s
  {
    SentenceSplitInterleaves(s, 0, 0);
    SentencePiecesUnbroken(s, 0, 0);
    SentenceSplitFrom(s, 0, 0);
    assert s[0..] == s;
  }

  /** When the step markers do not give at least two steps, the instructions are
      listed sentence by sentence: the trimmed non-empty pieces of the sentence split,
      each but the last ending in a full stop; only text of white space alone is kept
      whole. */
  lemma InstructionsBySentences(text: string)
    requires |TrimNonEmpty(Split(StepMarker, text))| <= 1
    ensures text != "" && TrimNonEmpty(Split(SentenceBreak, text)) != [] ==>
      SplitInstructions(text) == TrimNonEmpty(Split(SentenceBreak, text))
    ensures text != "" && TrimNonEmpty(Split(SentenceBreak, text)) == [] ==> SplitInstructions(text) == [text]
    ensures PeriodsBeforeLast(SplitInstructions(text))
  {
    SentencesEndWithPeriod(text);
  }

  /** Positions where the separator does not match are skipped over. */
  lemma {:induction false} SplitFromSkip(sep: Separator, s: string, p: nat, q: nat, hi: nat)
    requires p <= q <= hi <= |s|
    requires forall k :: q <= k < hi ==> SeparatorEnd(sep, s, k).None?
    ensures SplitFrom(sep, s, p, q) == SplitFrom(sep, s, p, hi)
    decreases hi - q
  {
    if q < hi {
      SplitFromSkip(sep, s, p, q + 1, hi);
    }
  }

  /** No step marker starts inside a stretch without digits or bullets that ends in
      a character other than white space. */
  lemma NoStepMarkerIn(s: string, lo: nat, hi: nat)
    requires lo < hi <= |s| && !IsSpace(s[hi - 1])
    requires forall k :: lo <= k < hi ==> !IsDigit(s[k]) && !IsBullet(s[k])
    ensures forall q :: lo <= q < hi ==> SeparatorEnd(StepMarker, s, q).None?
  {
    forall q | lo <= q < hi ensures SeparatorEnd(StepMarker, s, q).None? {
      var w := SpaceRunEnd(s, q);
      assert w < hi;
    }
  }

  /** The facts about "1. " + a + " 2. " + b the steps below rely on. */
  predicate TwoStepText(s: string, a: string, b: string) {
    && a != "" && b != "" && IsTrimmed(a) && IsTrimmed(b)
    && (forall k :: 0 <= k < |a| ==> !IsDigit(a[k]) && !IsBullet(a[k]))
    && (forall k :: 0 <= k < |b| ==> !IsDigit(b[k]) && !IsBullet(b[k]))
    && s == "1. " + a + " 2. " + b
  }

  lemma FirstStepMarker(s: string, a: string, b: string)
    requires TwoStepText(s, a, b)
    ensures SplitFrom(StepMarker, s, 0, 0) == [""] + SplitFrom(StepMarker, s, 3, 3)
  {
    assert s[0] == '1' && s[1] == '.' && s[2] == ' ' && s[3] == a[0];
    assert DigitRunEnd(s, 0) == 1;
    assert SpaceRunEnd(s, 2) == 3;
    assert SeparatorEnd(StepMarker, s, 0) == Some(3);
  }

  lemma {:induction false} SecondStepMarker(s: string, a: string, b: string)
    requires TwoStepText(s, a, b)
    ensures SplitFrom(StepMarker, s, 3, 3) == [a] + SplitFrom(StepMarker, s, |a| + 7, |a| + 7)
  {
    var la := 3 + |a|;
    var lb := la + 4;
    assert s[la] == ' ' && s[la + 1] == '2' && s[la + 2] == '.' && s[la + 3] == ' ';
    assert s[3..la] == a;
    assert s[la - 1] == a[|a| - 1] && s[lb] == b[0];
    assert forall k :: 3 <= k < la ==> s[k] == a[k - 3];
    NoStepMarkerIn(s, 3, la);
    SplitFromSkip(StepMarker, s, 3, 3, la);
    assert SpaceRunEnd(s, la) == la + 1;
    assert DigitRunEnd(s, la + 1) == la + 2;
    assert SpaceRunEnd(s, la + 3) == lb;
    assert SeparatorEnd(StepMarker, s, la) == Some(lb);
  }

  lemma LastStep(s: string, a: string, b: string)
    requires TwoStepText(s, a, b)
    ensures SplitFrom(StepMarker, s, |a| + 7, |a| + 7) == [b]
  {
    var lb := |a| + 7;
    assert s[lb..] == b;
    assert s[|s| - 1] == b[|b| - 1];
    assert forall k :: lb <= k < |s| ==> s[k] == b[k - lb];
    NoStepMarkerIn(s, lb, |s|);
    SplitFromSkip(StepMarker, s, lb, lb, |s|);
  }

  /** Two numbered steps are listed as two steps, without their numbers. */
  lemma {:induction false} TwoNumberedSteps(a: string, b: string)
    requires a != "" && b != "" && IsTrimmed(a) && IsTrimmed(b)
    requires forall k :: 0 <= k < |a| ==> !IsDigit(a[k]) && !IsBullet(a[k])
    requires forall k :: 0 <= k < |b| ==> !IsDigit(b[k]) && !IsBullet(b[k])
    ensures SplitInstructions("1. " + a + " 2. " + b) == [a, b]
  {
    var s := "1. " + a + " 2. " + b;
    assert TwoStepText(s, a, b);
    FirstStepMarker(s, a, b);
    SecondStepMarker(s, a, b);
    LastStep(s, a, b);
    assert Split(StepMarker, s) == ["", a, b];
    assert TrimNonEmpty(["", a, b]) == [a, b] by {
      assert TrimNonEmpty([b]) == [b] + TrimNonEmpty([]);
      assert ["", a, b][1..] == [a, b] && [a, b][1..] == [b];
    }
  }
}
