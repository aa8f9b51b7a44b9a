/** The JavaScript string built-ins the application relies on (`trim`, `indexOf`,
    `includes`, `join`), over strings as sequences of characters. */
module Text {
  import opened Wrappers

  /** The characters `String.prototype.trim` removes and the regular-expression
      class `\s` matches: Unicode white space and the four line terminators. */
  predicate IsSpace(c: char) {
    || c == '\t' || c == '\n' || c == '\U{000B}' || c == '\U{000C}' || c == '\r'
    || c == ' ' || c == '\U{00A0}' || c == '\U{1680}' || ('\U{2000}' <= c <= '\U{200A}')
    || c == '\U{2028}' || c == '\U{2029}' || c == '\U{202F}' || c == '\U{205F}'
    || c == '\U{3000}' || c == '\U{FEFF}'
  }

  /** The characters the regular-expression `.` refuses without the dot-all flag. */
  predicate IsLineTerminator(c: char) {
    c == '\n' || c == '\r' || c == '\U{2028}' || c == '\U{2029}'
  }

  lemma LineTerminatorIsSpace(c: char)
    ensures IsLineTerminator(c) ==> IsSpace(c)
  {
  }

  predicate AllSpace(s: string) {
    forall k :: 0 <= k < |s| ==> IsSpace(s[k])
  }

  /** No white space at either end. */
  predicate IsTrimmed(s: string) {
    s == [] || (!IsSpace(s[0]) && !IsSpace(s[|s| - 1]))
  }

  /** Number of leading white-space characters. */
  function LeadingSpace(s: string): (i: nat)
    ensures i <= |s|
    ensures forall k :: 0 <= k < i ==> IsSpace(s[k])
    ensures i < |s| ==> !IsSpace(s[i])
  {
    if s == [] || !IsSpace(s[0]) then 0 else 1 + LeadingSpace(s[1..])
  }

  /** Length of s without its trailing white space. */
  function TrailingSpaceStart(s: string): (j: nat)
    ensures j <= |s|
    ensures forall k :: j <= k < |s| ==> IsSpace(s[k])
    ensures 0 < j ==> !IsSpace(s[j - 1])
  {
    if s == [] || !IsSpace(s[|s| - 1]) then |s| else TrailingSpaceStart(s[..|s| - 1])
  }

  /** `s.trim()`: the slice of s that starts and ends with a non-space character,
      or the empty string when s is all white space. */
  function Trim(s: string): (r: string)
    ensures IsTrimmed(r)
    ensures |r| <= |s|
    ensures LeadingSpace(s) + |r| <= |s| && r == s[LeadingSpace(s)..LeadingSpace(s) + |r|]
    ensures r == [] <==> AllSpace(s)
    ensures IsTrimmed(s) ==> r == s
  {
    var t := s[LeadingSpace(s)..];
    var r := t[..TrailingSpaceStart(t)];
    assert r != [] ==> r[0] == s[LeadingSpace(s)];
    r
  }

  /** The trimmed text is the original with only white space cut from its ends. */
  lemma TrimSlice(s: string) returns (i: nat)
    ensures i + |Trim(s)| <= |s| && Trim(s) == s[i..i + |Trim(s)|]
    ensures forall k :: 0 <= k < i ==> IsSpace(s[k])
    ensures forall k :: i + |Trim(s)| <= k < |s| ==> IsSpace(s[k])
  {
    i := LeadingSpace(s);
    var t := s[i..];
    var j := TrailingSpaceStart(t);
    assert Trim(s) == t[..j];
    forall k | i + |Trim(s)| <= k < |s| ensures IsSpace(s[k]) {
      assert s[k] == t[k - i];
    }
  }

  /** A character comparison, optionally with ASCII case folding. For the tag names
      the application searches, the case-insensitive flag of a non-Unicode regular
      expression folds exactly the ASCII letters. */
  function Upper(c: char): char {
    if 'a' <= c <= 'z' then (c as int - 32) as char else c
  }

  predicate SameChar(a: char, b: char, fold: bool) {
    if fold then Upper(a) == Upper(b) else a == b
  }

  /** The literal `lit` occurs in s at position i. */
  predicate MatchesAt(s: string, lit: string, i: nat, fold: bool) {
    i + |lit| <= |s| && forall k :: 0 <= k < |lit| ==> SameChar(s[i + k], lit[k], fold)
  }

  lemma MatchesAtSlice(s: string, lit: string, i: nat)
    ensures MatchesAt(s, lit, i, false) <==> i + |lit| <= |s| && s[i..i + |lit|] == lit
  {
    if i + |lit| <= |s| && s[i..i + |lit|] == lit {
      forall k | 0 <= k < |lit| ensures s[i + k] == lit[k] {
        assert s[i..i + |lit|][k] == s[i + k];
      }
    }
  }

  /** An occurrence of a non-empty literal begins with the literal's first character. */
  lemma MatchStartsWithFirst(s: string, lit: string, i: nat, fold: bool)
    requires |lit| > 0
    ensures MatchesAt(s, lit, i, fold) ==> i < |s| && SameChar(s[i], lit[0], fold)
  {
    if MatchesAt(s, lit, i, fold) {
      assert SameChar(s[i + 0], lit[0], fold);
    }
  }

  /** `s.indexOf(lit, from)`: the first occurrence at or after `from`. */
  function IndexOf(s: string, lit: string, from: nat): (r: Option<nat>)
    requires from <= |s|
    decreases |s| - from
    ensures r.Some? ==> from <= r.value && MatchesAt(s, lit, r.value, false)
    ensures r.Some? ==> forall k :: from <= k < r.value ==> !MatchesAt(s, lit, k, false)
    ensures r.None? ==> forall k :: from <= k <= |s| ==> !MatchesAt(s, lit, k, false)
  {
    if MatchesAt(s, lit, from, false) then Some(from)
    else if from == |s| then None
    else IndexOf(s, lit, from + 1)
  }

  /** The first occurrence at or after `from` is the one IndexOf reports. */
  lemma IndexOfIs(s: string, lit: string, from: nat, p: nat)
    requires from <= p <= |s| && MatchesAt(s, lit, p, false)
    requires forall k :: from <= k < p ==> !MatchesAt(s, lit, k, false)
    ensures IndexOf(s, lit, from) == Some(p)
  {
  }

  /** A literal cannot occur at a position holding a character other than its first. */
  lemma NoMatchAt(s: string, lit: string, k: nat, fold: bool)
    requires |lit| > 0 && k < |s| && !SameChar(s[k], lit[0], fold)
    ensures !MatchesAt(s, lit, k, fold)
  {
    MatchStartsWithFirst(s, lit, k, fold);
  }

  /** `s.includes(lit)`. */
  predicate Contains(s: string, lit: string) {
    IndexOf(s, lit, 0).Some?
  }

  lemma ContainsMeans(s: string, lit: string)
    ensures Contains(s, lit) <==> exists k :: 0 <= k <= |s| && MatchesAt(s, lit, k, false)
  {
    if !Contains(s, lit) {
      assert forall k :: 0 <= k <= |s| ==> !MatchesAt(s, lit, k, false);
    }
  }

  /** When the first character of `lit` is absent from s, s cannot contain `lit`. */
  lemma NotContainsWithoutFirst(s: string, lit: string)
    requires |lit| > 0 && lit[0] !in s
    ensures !Contains(s, lit)
  {
    forall k | 0 <= k <= |s| ensures !MatchesAt(s, lit, k, false) {
      MatchStartsWithFirst(s, lit, k, false);
    }
    ContainsMeans(s, lit);
  }

  /** Every character of an occurrence of a literal is a character of the text. */
  lemma MatchedCharIn(s: string, lit: string, k: nat, idx: nat)
    requires idx < |lit|
    ensures MatchesAt(s, lit, k, false) ==> lit[idx] in s
  {
    if MatchesAt(s, lit, k, false) {
      assert s[k + idx] == lit[idx];
    }
  }

  /** A literal cannot occur anywhere in s when one of its characters is absent from s. */
  lemma NotContainsWithout(s: string, lit: string, idx: nat)
    requires idx < |lit| && lit[idx] !in s
    ensures !Contains(s, lit)
  {
    forall k | 0 <= k <= |s| ensures !MatchesAt(s, lit, k, false) {
      MatchedCharIn(s, lit, k, idx);
    }
    ContainsMeans(s, lit);
  }

  /** A literal cannot occur anywhere in s when two of its adjacent characters never
      stand next to each other in s. */
  lemma NotContainsWithoutPair(s: string, lit: string, idx: nat)
    requires idx + 1 < |lit|
    requires forall k :: 0 <= k < |s| - 1 && s[k] == lit[idx] ==> s[k + 1] != lit[idx + 1]
    ensures !Contains(s, lit)
  {
    forall p | 0 <= p <= |s| ensures !MatchesAt(s, lit, p, false) {
      MatchedPair(s, lit, p, idx);
    }
    ContainsMeans(s, lit);
  }

  /** An occurrence of a literal shows each pair of its adjacent characters. */
  lemma MatchedPair(s: string, lit: string, p: nat, idx: nat)
    requires idx + 1 < |lit|
    ensures MatchesAt(s, lit, p, false) ==>
      p + idx + 1 < |s| && s[p + idx] == lit[idx] && s[p + idx + 1] == lit[idx + 1]
  {
    if MatchesAt(s, lit, p, false) {
      assert SameChar(s[p + idx], lit[idx], false) && SameChar(s[p + (idx + 1)], lit[idx + 1], false);
    }
  }

  /** The pieces glued back together. */
  function Concat(pieces: seq<string>): string {
    if pieces == [] then [] else pieces[0] + Concat(pieces[1..])
  }

  /** `s.startsWith(prefix)`. */
  predicate StartsWith(s: string, prefix: string) {
    |prefix| <= |s| && s[..|prefix|] == prefix
  }

  /** `parts.join(sep)`. */
  function Join(parts: seq<string>, sep: string): (r: string)
    ensures |parts| == 1 ==> r == parts[0]
  {
    if |parts| == 0 then ""
    else if |parts| == 1 then parts[0]
    else parts[0] + sep + Join(parts[1..], sep)
  }

  /** A join of several parts starts with the first part and the separator. */
  lemma JoinFirst(parts: seq<string>, sep: string)
    requires |parts| > 1
    ensures StartsWith(Join(parts, sep), parts[0] + sep)
  {
    var j := Join(parts, sep);
    assert j == (parts[0] + sep) + Join(parts[1..], sep);
  }

  /** A join of several parts ends with the separator and the last part. */
  lemma {:induction false} JoinLast(parts: seq<string>, sep: string)
    requires |parts| > 1
    ensures var j := Join(parts, sep); var t := sep + parts[|parts| - 1];
      |t| <= |j| && j[|j| - |t|..] == t
  {
    var rest := parts[1..];
    var j := Join(parts, sep);
    var t := sep + parts[|parts| - 1];
    if |parts| == 2 {
      assert j == parts[0] + t;
    } else {
      JoinLast(rest, sep);
      var jr := Join(rest, sep);
      assert rest[|rest| - 1] == parts[|parts| - 1];
      assert j == (parts[0] + sep) + jr;
      assert j[|j| - |t|..] == jr[|jr| - |t|..];
    }
  }
}
