/**
  The server's SVG extraction: `svgRaw.match(/<svg[\s\S]*<\/svg>/i)[0]`,
  written as index arithmetic on strings.

  Without the `u` flag, `/i` compares characters after ASCII-only case
  folding (a non-ASCII character never folds onto an ASCII one), so only the
  letters of `svg` vary in case; `<`, `/` and `>` are literal. `[\s\S]*`
  matches any characters, line breaks included, and is greedy.
 */
module SvgMatch {
  import opened Wrappers

  /** `c` is the lower-case ASCII letter `lower` or its upper-case form. */
  predicate SameLetterIgnoringCase(c: char, lower: char)
    requires 'a' <= lower <= 'z'
  {
    c == lower || c as int == lower as int - 32
  }

  /** An opening tag `<svg` (any letter case) starts at index `i`. */
  predicate OpenAt(s: string, i: int) {
    && 0 <= i && i + 4 <= |s|
    && s[i] == '<'
    && SameLetterIgnoringCase(s[i + 1], 's')
    && SameLetterIgnoringCase(s[i + 2], 'v')
    && SameLetterIgnoringCase(s[i + 3], 'g')
  }

  /** A closing tag `</svg>` (any letter case) starts at index `j`. */
  predicate CloseAt(s: string, j: int) {
    && 0 <= j && j + 6 <= |s|
    && s[j] == '<' && s[j + 1] == '/'
    && SameLetterIgnoringCase(s[j + 2], 's')
    && SameLetterIgnoringCase(s[j + 3], 'v')
    && SameLetterIgnoringCase(s[j + 4], 'g')
    && s[j + 5] == '>'
  }

  /**
    The pattern matches exactly `s[a..b]`: `<svg` at `a`, then anything, then
    `</svg>` ending at `b`.
   */
  predicate PatternAt(s: string, a: int, b: int) {
    0 <= a && a + 10 <= b <= |s| && OpenAt(s, a) && CloseAt(s, b - 6)
  }

  /**
    What `String.prototype.match` returns for a non-global regular expression:
    the match that starts leftmost and, among those, the one the greedy
    `[\s\S]*` makes longest.
   */
  ghost predicate IsLeftmostGreedy(s: string, a: int, b: int) {
    && PatternAt(s, a, b)
    && (forall a', b' :: 0 <= a' < a && a' <= b' ==> !PatternAt(s, a', b'))
    && (forall b' :: b < b' ==> !PatternAt(s, a, b'))
  }

  /** The first opening tag at or after `from`. */
  function FirstOpen(s: string, from: nat): (r: Option<nat>)
    requires from <= |s|
    ensures r.Some? ==> from <= r.value && OpenAt(s, r.value)
    ensures forall i :: from <= i && (r.None? || i < r.value) ==> !OpenAt(s, i)
    decreases |s| - from
  {
    if from + 4 > |s| then None
    else if OpenAt(s, from) then Some(from)
    else FirstOpen(s, from + 1)
  }

  /** The last closing tag starting in `lo..hi` (inclusive). */
  function LastClose(s: string, lo: nat, hi: int): (r: Option<nat>)
    ensures r.Some? ==> lo <= r.value <= hi && CloseAt(s, r.value)
    ensures forall j :: j <= hi && (if r.None? then lo <= j else r.value < j) ==> !CloseAt(s, j)
    decreases hi - lo + 1
  {
    if hi < lo then None
    else if CloseAt(s, hi) then Some(hi)
    else LastClose(s, lo, hi - 1)
  }

  /**
    The span `[a, b)` of the match, or None when the pattern matches nowhere.
    The search looks for `</svg>` only at or after the end of the first `<svg`.
   */
  function MatchSpan(s: string): (r: Option<(nat, nat)>)
    ensures r.Some? ==> IsLeftmostGreedy(s, r.value.0, r.value.1)
    ensures r.None? <==> forall a, b :: !PatternAt(s, a, b)
  {
    match FirstOpen(s, 0)
    case None => None
    case Some(a) =>
      match LastClose(s, a + 4, |s| - 6)
      case None => None
      case Some(j) => Some((a, j + 6))
  }

  /** The matched text, `match[0]`, or None where `match` returns null. */
  function Extract(s: string): (r: Option<string>)
    ensures r.None? <==> forall a, b :: !PatternAt(s, a, b)
    ensures r.Some? ==> exists a, b :: IsLeftmostGreedy(s, a, b) && r.value == s[a..b]
    ensures r.Some? ==> PatternAt(r.value, 0, |r.value|)
  {
    match MatchSpan(s)
    case None => None
    case Some((a, b)) =>
      var t := s[a..b];
      assert OpenAt(t, 0) && CloseAt(t, |t| - 6);
      Some(t)
  }

  /** The leftmost-greedy match is unique: at most one span satisfies it. */
  lemma LeftmostGreedyUnique(s: string, a: int, b: int, a': int, b': int)
    requires IsLeftmostGreedy(s, a, b) && IsLeftmostGreedy(s, a', b')
    ensures a == a' && b == b'
  {
  }

  /** A text that the pattern matches as a whole is its own match. */
  lemma {:induction false} ExtractWhole(t: string)
    requires PatternAt(t, 0, |t|)
    ensures Extract(t) == Some(t)
  {
    assert FirstOpen(t, 0) == Some(0);
    assert LastClose(t, 4, |t| - 6) == Some(|t| - 6);
    assert t[0..|t|] == t;
  }

  /** Extraction is idempotent: extracting from its own output changes nothing. */
  lemma {:induction false} ExtractIdempotent(s: string)
    requires Extract(s).Some?
    ensures Extract(Extract(s).value) == Extract(s)
  {
    ExtractWhole(Extract(s).value);
  }
}
