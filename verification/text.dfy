/** String helpers the browser code relies on: `String.prototype.trim` and decimal rendering of numbers. */
module Text {

  /**
    The code points `String.prototype.trim` removes: ECMAScript WhiteSpace
    (TAB, VT, FF, SP, NBSP, ZWNBSP and the Zs category) and LineTerminator
    (LF, CR, LS, PS).
   */
  predicate IsJsSpace(c: char) {
    || c == '\t' || c == '\n' || c == '\U{000B}' || c == '\U{000C}' || c == '\r'
    || c == ' ' || c == '\U{00A0}' || c == '\U{1680}'
    || ('\U{2000}' <= c <= '\U{200A}')
    || c == '\U{2028}' || c == '\U{2029}' || c == '\U{202F}' || c == '\U{205F}'
    || c == '\U{3000}' || c == '\U{FEFF}'
  }

  /** Every character of `s` in `lo..hi` is whitespace. */
  predicate SpaceBetween(s: string, lo: int, hi: int)
    requires 0 <= lo && hi <= |s|
  {
    forall i :: lo <= i < hi ==> IsJsSpace(s[i])
  }

  predicate AllSpace(s: string) {
    SpaceBetween(s, 0, |s|)
  }

  /** The end of the whitespace run starting at `i`. */
  function LeadEnd(s: string, i: nat): (a: nat)
    requires i <= |s|
    ensures i <= a <= |s| && SpaceBetween(s, i, a)
    ensures a == |s| || !IsJsSpace(s[a])
    decreases |s| - i
  {
    if i < |s| && IsJsSpace(s[i]) then LeadEnd(s, i + 1) else i
  }

  /** The start of the whitespace run ending at `j`, not going below `lo`. */
  function TrailStart(s: string, lo: nat, j: nat): (b: nat)
    requires lo <= j <= |s|
    ensures lo <= b <= j && SpaceBetween(s, b, j)
    ensures b == lo || !IsJsSpace(s[b - 1])
    decreases j - lo
  {
    if lo < j && IsJsSpace(s[j - 1]) then TrailStart(s, lo, j - 1) else j
  }

  /**
    `String.prototype.trim`: the infix of `s` left after removing whitespace
    at both ends. Empty exactly when `s` is all whitespace.
   */
  function Trim(s: string): (r: string)
    ensures var a := LeadEnd(s, 0);
      && a + |r| <= |s| && r == s[a..a + |r|]
      && SpaceBetween(s, 0, a) && SpaceBetween(s, a + |r|, |s|)
    ensures r != [] ==> !IsJsSpace(r[0]) && !IsJsSpace(r[|r| - 1])
    ensures r == [] <==> AllSpace(s)
  {
    var a := LeadEnd(s, 0);
    var b := TrailStart(s, a, |s|);
    s[a..b]
  }

  lemma {:induction false} TrimIdempotent(s: string)
    ensures Trim(Trim(s)) == Trim(s)
  {
    var r := Trim(s);
    if r != [] {
      assert LeadEnd(r, 0) == 0;
      assert TrailStart(r, 0, |r|) == |r|;
      assert r[0..|r|] == r;
    }
  }

  /** `head`, then `mid` verbatim, then `tail`: the shape of every text template here. */
  function Splice(head: string, mid: string, tail: string): (r: string)
    ensures |r| == |head| + |mid| + |tail|
    ensures r[..|head|] == head
    ensures r[|r| - |tail|..] == tail
    ensures r[|head|..|r| - |tail|] == mid
  {
    var r := head + mid + tail;
    assert r[|head|..|r| - |tail|] == mid;
    r
  }

  /** Splicing distinct texts into the same template gives distinct results. */
  lemma {:induction false} SpliceInjective(head: string, p: string, q: string, tail: string)
    requires Splice(head, p, tail) == Splice(head, q, tail)
    ensures p == q
  {
    var r := Splice(head, p, tail);
    assert p == r[|head|..|r| - |tail|];
  }

  /** The digit character for 0..9. */
  function DigitChar(d: nat): (c: char)
    requires d < 10
    ensures '0' <= c <= '9'
  {
    (48 + d) as char
  }

  /** Decimal rendering of a natural number, as JavaScript template literals print it. */
  function NatToString(n: nat): (r: string)
    ensures |r| >= 1
    ensures forall i :: 0 <= i < |r| ==> '0' <= r[i] <= '9'
    ensures |r| > 1 ==> r[0] != '0'
  {
    if n < 10 then [DigitChar(n)] else NatToString(n / 10) + [DigitChar(n % 10)]
  }

  /** Reading a string of decimal digits back as a number. */
  function DigitsValue(s: string): nat
    requires forall i :: 0 <= i < |s| ==> '0' <= s[i] <= '9'
  {
    if s == [] then 0 else DigitsValue(s[..|s| - 1]) * 10 + (s[|s| - 1] as int - 48)
  }

  /** Round trip: the rendered digits read back as the number. */
  lemma {:induction false} DigitsValueOfNatToString(n: nat)
    ensures DigitsValue(NatToString(n)) == n
  {
    if n >= 10 {
      var r := NatToString(n);
      assert r[..|r| - 1] == NatToString(n / 10);
      DigitsValueOfNatToString(n / 10);
    }
  }

  /** Distinct numbers render as distinct strings. */
  lemma NatToStringInjective(m: nat, n: nat)
    requires NatToString(m) == NatToString(n)
    ensures m == n
  {
    DigitsValueOfNatToString(m);
    DigitsValueOfNatToString(n);
  }
}
