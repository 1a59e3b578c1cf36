/** The handful of JavaScript string operations the usage views rely on:
    `trim`, `startsWith`/`endsWith`, the first-occurrence `replace`,
    number-to-text conversion, `padStart`, and the inverse digit parser that
    the round-trip lemmas use. Strings are sequences of UTF-16-like chars. */
module Text {
  import opened Wrappers

  /** The code points `String.prototype.trim` strips: ECMAScript's WhiteSpace
      (TAB, VT, FF, ZWNBSP and the Unicode space separators) and its
      LineTerminators (LF, CR, LS, PS). */
  predicate IsSpace(c: char) {
    c == '\t' || c == '\n' || c == '\U{B}' || c == '\U{C}' || c == '\r' || c == ' ' ||
    c == '\U{A0}' || c == '\U{1680}' || ('\U{2000}' <= c <= '\U{200A}') ||
    c == '\U{2028}' || c == '\U{2029}' || c == '\U{202F}' || c == '\U{205F}' ||
    c == '\U{3000}' || c == '\U{FEFF}'
  }

  /** A string that `trim` reduces to the empty string. */
  predicate IsBlank(s: string) {
    forall i :: 0 <= i < |s| ==> IsSpace(s[i])
  }

  function TrimStart(s: string): (r: string)
    ensures |r| <= |s| && r == s[|s| - |r|..]
    ensures r == [] || !IsSpace(r[0])
    ensures forall i :: 0 <= i < |s| - |r| ==> IsSpace(s[i])
  {
    if s == [] || !IsSpace(s[0]) then s else TrimStart(s[1..])
  }

  function TrimEnd(s: string): (r: string)
    ensures |r| <= |s| && r == s[..|r|]
    ensures r == [] || !IsSpace(r[|r| - 1])
    ensures forall i :: |r| <= i < |s| ==> IsSpace(s[i])
  {
    if s == [] || !IsSpace(s[|s| - 1]) then s else TrimEnd(s[..|s| - 1])
  }

  /** `s.trim()`: the result has no white space at either end, is empty
      exactly when `s` is blank, and is a contiguous piece of `s`. */
  function Trim(s: string): (r: string)
    ensures |r| <= |s|
    ensures r == [] || (!IsSpace(r[0]) && !IsSpace(r[|r| - 1]))
    ensures r == [] <==> IsBlank(s)
  {
    var t := TrimStart(s);
    var r := TrimEnd(t);
    assert r == s[|s| - |t|..|s| - |t| + |r|];
    assert forall i :: |s| - |t| <= i < |s| ==> s[i] == t[i - (|s| - |t|)];
    r
  }

  /** No white space at either end: what `trim` leaves. */
  predicate Trimmed(s: string) {
    s == [] || (!IsSpace(s[0]) && !IsSpace(s[|s| - 1]))
  }

  /** `trim` leaves a string with no white space at either end as it is. */
  lemma TrimTrimmed(s: string)
    requires Trimmed(s)
    ensures Trim(s) == s
  {
    assert TrimStart(s) == s;
  }

  predicate StartsWith(s: string, prefix: string) {
    |prefix| <= |s| && s[..|prefix|] == prefix
  }

  predicate EndsWith(s: string, suffix: string) {
    |suffix| <= |s| && s[|s| - |suffix|..] == suffix
  }

  predicate OccursAt(s: string, pat: string, k: nat) {
    k + |pat| <= |s| && s[k..k + |pat|] == pat
  }

  /** The least index at or after `from` where `pat` occurs in `s`. */
  function IndexOfFrom(s: string, pat: string, from: nat): (r: Option<nat>)
    requires from <= |s|
    decreases |s| - from
    ensures r.Some? ==> from <= r.value && OccursAt(s, pat, r.value)
    ensures r.Some? ==> forall k: nat :: from <= k < r.value ==> !OccursAt(s, pat, k)
    ensures r.None? ==> forall k: nat :: from <= k ==> !OccursAt(s, pat, k)
  {
    if from + |pat| > |s| then None
    else if OccursAt(s, pat, from) then Some(from)
    else IndexOfFrom(s, pat, from + 1)
  }

  /** `s.indexOf(pat)`, with `None` for -1. */
  function IndexOf(s: string, pat: string): Option<nat> {
    IndexOfFrom(s, pat, 0)
  }

  /** `s.replace(pat, "")` for a string pattern: only the first occurrence
      of `pat` is removed. */
  function RemoveFirst(s: string, pat: string): string {
    match IndexOf(s, pat)
    case None => s
    case Some(k) => s[..k] + s[k + |pat|..]
  }

  /** A text put between a prefix and a suffix keeps all three parts. */
  lemma Framed(prefix: string, body: string, suffix: string)
    ensures var s := prefix + body + suffix;
      StartsWith(s, prefix) && EndsWith(s, suffix) && s[|prefix|..|s| - |suffix|] == body
  {
    var s := prefix + body + suffix;
    assert s[..|prefix|] == prefix;
    assert s[|s| - |suffix|..] == suffix;
    assert s[|prefix|..|s| - |suffix|] == body;
  }

  lemma RemoveFirstPrefix(s: string, pat: string)
    requires pat != [] && StartsWith(s, pat)
    ensures RemoveFirst(s, pat) == s[|pat|..]
  {
    assert OccursAt(s, pat, 0);
  }

  /** Removing the first `pat` from `body + pat` gives `body` back when
      `pat`'s first character does not occur in `body`. */
  lemma RemoveFirstSuffix(body: string, pat: string)
    requires pat != [] && pat[0] !in body
    ensures RemoveFirst(body + pat, pat) == body
  {
    var s := body + pat;
    assert OccursAt(s, pat, |body|);
    forall k: nat | k < |body|
      ensures !OccursAt(s, pat, k)
    {
      if k + |pat| <= |s| {
        assert s[k..k + |pat|][0] == body[k];
      }
    }
    assert IndexOf(s, pat) == Some(|body|);
    assert s[..|body|] == body;
  }

  /** The first occurrence of `pat` in `a + pat + b` is right after `a`
      when `pat`'s first character does not occur in `a`. */
  lemma IndexOfAfter(a: string, pat: string, b: string)
    requires pat != [] && pat[0] !in a
    ensures IndexOf(a + pat + b, pat) == Some(|a|)
  {
    var s := a + pat + b;
    assert OccursAt(s, pat, |a|);
    forall k: nat | k < |a|
      ensures !OccursAt(s, pat, k)
    {
      if k + |pat| <= |s| {
        assert s[k..k + |pat|][0] == a[k];
      }
    }
  }

  /** The digit character for `d`. */
  function DigitChar(d: nat): (c: char)
    requires d < 10
    ensures '0' <= c <= '9'
  {
    (('0' as int) + d) as char
  }

  predicate IsDigit(c: char) {
    '0' <= c <= '9'
  }

  predicate AllDigits(s: string) {
    forall i :: 0 <= i < |s| ==> IsDigit(s[i])
  }

  /** The decimal text of a natural number, without leading zeros: what
      JavaScript prints for a non-negative integer. */
  function Decimal(n: nat): (r: string)
    ensures r != [] && AllDigits(r)
    ensures r[0] == '0' ==> n == 0
  {
    if n < 10 then [DigitChar(n)] else Decimal(n / 10) + [DigitChar(n % 10)]
  }

  /** The text of an integer, with a leading minus sign when negative. */
  function IntText(i: int): string {
    if i < 0 then "-" + Decimal(-i) else Decimal(i)
  }

  /** `s.padStart(width, fill)`. */
  function PadStart(s: string, width: nat, fill: char): (r: string)
    ensures |r| == if |s| >= width then |s| else width
    ensures EndsWith(r, s)
    ensures forall i :: 0 <= i < |r| - |s| ==> r[i] == fill
  {
    if |s| >= width then s else seq(width - |s|, _ => fill) + s
  }

  function DigitValue(c: char): nat
    requires IsDigit(c)
  {
    (c as int) - ('0' as int)
  }

  /** The number a digit string denotes, read left to right. */
  function DigitsValue(s: string): nat
    requires AllDigits(s)
  {
    if s == [] then 0 else DigitsValue(s[..|s| - 1]) * 10 + DigitValue(s[|s| - 1])
  }

  /** The inverse of `Decimal`: a non-empty digit string's value. */
  function ParseNat(s: string): Option<nat> {
    if s != [] && AllDigits(s) then Some(DigitsValue(s)) else None
  }

  function Pow10(w: nat): (p: nat)
    ensures p >= 1
  {
    if w == 0 then 1 else 10 * Pow10(w - 1)
  }

  lemma {:induction false} DecimalValue(n: nat)
    ensures DigitsValue(Decimal(n)) == n
  {
    if n >= 10 {
      var d := Decimal(n);
      assert d[..|d| - 1] == Decimal(n / 10);
      DecimalValue(n / 10);
    }
  }

  lemma ParseDecimal(n: nat)
    ensures ParseNat(Decimal(n)) == Some(n)
  {
    DecimalValue(n);
  }

  lemma {:induction false} DecimalLength(n: nat, w: nat)
    requires 1 <= w && n < Pow10(w)
    ensures |Decimal(n)| <= w
  {
    if n >= 10 {
      assert w >= 2;
      assert n / 10 < Pow10(w - 1);
      DecimalLength(n / 10, w - 1);
    }
  }

  lemma {:induction false} ZerosValue(k: nat)
    ensures AllDigits(seq(k, _ => '0')) && DigitsValue(seq(k, _ => '0')) == 0
  {
    if k > 0 {
      assert seq(k, _ => '0')[..k - 1] == seq(k - 1, _ => '0');
      ZerosValue(k - 1);
    }
  }

  /** Leading zeros do not change a digit string's value. */
  lemma {:induction false} LeadingZerosValue(k: nat, s: string)
    requires AllDigits(s)
    ensures AllDigits(seq(k, _ => '0') + s)
    ensures DigitsValue(seq(k, _ => '0') + s) == DigitsValue(s)
  {
    var z := seq(k, _ => '0');
    if s == [] {
      assert z + s == z;
      ZerosValue(k);
    } else {
      assert (z + s)[..|z + s| - 1] == z + s[..|s| - 1];
      LeadingZerosValue(k, s[..|s| - 1]);
    }
  }

  /** The zero-padded decimal text of `n` in exactly `w` digits, when `n`
      has at most `w` digits; it parses back to `n`. */
  lemma PaddedDecimal(n: nat, w: nat)
    requires 1 <= w && n < Pow10(w)
    ensures |PadStart(Decimal(n), w, '0')| == w
    ensures AllDigits(PadStart(Decimal(n), w, '0'))
    ensures ParseNat(PadStart(Decimal(n), w, '0')) == Some(n)
  {
    DecimalLength(n, w);
    DecimalValue(n);
    var d := Decimal(n);
    if |d| < w {
      assert PadStart(d, w, '0') == seq(w - |d|, _ => '0') + d;
      LeadingZerosValue(w - |d|, d);
    }
  }
}
