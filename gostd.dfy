/** The few Go standard-library string operations the ingestion core relies on:
    strings.TrimPrefix, strings.Trim with cutset "/", filepath.ToSlash,
    strings.ToLower (ASCII letters only) and strconv.Itoa (non-negative values). */
module GoStd {

  // ---------------------------------------------------------------------------
  // strings.TrimPrefix
  // ---------------------------------------------------------------------------

  /** `s` without a leading `prefix`; `s` itself when it does not start with it. */
  function TrimPrefix(s: string, prefix: string): (r: string)
    ensures prefix <= s ==> prefix + r == s
    ensures !(prefix <= s) ==> r == s
  {
    if prefix <= s then s[|prefix|..] else s
  }

  // ---------------------------------------------------------------------------
  // strings.Trim(s, "/")
  // ---------------------------------------------------------------------------

  /** Every character of `s` is a slash. */
  predicate AllSlashes(s: string) {
    forall k :: 0 <= k < |s| ==> s[k] == '/'
  }

  /** strings.TrimLeft(s, "/"): drops every leading slash. */
  function TrimLeftSlashes(s: string): (r: string)
    ensures |r| <= |s| && r == s[|s| - |r|..]
    ensures AllSlashes(s[..|s| - |r|])
    ensures r == [] || r[0] != '/'
  {
    if |s| > 0 && s[0] == '/' then TrimLeftSlashes(s[1..]) else s
  }

  /** strings.TrimRight(s, "/"): drops every trailing slash. */
  function TrimRightSlashes(s: string): (r: string)
    ensures |r| <= |s| && r == s[..|r|]
    ensures AllSlashes(s[|r|..])
    ensures r == [] || r[|r| - 1] != '/'
  {
    if |s| > 0 && s[|s| - 1] == '/' then TrimRightSlashes(s[..|s| - 1]) else s
  }

  /** strings.Trim(s, "/"): the slice of `s` left after dropping slashes at both ends. */
  function TrimSlashes(s: string): (r: string)
  {
    TrimRightSlashes(TrimLeftSlashes(s))
  }

  /** The trimmed string neither starts nor ends with a slash. */
  lemma {:induction false} TrimSlashesEnds(s: string)
    ensures var r := TrimSlashes(s); r == [] || (r[0] != '/' && r[|r| - 1] != '/')
  {
  }

  /** The trimmed string is the middle of `s` between two runs of slashes, the
      first one `LeadingSlashes(s)` long. */
  lemma {:induction false} TrimSlashesMiddle(s: string)
    ensures var r, i := TrimSlashes(s), LeadingSlashes(s);
      && i + |r| <= |s| && r == s[i..i + |r|]
      && AllSlashes(s[..i]) && AllSlashes(s[i + |r|..])
  {
  }

  /** How many slashes strings.Trim drops at the front of `s`. */
  function LeadingSlashes(s: string): nat
  {
    |s| - |TrimLeftSlashes(s)|
  }

  /** Trimming twice changes nothing more. */
  lemma {:induction false} TrimSlashesIdempotent(s: string)
    ensures TrimSlashes(TrimSlashes(s)) == TrimSlashes(s)
  {
  }

  // ---------------------------------------------------------------------------
  // filepath.ToSlash
  // ---------------------------------------------------------------------------

  /** filepath.ToSlash: every occurrence of the platform separator becomes '/'. */
  function ToSlash(s: string, separator: char): (r: string)
    ensures |r| == |s|
    ensures forall k :: 0 <= k < |s| ==> r[k] == (if s[k] == separator then '/' else s[k])
  {
    if separator == '/' then s
    else seq(|s|, k requires 0 <= k < |s| => if s[k] == separator then '/' else s[k])
  }

  /** After ToSlash no platform separator is left, whatever the platform. */
  lemma ToSlashRemovesSeparator(s: string, separator: char, k: int)
    requires 0 <= k < |s|
    ensures ToSlash(s, separator)[k] != separator || separator == '/'
  {
  }

  // ---------------------------------------------------------------------------
  // strings.ToLower, restricted to ASCII letters
  // ---------------------------------------------------------------------------

  predicate IsUpper(c: char) { 'A' <= c <= 'Z' }

  function LowerChar(c: char): char {
    if IsUpper(c) then (c as int + ('a' as int - 'A' as int)) as char else c
  }

  /** The lower-case copy of `s`: same length, no upper-case letter left, and
      every character either kept or replaced by its lower-case letter. */
  function Lower(s: string): (r: string)
    ensures |r| == |s|
    ensures forall k :: 0 <= k < |r| ==> !IsUpper(r[k])
    ensures forall k :: 0 <= k < |s| ==> r[k] == s[k] || (IsUpper(s[k]) && r[k] as int == s[k] as int + 32)
  {
    seq(|s|, k requires 0 <= k < |s| => LowerChar(s[k]))
  }

  /** A string without upper-case letters is its own lower-case copy; in
      particular lowering is idempotent. */
  lemma LowerFixesLowerCase(s: string)
    requires forall k :: 0 <= k < |s| ==> !IsUpper(s[k])
    ensures Lower(s) == s
  {
  }

  // ---------------------------------------------------------------------------
  // strconv.Itoa, for non-negative values
  // ---------------------------------------------------------------------------

  predicate IsDigit(c: char) { '0' <= c <= '9' }

  function DigitChar(d: nat): char
    requires d < 10
  {
    ('0' as int + d) as char
  }

  /** The decimal representation of `n`: non-empty, digits only, no leading zero. */
  function Itoa(n: nat): (r: string)
    ensures |r| > 0
    ensures forall k :: 0 <= k < |r| ==> IsDigit(r[k])
    ensures r[0] == '0' ==> n == 0
  {
    if n < 10 then [DigitChar(n)] else Itoa(n / 10) + [DigitChar(n % 10)]
  }

  /** The value of a string of decimal digits (the inverse of Itoa). */
  function DigitsValue(s: string): int
    requires forall k :: 0 <= k < |s| ==> IsDigit(s[k])
  {
    if s == [] then 0 else 10 * DigitsValue(s[..|s| - 1]) + (s[|s| - 1] as int - '0' as int)
  }

  /** Itoa loses nothing: reading its digits back gives `n`. */
  lemma {:induction false} ItoaRoundTrip(n: nat)
    ensures DigitsValue(Itoa(n)) == n
  {
    if n >= 10 {
      var r := Itoa(n);
      assert r[..|r| - 1] == Itoa(n / 10);
      ItoaRoundTrip(n / 10);
    }
  }

  /** Different indexes print differently. */
  lemma {:induction false} ItoaInjective(m: nat, n: nat)
    requires Itoa(m) == Itoa(n)
    ensures m == n
  {
    ItoaRoundTrip(m);
    ItoaRoundTrip(n);
  }
}
