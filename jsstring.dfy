/**
 * The pieces of JavaScript string semantics that the contact book relies on:
 * the whitespace class shared by `String.prototype.trim` and the regular
 * expression classes `\s`/`\S`, the digit class `\d`, trimming, and the
 * falsiness of a string value.
 */
module JsString {

  /** JavaScript WhiteSpace and LineTerminator code points (what `trim` strips and `\s` matches). */
  predicate IsSpace(c: char) {
    || c == ' ' || c == '\t' || c == '\n' || c == '\r'
    || c == '\U{000B}' || c == '\U{000C}'
    || c == '\U{00A0}' || c == '\U{FEFF}' || c == '\U{1680}'
    || ('\U{2000}' <= c <= '\U{200A}')
    || c == '\U{2028}' || c == '\U{2029}'
    || c == '\U{202F}' || c == '\U{205F}' || c == '\U{3000}'
  }

  /** The regular expression class `\d`: ASCII decimal digits only. */
  predicate IsDigit(c: char) {
    '0' <= c <= '9'
  }

  /** Every character of `s` is whitespace (vacuously true of ""). */
  predicate AllSpace(s: string) {
    forall i :: 0 <= i < |s| ==> IsSpace(s[i])
  }

  /** No character of `s` is whitespace: `s` is matched by `\S*`. */
  predicate NoSpace(s: string) {
    forall i :: 0 <= i < |s| ==> !IsSpace(s[i])
  }

  /** The first position at or after `from` that is not whitespace, or `|s|`. */
  function SkipSpaces(s: string, from: nat): (b: nat)
    requires from <= |s|
    decreases |s| - from
    ensures from <= b <= |s|
    ensures forall i :: from <= i < b ==> IsSpace(s[i])
    ensures b < |s| ==> !IsSpace(s[b])
  {
    if from == |s| || !IsSpace(s[from]) then from else SkipSpaces(s, from + 1)
  }

  /** The end, between `lo` and `hi`, of `s[lo..hi]` without its trailing whitespace. */
  function DropTrailing(s: string, lo: nat, hi: nat): (e: nat)
    requires lo <= hi <= |s|
    decreases hi
    ensures lo <= e <= hi
    ensures forall i :: e <= i < hi ==> IsSpace(s[i])
    ensures e > lo ==> !IsSpace(s[e - 1])
  {
    if hi == lo || !IsSpace(s[hi - 1]) then hi else DropTrailing(s, lo, hi - 1)
  }

  /** `r` sits at offset `k` of `s` with only whitespace around it. */
  predicate TrimmedAt(s: string, r: string, k: nat) {
    && k + |r| <= |s|
    && r == s[k..k + |r|]
    && (forall i :: 0 <= i < k ==> IsSpace(s[i]))
    && (forall i :: k + |r| <= i < |s| ==> IsSpace(s[i]))
  }

  /**
   * `String.prototype.trim`: the infix of `s` left after removing whitespace
   * at both ends. It is empty exactly when `s` is whitespace only, and
   * otherwise begins and ends with a non-whitespace character.
   */
  function Trim(s: string): (r: string)
    ensures exists k: nat :: TrimmedAt(s, r, k)
    ensures r == [] <==> AllSpace(s)
    ensures r != [] ==> !IsSpace(r[0]) && !IsSpace(r[|r| - 1])
  {
    var b := SkipSpaces(s, 0);
    var e := DropTrailing(s, b, |s|);
    assert TrimmedAt(s, s[b..e], b);
    s[b..e]
  }

  /** A string value is falsy in JavaScript exactly when it is empty. */
  predicate IsFalsyString(s: string) {
    s == ""
  }

  /** Trimming a trimmed string changes nothing. */
  lemma TrimIdempotent(s: string)
    ensures Trim(Trim(s)) == Trim(s)
  {
  }
}
