/**
  Lower-casing of stock names, as `str.lower()` does when `run` turns a stock
  name into the key of its output series. Only the 26 ASCII capitals are
  mapped; every other character is kept as it is.
 */
module Text {

  function LowerChar(c: char): char
  {
    if 'A' <= c <= 'Z' then (c as int - 'A' as int + 'a' as int) as char else c
  }

  predicate IsNotAsciiCapital(c: char)
  {
    !('A' <= c <= 'Z')
  }

  /** No character of `s` is an ASCII capital. */
  predicate HasNoCapital(s: string)
  {
    forall i :: 0 <= i < |s| ==> IsNotAsciiCapital(s[i])
  }

  /** `s.lower()` */
  function Lower(s: string): (r: string)
    ensures |r| == |s|
    ensures HasNoCapital(r)
    ensures forall i :: 0 <= i < |s| && IsNotAsciiCapital(s[i]) ==> r[i] == s[i]
    ensures forall i :: 0 <= i < |s| && !IsNotAsciiCapital(s[i]) ==> r[i] as int == s[i] as int + 32
  {
    seq(|s|, i requires 0 <= i < |s| => LowerChar(s[i]))
  }

  /** A name without capitals is its own lower-cased form. */
  lemma LowerKeepsLowerCase(s: string)
    requires HasNoCapital(s)
    ensures Lower(s) == s
  {
    assert forall i :: 0 <= i < |s| ==> Lower(s)[i] == s[i];
  }

  /** Lower-casing twice is lower-casing once. */
  lemma LowerIdempotent(s: string)
    ensures Lower(Lower(s)) == Lower(s)
  {
  }
}
