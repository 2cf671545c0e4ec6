/** The JavaScript string operations the service relies on:
    `String.prototype.trim` and the ASCII case folding that a case-insensitive
    regular expression without the `u` flag applies to ASCII letters. */
module JsString {

  /** The WhiteSpace and LineTerminator code points of ECMA-262 (sections 12.2
      and 12.3), which `trim` removes from both ends of a string. The proofs
      below use nothing about this set beyond its being a set of characters. */
  predicate IsWhitespace(c: char) {
    || c == '\t' || c == '\U{B}' || c == '\U{C}' || c == ' '
    || c == '\U{A0}' || c == '\U{FEFF}' || c == '\U{1680}'
    || ('\U{2000}' <= c <= '\U{200A}')
    || c == '\U{202F}' || c == '\U{205F}' || c == '\U{3000}'
    || c == '\n' || c == '\r' || c == '\U{2028}' || c == '\U{2029}'
  }

  predicate AllWhitespace(s: string) {
    forall k :: 0 <= k < |s| ==> IsWhitespace(s[k])
  }

  /** Neither end of `s` is whitespace: what `trim` returns. */
  predicate IsTrimmed(s: string) {
    s == [] || (!IsWhitespace(s[0]) && !IsWhitespace(s[|s| - 1]))
  }

  /** The first index at or after `i` that does not hold whitespace, or `|s|`. */
  function SkipForward(s: string, i: nat): (j: nat)
    requires i <= |s|
    ensures i <= j <= |s|
    ensures forall k :: i <= k < j ==> IsWhitespace(s[k])
    ensures j < |s| ==> !IsWhitespace(s[j])
    decreases |s| - i
  {
    if i < |s| && IsWhitespace(s[i]) then SkipForward(s, i + 1) else i
  }

  /** The index just past the last character before `j`, and not before `i`,
      that is not whitespace, or `i`. */
  function SkipBackward(s: string, i: nat, j: nat): (e: nat)
    requires i <= j <= |s|
    ensures i <= e <= j
    ensures forall k :: e <= k < j ==> IsWhitespace(s[k])
    ensures i < e ==> !IsWhitespace(s[e - 1])
    decreases j
  {
    if i < j && IsWhitespace(s[j - 1]) then SkipBackward(s, i, j - 1) else j
  }

  /** `String.prototype.trim`: `s` with the whitespace at both ends removed. */
  function Trim(s: string): (r: string)
    ensures IsTrimmed(r) && |r| <= |s|
  {
    var i := SkipForward(s, 0);
    s[i..SkipBackward(s, i, |s|)]
  }

  /** What `trim` removes is whitespace, from the front and from the back, and
      what it keeps is the contiguous rest of `s`. */
  lemma {:induction false} TrimIsInfix(s: string)
    ensures var i, r := SkipForward(s, 0), Trim(s);
      && i + |r| <= |s| && s[i..i + |r|] == r
      && AllWhitespace(s[..i]) && AllWhitespace(s[i + |r|..])
  {
    var i := SkipForward(s, 0);
    var e := SkipBackward(s, i, |s|);
    assert Trim(s) == s[i..e];
    assert forall k :: 0 <= k < i ==> s[..i][k] == s[k];
    assert forall k :: 0 <= k < |s| - e ==> s[e..][k] == s[e + k];
  }

  /** `trim` changes nothing in a string that has no whitespace at either end. */
  lemma {:induction false} TrimOfTrimmed(s: string)
    requires IsTrimmed(s)
    ensures Trim(s) == s
  {
    TrimOfPadded([], s, []);
    assert [] + s + [] == s;
  }

  /** Trimming twice is trimming once. */
  lemma {:induction false} TrimIdempotent(s: string)
    ensures Trim(Trim(s)) == Trim(s)
  {
    TrimOfTrimmed(Trim(s));
  }

  /** Whatever whitespace surrounds a trimmed string, `trim` recovers exactly
      that string: with TrimIsInfix, the characterisation of `trim`. */
  lemma {:induction false} TrimOfPadded(p: string, t: string, q: string)
    requires AllWhitespace(p) && AllWhitespace(q) && IsTrimmed(t)
    ensures Trim(p + t + q) == t
  {
    var s := p + t + q;
    assert forall k :: 0 <= k < |p| ==> s[k] == p[k];
    assert forall k :: 0 <= k < |q| ==> s[|p| + |t| + k] == q[k];
    var i := SkipForward(s, 0);
    var e := SkipBackward(s, i, |s|);
    if t == [] {
      assert forall k :: 0 <= k < |s| ==> IsWhitespace(s[k]);
      assert i == |s|;
    } else {
      assert s[|p|] == t[0];
      assert s[|p| + |t| - 1] == t[|t| - 1];
      assert i == |p|;
      assert e == |p| + |t|;
      assert s[i..e] == t;
    }
  }

  /** The lower-case form of an ASCII capital letter; every other character is
      its own fold. */
  function AsciiLower(c: char): char {
    if 'A' <= c <= 'Z' then (c as int + 32) as char else c
  }

  /** What comparing folds means for a character `c` of the subject against a
      character `p` of a pattern: a small ASCII letter matches itself and its
      capital; any character that is not an ASCII letter matches only itself.
      This is the non-unicode Canonicalize of ECMA-262 (section 22.2.2.7.3)
      on the characters of an ASCII pattern. */
  lemma {:induction false} AsciiLowerMatches(c: char, p: char)
    ensures 'a' <= p <= 'z' ==>
      (AsciiLower(c) == AsciiLower(p) <==> c == p || c as int == p as int - 32)
    ensures !('a' <= p <= 'z') && !('A' <= p <= 'Z') ==>
      (AsciiLower(c) == AsciiLower(p) <==> c == p)
  {
  }

  /** `s` begins with `prefix`, comparing ASCII letters without regard to case. */
  predicate StartsWithIgnoringCase(s: string, prefix: string) {
    |prefix| <= |s| && forall k :: 0 <= k < |prefix| ==> AsciiLower(s[k]) == AsciiLower(prefix[k])
  }
}
