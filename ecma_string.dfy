/**
 * The parts of ECMAScript's string and RegExp semantics that `lib/utils/video.ts`
 * relies on: the white-space set stripped by `String.prototype.trim` and matched
 * by `\s`, ASCII case folding as done by a non-Unicode `/i` RegExp, and the
 * `IsWordChar` test behind `\b`.
 *
 * Characters are Unicode scalar values. ECMAScript strings are UTF-16, but none of
 * the characters involved here is outside the Basic Multilingual Plane.
 */
module EcmaString {

  /** WhiteSpace, section 12.2 of ECMA-262: TAB, VT, FF, ZWNBSP and every Zs code point. */
  predicate IsWhiteSpace(c: char) {
    || c == '\t' || c == '\U{000B}' || c == '\U{000C}' || c == '\U{FEFF}'
    || c == ' ' || c == '\U{00A0}' || c == '\U{1680}'
    || ('\U{2000}' <= c <= '\U{200A}')
    || c == '\U{202F}' || c == '\U{205F}' || c == '\U{3000}'
  }

  /** LineTerminator, section 12.3 of ECMA-262: LF, CR, LS and PS. */
  predicate IsLineTerminator(c: char) {
    c == '\n' || c == '\r' || c == '\U{2028}' || c == '\U{2029}'
  }

  /** The characters removed by `String.prototype.trim` (section 22.1.3 of ECMA-262) and matched by `\s` (section 22.2). */
  predicate IsSpace(c: char) {
    IsWhiteSpace(c) || IsLineTerminator(c)
  }

  /** `s.trimStart()`: every leading space goes, and nothing else. */
  function TrimStart(s: string): (r: string)
    ensures |r| <= |s| && r == s[|s| - |r|..]
    ensures forall i :: 0 <= i < |s| - |r| ==> IsSpace(s[i])
    ensures r == [] || !IsSpace(r[0])
  {
    if s != [] && IsSpace(s[0]) then TrimStart(s[1..]) else s
  }

  /** `s.trimEnd()`: every trailing space goes, and nothing else. */
  function TrimEnd(s: string): (r: string)
    ensures |r| <= |s| && r == s[..|r|]
    ensures forall i :: |r| <= i < |s| ==> IsSpace(s[i])
    ensures r == [] || !IsSpace(r[|r| - 1])
  {
    if s != [] && IsSpace(s[|s| - 1]) then TrimEnd(s[..|s| - 1]) else s
  }

  /** `r` is `s` with `a` leading and `|s| - a - |r|` trailing characters removed, all of them spaces. */
  predicate IsTrimmedSlice(s: string, a: int, r: string) {
    && 0 <= a <= |s| - |r| && r == s[a..a + |r|]
    && (forall i :: 0 <= i < a ==> IsSpace(s[i]))
    && (forall i :: a + |r| <= i < |s| ==> IsSpace(s[i]))
  }

  /**
   * `s.trim()`: the result is a contiguous slice of `s` whose removed prefix and
   * suffix are all spaces and which neither starts nor ends with a space.
   */
  function Trim(s: string): (r: string)
    ensures exists a :: IsTrimmedSlice(s, a, r)
    ensures r == [] || (!IsSpace(r[0]) && !IsSpace(r[|r| - 1]))
  {
    var t := TrimStart(s);
    var r := TrimEnd(t);
    var a := |s| - |t|;
    assert r == s[a..a + |r|];
    assert IsTrimmedSlice(s, a, r) by {
      forall i | a + |r| <= i < |s| ensures IsSpace(s[i]) {
        assert s[i] == t[i - a];
      }
    }
    r
  }

  /** A trimmed string is empty exactly when the original is nothing but spaces. */
  lemma TrimEmpty(s: string)
    ensures Trim(s) == [] <==> forall i :: 0 <= i < |s| ==> IsSpace(s[i])
  {
    if Trim(s) != [] {
      var r := Trim(s);
      var a :| IsTrimmedSlice(s, a, r);
      assert s[a] == r[0];
    }
  }

  /**
   * The contract of `Trim` determines its result: a slice with space-only
   * surroundings that neither starts nor ends with a space is the trimmed string.
   */
  lemma TrimUnique(s: string, a: int, r: string)
    requires IsTrimmedSlice(s, a, r)
    requires r == [] || (!IsSpace(r[0]) && !IsSpace(r[|r| - 1]))
    ensures Trim(s) == r
  {
    var t := Trim(s);
    var b :| IsTrimmedSlice(s, b, t);
    if r != [] && t != [] {
      assert s[a] == r[0] && s[b] == t[0];
      assert a == b;
      assert s[a + |r| - 1] == r[|r| - 1] && s[b + |t| - 1] == t[|t| - 1];
      assert |r| == |t|;
    }
  }

  /**
   * ASCII case folding; the only folding a non-Unicode `/i` RegExp does between
   * ASCII and anything. No upper-case letter survives it, and it never moves a
   * character into or out of ASCII.
   */
  function Fold(c: char): (d: char)
    ensures 'A' <= c <= 'Z' ==> d as int == c as int + 32
    ensures !('A' <= c <= 'Z') ==> d == c
    ensures !('A' <= d <= 'Z')
    ensures (c as int < 128) == (d as int < 128)
  {
    if 'A' <= c <= 'Z' then (c as int + 32) as char else c
  }

  /** Two characters fold alike exactly when they are equal or an ASCII letter and its lower-case form. */
  lemma FoldSame(c: char, d: char)
    ensures Fold(c) == Fold(d) <==>
              || c == d
              || ('A' <= c <= 'Z' && d as int == c as int + 32)
              || ('A' <= d <= 'Z' && c as int == d as int + 32)
  {
  }

  /** Two strings that differ at most in the case of ASCII letters. */
  predicate SameUpToCase(s: string, t: string) {
    |s| == |t| && forall i :: 0 <= i < |s| ==> Fold(s[i]) == Fold(t[i])
  }

  /** A pair of characters that fold alike are alike for `\s` and for `\w`. */
  lemma FoldKeepsClasses(c: char, d: char)
    requires Fold(c) == Fold(d)
    ensures IsSpace(c) <==> IsSpace(d)
    ensures IsWordChar(c) <==> IsWordChar(d)
  {
  }

  /** IsWordChar of ECMA-262's RegExp semantics (section 22.2) without the `u` flag: `[A-Za-z0-9_]`. */
  predicate IsWordChar(c: char) {
    ('a' <= c <= 'z') || ('A' <= c <= 'Z') || ('0' <= c <= '9') || c == '_'
  }

  /** IsWordChar(e) of ECMA-262: false before the start and past the end of the input. */
  predicate IsWordCharAt(s: string, e: int) {
    0 <= e < |s| && IsWordChar(s[e])
  }

  /** The assertion `\b` holds at position `e` (between `s[e-1]` and `s[e]`). */
  predicate IsWordBoundary(s: string, e: int) {
    IsWordCharAt(s, e - 1) != IsWordCharAt(s, e)
  }
}
