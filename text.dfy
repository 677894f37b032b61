/**
 * Whitespace trimming as ECMAScript's `String.prototype.trim` performs it.
 * The hook only uses the truthiness of `trim()`: a text node "has text" when
 * trimming leaves a non-empty string, which is `HasContent`.
 */
module Text {

  /**
   * The code points `trim` strips: ECMAScript's WhiteSpace (TAB, VT, FF,
   * ZWNBSP and the Unicode space separators) and LineTerminator (LF, CR,
   * LINE SEPARATOR, PARAGRAPH SEPARATOR).
   */
  predicate IsWhitespace(c: char) {
    c == '\t' || c == '\n' || c == '\U{000B}' || c == '\U{000C}' || c == '\r'
    || c == ' ' || c == '\U{00A0}' || c == '\U{1680}'
    || ('\U{2000}' <= c <= '\U{200A}')
    || c == '\U{2028}' || c == '\U{2029}' || c == '\U{202F}' || c == '\U{205F}'
    || c == '\U{3000}' || c == '\U{FEFF}'
  }

  /** `s` without its leading whitespace. */
  function TrimStart(s: string): (r: string)
    ensures |r| <= |s| && r == s[|s| - |r|..]
    ensures forall i :: 0 <= i < |s| - |r| ==> IsWhitespace(s[i])
    ensures r == [] || !IsWhitespace(r[0])
  {
    if s != [] && IsWhitespace(s[0]) then TrimStart(s[1..]) else s
  }

  /** `s` without its trailing whitespace. */
  function TrimEnd(s: string): (r: string)
    ensures |r| <= |s| && r == s[..|r|]
    ensures forall i :: |r| <= i < |s| ==> IsWhitespace(s[i])
    ensures r == [] || !IsWhitespace(r[|r| - 1])
  {
    if s != [] && IsWhitespace(s[|s| - 1]) then TrimEnd(s[..|s| - 1]) else s
  }

  /**
   * `s.trim()`: the slice of `s` left after its leading and trailing
   * whitespace is removed; it neither starts nor ends with whitespace.
   */
  function Trim(s: string): (r: string)
    ensures |r| <= |s|
    ensures var k := |s| - |TrimStart(s)|;
      && k + |r| <= |s| && r == s[k..k + |r|]
      && forall i :: 0 <= i < |s| && !(k <= i < k + |r|) ==> IsWhitespace(s[i])
    ensures r == [] || (!IsWhitespace(r[0]) && !IsWhitespace(r[|r| - 1]))
  {
    var t := TrimStart(s);
    var r := TrimEnd(t);
    TrimIsSlice(s, t, r);
    r
  }

  /** The two halves of `Trim` remove whitespace only, from the two ends. */
  lemma TrimIsSlice(s: string, t: string, r: string)
    requires |t| <= |s| && t == s[|s| - |t|..]
    requires forall i :: 0 <= i < |s| - |t| ==> IsWhitespace(s[i])
    requires |r| <= |t| && r == t[..|r|]
    requires forall i :: |r| <= i < |t| ==> IsWhitespace(t[i])
    ensures var k := |s| - |t|;
      && k + |r| <= |s| && r == s[k..k + |r|]
      && forall i :: 0 <= i < |s| && !(k <= i < k + |r|) ==> IsWhitespace(s[i])
  {
    var k := |s| - |t|;
    var slice := s[k..k + |r|];
    forall i | 0 <= i < |r| ensures r[i] == slice[i] {
      assert r[i] == t[i] == s[k + i];
    }
    assert r == slice;
    forall i | k + |r| <= i < |s| ensures IsWhitespace(s[i]) {
      assert s[i] == t[i - k];
    }
  }

  /** Trimming leaves nothing exactly when the string is all whitespace. */
  lemma TrimEmptyIff(s: string)
    ensures Trim(s) == [] <==> forall i :: 0 <= i < |s| ==> IsWhitespace(s[i])
  {
    var t := TrimStart(s);
    var r := TrimEnd(t);
    var k := |s| - |t|;
    if r == [] {
      assert t == [];
    } else {
      assert s[k] == t[0] == r[0];
    }
  }

  /**
   * The truthiness of `s.trim()`: some character of `s` is not whitespace
   * (`TrimmedIsNonEmpty` shows the two agree).
   */
  predicate HasContent(s: string) {
    exists i :: 0 <= i < |s| && !IsWhitespace(s[i])
  }

  /** `s.trim()` is a non-empty string exactly when `s` has content. */
  lemma TrimmedIsNonEmpty(s: string)
    ensures Trim(s) != [] <==> HasContent(s)
  {
    TrimEmptyIff(s);
  }
}
