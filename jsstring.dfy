/** The two ECMAScript string built-ins the core relies on: `String.prototype.trim`
    (App.tsx tests `userCode.trim()` for emptiness) and `String.prototype.substring`
    (EditorArea.tsx splices the editor text with it). */
module JsString {

  /** The WhiteSpace and LineTerminator code points of ECMAScript (sections 12.2 and
      12.3 of ECMA-262): TAB, VT, FF, SP, NBSP, ZWNBSP, the other space separators of
      Unicode category Zs, LF, CR, LS and PS. `trim` strips exactly these. */
  predicate IsWhitespace(c: char) {
    c == '\t' || c == '\U{000B}' || c == '\U{000C}' || c == ' ' || c == '\U{00A0}' || c == '\U{FEFF}'
    || c == '\U{1680}' || ('\U{2000}' <= c <= '\U{200A}') || c == '\U{202F}' || c == '\U{205F}' || c == '\U{3000}'
    || c == '\n' || c == '\r' || c == '\U{2028}' || c == '\U{2029}'
  }

  /** Every character of `s` is whitespace. */
  predicate AllWhitespace(s: string) {
    forall i :: 0 <= i < |s| ==> IsWhitespace(s[i])
  }

  /** `s` with its leading whitespace removed: a suffix of `s` that starts with a
      non-whitespace character (or is empty), and everything cut off is whitespace. */
  function TrimStart(s: string): (r: string)
    ensures |r| <= |s| && r == s[|s| - |r|..]
    ensures AllWhitespace(s[..|s| - |r|])
    ensures r != [] ==> !IsWhitespace(r[0])
    decreases |s|
  {
    if s != [] && IsWhitespace(s[0]) then TrimStart(s[1..]) else s
  }

  /** `s` with its trailing whitespace removed: a prefix of `s` that ends with a
      non-whitespace character (or is empty), and everything cut off is whitespace. */
  function TrimEnd(s: string): (r: string)
    ensures |r| <= |s| && r == s[..|r|]
    ensures AllWhitespace(s[|r|..])
    ensures r != [] ==> !IsWhitespace(r[|r| - 1])
    decreases |s|
  {
    if s != [] && IsWhitespace(s[|s| - 1]) then TrimEnd(s[..|s| - 1]) else s
  }

  /** `s.trim()`: a contiguous piece of `s` (a prefix of what follows its leading
      whitespace) with neither leading nor trailing whitespace, empty exactly when
      `s` holds nothing but whitespace. */
  function Trim(s: string): (r: string)
    ensures |r| <= |TrimStart(s)| <= |s| && r == s[|s| - |TrimStart(s)|..][..|r|]
    ensures AllWhitespace(TrimStart(s)[|r|..])
    ensures r != [] ==> !IsWhitespace(r[0]) && !IsWhitespace(r[|r| - 1])
    ensures r == [] <==> AllWhitespace(s)
  {
    var t := TrimStart(s);
    var r := TrimEnd(t);
    assert r == t[..|r|] && AllWhitespace(t[|r|..]);
    assert t == s[|s| - |t|..];
    assert r == [] ==> AllWhitespace(s) by {
      if r == [] {
        assert s == s[..|s| - |t|] + t;
        assert t == t[|r|..];
      }
    }
    r
  }

  /** The ToIntegerOrInfinity-then-clamp step of `substring`: a position in 0..len. */
  function Clamp(position: int, len: nat): (r: nat)
    ensures r <= len
    ensures 0 <= position <= len ==> r == position
  {
    if position < 0 then 0 else if position > len then len else position
  }

  /** `s.substring(start, end)` (section 22.1.3.25 of ECMA-262): both positions are
      clamped to the string, and the smaller one is taken as the start. */
  function Substring(s: string, start: int, end: int): (r: string)
    ensures |r| <= |s|
    ensures 0 <= start <= end <= |s| ==> r == s[start..end]
    ensures 0 <= end <= start <= |s| ==> r == s[end..start]
  {
    var a := Clamp(start, |s|);
    var b := Clamp(end, |s|);
    if a <= b then s[a..b] else s[b..a]
  }

  /** `s.substring(start)`: from the clamped position to the end. */
  function SubstringFrom(s: string, start: int): (r: string)
    ensures |r| <= |s|
    ensures 0 <= start <= |s| ==> r == s[start..]
    ensures start > |s| ==> r == []
  {
    Substring(s, start, |s|)
  }
}
