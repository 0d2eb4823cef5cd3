/** The ECMAScript string primitives the forms and the search rely on:
    `String.prototype.trim`, the regular-expression class `\s`,
    `toLowerCase` and `includes`. Strings are sequences of code points,
    not the UTF-16 code units JavaScript uses. */
module JsString {

  /** ECMAScript LineTerminator: LF, CR, LINE SEPARATOR, PARAGRAPH SEPARATOR.
      These are the characters a regular-expression `.` does not match. */
  predicate IsLineTerminator(c: char) {
    var n := c as int;
    n == 0x0A || n == 0x0D || n == 0x2028 || n == 0x2029
  }

  /** ECMAScript WhiteSpace (TAB, VT, FF, ZWNBSP and the Space_Separator
      code points) together with LineTerminator: exactly the characters
      `trim()` removes and the regular-expression class `\s` matches. */
  predicate IsWhiteSpace(c: char) {
    var n := c as int;
    || n == 0x09 || n == 0x0B || n == 0x0C || n == 0x20 || n == 0xA0
    || n == 0x1680 || (0x2000 <= n <= 0x200A) || n == 0x202F || n == 0x205F
    || n == 0x3000 || n == 0xFEFF
    || IsLineTerminator(c)
  }

  /** Every character of `s` is white space (vacuously so for ""). */
  predicate AllWhiteSpace(s: string) {
    forall i :: 0 <= i < |s| ==> IsWhiteSpace(s[i])
  }

  /** Number of white-space characters at the start of `s`. */
  function LeadingSpace(s: string): (n: nat)
    ensures n <= |s|
    ensures forall i :: 0 <= i < n ==> IsWhiteSpace(s[i])
    ensures n < |s| ==> !IsWhiteSpace(s[n])
  {
    if s != [] && IsWhiteSpace(s[0]) then 1 + LeadingSpace(s[1..]) else 0
  }

  /** Length of `s` once its trailing white space is cut off. */
  function ContentEnd(s: string): (n: nat)
    ensures n <= |s|
    ensures forall i :: n <= i < |s| ==> IsWhiteSpace(s[i])
    ensures n > 0 ==> !IsWhiteSpace(s[n - 1])
  {
    if s != [] && IsWhiteSpace(s[|s| - 1]) then ContentEnd(s[..|s| - 1]) else |s|
  }

  /** `s.trimStart()`: `s` from its first non-white-space character on. */
  function TrimStart(s: string): (r: string)
    ensures r == [] || !IsWhiteSpace(r[0])
  {
    s[LeadingSpace(s)..]
  }

  /** `s.trim()`: the slice of `s` between its leading and trailing white
      space; empty exactly when `s` is all white space. */
  function Trim(s: string): (r: string)
    ensures r == [] <==> AllWhiteSpace(s)
    ensures r != [] ==> !IsWhiteSpace(r[0]) && !IsWhiteSpace(r[|r| - 1])
  {
    var a := LeadingSpace(s);
    var b := ContentEnd(s);
    if a < b then s[a..b] else []
  }

  /** `!s.trim()`: the field holds nothing but white space. */
  predicate IsBlank(s: string) {
    Trim(s) == []
  }

  /** A string that neither starts nor ends with white space is its own trim. */
  lemma TrimUnchanged(s: string)
    requires s == [] || (!IsWhiteSpace(s[0]) && !IsWhiteSpace(s[|s| - 1]))
    ensures Trim(s) == s
  {
  }

  /** Trimming is idempotent. */
  lemma TrimIdempotent(s: string)
    ensures Trim(Trim(s)) == Trim(s)
  {
    TrimUnchanged(Trim(s));
  }

  /** `s` neither starts nor ends with white space. */
  predicate IsTrimmed(s: string) {
    s == [] || (!IsWhiteSpace(s[0]) && !IsWhiteSpace(s[|s| - 1]))
  }

  /** A text field as a form stores it: not empty, and with no white
      space at either end (so its own trim, by `TrimmedIsFixedPoint`). */
  predicate IsTrimmedText(s: string) {
    s != [] && IsTrimmed(s)
  }

  /** Being trimmed is being a fixed point of `trim()`, and `trim()`
      always returns a trimmed string. */
  lemma TrimmedIsFixedPoint(s: string)
    ensures IsTrimmed(s) <==> Trim(s) == s
    ensures IsTrimmed(Trim(s))
  {
    if IsTrimmed(s) {
      TrimUnchanged(s);
    }
  }

  /** A string with no white space at all is its own trim. */
  lemma TrimNoWhiteSpace(s: string)
    requires forall i :: 0 <= i < |s| ==> !IsWhiteSpace(s[i])
    ensures Trim(s) == s
  {
    TrimUnchanged(s);
  }

  /** Trimming keeps a prefix that starts and ends with non-white-space
      characters. */
  lemma TrimKeepsPrefix(s: string, p: string)
    requires |p| <= |s| && s[..|p|] == p
    requires p != [] && !IsWhiteSpace(p[0]) && !IsWhiteSpace(p[|p| - 1])
    ensures |p| <= |Trim(s)| && Trim(s)[..|p|] == p
  {
    assert s[0] == p[0] && s[|p| - 1] == p[|p| - 1];
    var b := ContentEnd(s);
    assert |p| <= b;
    assert Trim(s) == s[..b];
  }

  /** The white space in front of `x` is exactly the padding `w`. */
  lemma LeadingSpaceOf(w: string, x: string)
    requires AllWhiteSpace(w)
    requires x == [] || !IsWhiteSpace(x[0])
    ensures LeadingSpace(w + x) == |w|
  {
    var s := w + x;
    assert forall i :: 0 <= i < |w| ==> s[i] == w[i];
    if x != [] {
      assert s[|w|] == x[0];
    }
  }

  /** The white space after `x` is exactly the padding `w`. */
  lemma ContentEndOf(x: string, w: string)
    requires AllWhiteSpace(w)
    requires x == [] || !IsWhiteSpace(x[|x| - 1])
    ensures ContentEnd(x + w) == |x|
  {
    var s := x + w;
    assert forall i :: |x| <= i < |s| ==> s[i] == w[i - |x|];
    if x != [] {
      assert s[|x| - 1] == x[|x| - 1];
    }
  }

  /** Leading white space is skipped up to the first other character. */
  lemma TrimStartPadded(w: string, x: string)
    requires AllWhiteSpace(w)
    requires x == [] || !IsWhiteSpace(x[0])
    ensures TrimStart(w + x) == x
  {
    LeadingSpaceOf(w, x);
    assert (w + x)[|w|..] == x;
  }

  /** Trimming strips white space padding from both ends of a core that
      starts and ends with other characters. */
  lemma TrimPadded(w1: string, x: string, w2: string)
    requires AllWhiteSpace(w1) && AllWhiteSpace(w2)
    requires x != [] && !IsWhiteSpace(x[0]) && !IsWhiteSpace(x[|x| - 1])
    ensures Trim(w1 + x + w2) == x
  {
    var s := w1 + x + w2;
    assert s == w1 + (x + w2) && s == (w1 + x) + w2;
    LeadingSpaceOf(w1, x + w2);
    ContentEndOf(w1 + x, w2);
    assert s[|w1|..|w1| + |x|] == x;
  }

  /** Trimming strips trailing white space from a string that starts and
      ends with other characters. */
  lemma TrimTrailing(x: string, w: string)
    requires AllWhiteSpace(w)
    requires x != [] && !IsWhiteSpace(x[0]) && !IsWhiteSpace(x[|x| - 1])
    ensures Trim(x + w) == x
  {
    assert [] + x + w == x + w;
    TrimPadded([], x, w);
  }

  /** `s.startsWith(p)`, compared character by character. */
  predicate StartsWith(s: string, p: string)
    decreases |p|
  {
    p == [] || (s != [] && s[0] == p[0] && StartsWith(s[1..], p[1..]))
  }

  /** Case folding of one character, as `toLowerCase` does it on ASCII. */
  function LowerChar(c: char): (d: char)
    ensures 'A' <= c <= 'Z' ==> 'a' <= d <= 'z' && d as int - c as int == 32
    ensures !('A' <= c <= 'Z') ==> d == c
  {
    if 'A' <= c <= 'Z' then (c as int + 32) as char else c
  }

  /** `s.toLowerCase()`, character by character. */
  function ToLower(s: string): (r: string)
    ensures |r| == |s|
    ensures forall i :: 0 <= i < |s| ==> r[i] == LowerChar(s[i])
  {
    if s == [] then [] else [LowerChar(s[0])] + ToLower(s[1..])
  }

  /** Lower-casing twice is lower-casing once. */
  lemma ToLowerIdempotent(s: string)
    ensures ToLower(ToLower(s)) == ToLower(s)
  {
    var l := ToLower(s);
    assert forall i :: 0 <= i < |l| ==> ToLower(l)[i] == l[i];
  }

  /** `t` occurs in `s` starting at position `i`. */
  ghost predicate OccursAt(s: string, t: string, i: int) {
    0 <= i && i + |t| <= |s| && s[i..i + |t|] == t
  }

  /** `s.includes(t)`: some position of `s` starts an occurrence of `t`. */
  function Includes(s: string, t: string): (b: bool)
    ensures b <==> exists i :: OccursAt(s, t, i)
    decreases |s|
  {
    if |t| <= |s| && s[..|t|] == t then
      assert OccursAt(s, t, 0);
      true
    else if s == [] then
      assert forall i :: !OccursAt(s, t, i);
      false
    else
      var rest := Includes(s[1..], t);
      assert forall i :: OccursAt(s[1..], t, i) <==> OccursAt(s, t, i + 1);
      assert !OccursAt(s, t, 0);
      assert (exists i :: OccursAt(s, t, i)) ==> exists i :: OccursAt(s[1..], t, i) by {
        if exists i :: OccursAt(s, t, i) {
          var i :| OccursAt(s, t, i);
          assert OccursAt(s[1..], t, i - 1);
        }
      }
      rest
  }

  /** The empty string occurs in every string. */
  lemma IncludesEmpty(s: string)
    ensures Includes(s, "")
  {
    assert OccursAt(s, "", 0);
  }
}
