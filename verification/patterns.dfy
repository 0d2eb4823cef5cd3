/** The two regular expressions the forms test, each as a direct matcher
    together with a description of the strings the expression matches. */
module Patterns {
  import opened JsString

  // ----- /^https?:\/\/.+/ (poster URL, matched with String.prototype.match) -----

  /** The matcher: `http://` or `https://` at the very start, then at least
      one character that `.` accepts (anything but a line terminator). The
      expression has no `$`, so whatever follows is irrelevant. */
  predicate MatchesPosterPattern(s: string) {
    || (|s| > 7 && s[..7] == "http://" && !IsLineTerminator(s[7]))
    || (|s| > 8 && s[..8] == "https://" && !IsLineTerminator(s[8]))
  }

  /** `s` is a scheme (`http` or `https`), then `://`, then a remainder
      whose first character `.` accepts. */
  ghost predicate PosterUrlShape(s: string) {
    exists scheme, rest :: UrlSplit(s, scheme, rest)
  }

  ghost predicate UrlSplit(s: string, scheme: string, rest: string) {
    && (scheme == "http" || scheme == "https")
    && s == scheme + "://" + rest
    && rest != [] && !IsLineTerminator(rest[0])
  }

  lemma PosterPatternToShape(s: string)
    requires MatchesPosterPattern(s)
    ensures PosterUrlShape(s)
  {
    if |s| > 7 && s[..7] == "http://" && !IsLineTerminator(s[7]) {
      assert s == "http" + "://" + s[7..];
      assert UrlSplit(s, "http", s[7..]);
    } else {
      assert s == "https" + "://" + s[8..];
      assert UrlSplit(s, "https", s[8..]);
    }
  }

  lemma ShapeToPosterPattern(s: string, scheme: string, rest: string)
    requires UrlSplit(s, scheme, rest)
    ensures MatchesPosterPattern(s)
  {
    var n := |scheme| + 3;
    assert s[..n] == scheme + "://";
    assert s[n] == rest[0];
  }

  /** The matcher accepts exactly the strings of that shape. */
  lemma PosterPatternIsShape(s: string)
    ensures MatchesPosterPattern(s) <==> PosterUrlShape(s)
  {
    if MatchesPosterPattern(s) {
      PosterPatternToShape(s);
    }
    if PosterUrlShape(s) {
      var scheme, rest :| UrlSplit(s, scheme, rest);
      ShapeToPosterPattern(s, scheme, rest);
    }
  }

  /** Any scheme other than http(s), or anything before it, is rejected. */
  lemma PosterPatternRejects()
    ensures !MatchesPosterPattern("ftp://x")
    ensures !MatchesPosterPattern("http://")
    ensures !MatchesPosterPattern(" http://x")
  {
    assert "ftp://x"[..7] != "http://" by { assert "ftp://x"[0] == 'f'; }
    assert " http://x"[..7] != "http://" by { assert " http://x"[0] == ' '; }
    assert " http://x"[..8] != "https://" by { assert " http://x"[0] == ' '; }
  }

  lemma PosterPatternAccepts()
    ensures MatchesPosterPattern("http://x")
    ensures MatchesPosterPattern("https://x/y.jpg")
  {
    ShapeToPosterPattern("http://x", "http", "x");
    ShapeToPosterPattern("https://x/y.jpg", "https", "x/y.jpg");
  }

  /** `s` begins with `http://` or `https://`: what survives of the poster
      pattern once the submitted value has been trimmed. */
  predicate HasWebScheme(s: string) {
    || (|s| >= 7 && s[..7] == "http://")
    || (|s| >= 8 && s[..8] == "https://")
  }

  /** The form tests the pattern on the raw value but stores the trimmed
      one; the scheme prefix survives the trimming. */
  lemma TrimmedPosterHasWebScheme(s: string)
    requires MatchesPosterPattern(s)
    ensures HasWebScheme(Trim(s))
  {
    if |s| > 7 && s[..7] == "http://" {
      TrimKeepsPrefix(s, "http://");
    } else {
      TrimKeepsPrefix(s, "https://");
    }
  }

  /** ... but the rest of the pattern need not: the character `.` matched
      may be white space that trimming removes, as in `"http:// "`. */
  lemma TrimmedPosterMayNotMatch(scheme: string, w: string)
    requires scheme == "http://" || scheme == "https://"
    requires w != [] && AllWhiteSpace(w) && !IsLineTerminator(w[0])
    ensures MatchesPosterPattern(scheme + w)
    ensures Trim(scheme + w) == scheme
    ensures !MatchesPosterPattern(scheme)
  {
    TrimTrailing(scheme, w);
    assert (scheme + w)[..|scheme|] == scheme;
    assert (scheme + w)[|scheme|] == w[0];
    assert "https://"[..7] != "http://" by { assert "https://"[4] == 's'; }
  }

  // ----- /^[^\s@]+@[^\s@]+\.[^\s@]+$/ (review e-mail, matched with RegExp.test) -----

  /** A character of the class `[^\s@]`. */
  predicate IsEmailChar(c: char) {
    !IsWhiteSpace(c) && c != '@'
  }

  predicate AllEmailChars(s: string) {
    forall i :: 0 <= i < |s| ==> IsEmailChar(s[i])
  }

  /** Position of the first `c` in `s`, or -1 when there is none. */
  function IndexOf(s: string, c: char): (r: int)
    ensures -1 <= r < |s|
    ensures r >= 0 ==> s[r] == c
    ensures forall i :: 0 <= i < |s| && (r == -1 || i < r) ==> s[i] != c
  {
    if s == [] then -1
    else if s[0] == c then 0
    else
      var r := IndexOf(s[1..], c);
      if r == -1 then -1 else r + 1
  }

  /** The matcher: a non-empty local part up to the first `@`, then a
      domain with no `@` or white space holding a `.` that is neither its
      first nor its last character. */
  predicate MatchesEmailPattern(s: string) {
    var at := IndexOf(s, '@');
    && 0 < at
    && AllEmailChars(s[..at])
    && var domain := s[at + 1..];
       && AllEmailChars(domain)
       && |domain| >= 3
       && '.' in domain[1..|domain| - 1]
  }

  /** `s` splits as A `@` B `.` C around positions `i` and `j`, with A, B
      and C non-empty runs of `[^\s@]`: one way the expression can match. */
  ghost predicate EmailSplit(s: string, i: int, j: int) {
    && 0 < i && i + 1 < j && j + 1 < |s|
    && s[i] == '@' && s[j] == '.'
    && AllEmailChars(s[..i]) && AllEmailChars(s[i + 1..j]) && AllEmailChars(s[j + 1..])
  }

  lemma EmailPatternToSplit(s: string) returns (i: int, j: int)
    requires MatchesEmailPattern(s)
    ensures EmailSplit(s, i, j)
  {
    i := IndexOf(s, '@');
    var domain := s[i + 1..];
    var inner := domain[1..|domain| - 1];
    var k :| 0 <= k < |inner| && inner[k] == '.';
    j := i + 2 + k;
    assert s[j] == '.';
    assert s[i + 1..j] == domain[..k + 1];
    assert s[j + 1..] == domain[k + 2..];
  }

  lemma SplitToEmailPattern(s: string, i: int, j: int)
    requires EmailSplit(s, i, j)
    ensures MatchesEmailPattern(s)
  {
    assert forall k :: 0 <= k < i ==> s[k] == s[..i][k];
    assert IndexOf(s, '@') == i;
    var domain := s[i + 1..];
    forall k | 0 <= k < |domain| ensures IsEmailChar(domain[k]) {
      if i + 1 + k < j {
        assert domain[k] == s[i + 1..j][k];
      } else if i + 1 + k > j {
        assert domain[k] == s[j + 1..][k - (j - i)];
      }
    }
    assert domain[1..|domain| - 1][j - i - 2] == '.';
  }

  /** The matcher accepts exactly the strings the expression matches. */
  lemma EmailPatternIsSplit(s: string)
    ensures MatchesEmailPattern(s) <==> exists i, j :: EmailSplit(s, i, j)
  {
    if MatchesEmailPattern(s) {
      var i, j := EmailPatternToSplit(s);
    }
    if exists i, j :: EmailSplit(s, i, j) {
      var i, j :| EmailSplit(s, i, j);
      SplitToEmailPattern(s, i, j);
    }
  }

  /** Whatever the expression accepts contains no white space, so trimming
      it changes nothing. */
  lemma EmailPatternHasNoWhiteSpace(s: string)
    requires MatchesEmailPattern(s)
    ensures forall k :: 0 <= k < |s| ==> !IsWhiteSpace(s[k])
    ensures Trim(s) == s
  {
    var i, j := EmailPatternToSplit(s);
    forall k | 0 <= k < |s| ensures !IsWhiteSpace(s[k]) {
      if k < i {
        assert s[k] == s[..i][k];
      } else if i < k < j {
        assert s[k] == s[i + 1..j][k - i - 1];
      } else if k > j {
        assert s[k] == s[j + 1..][k - j - 1];
      }
    }
    TrimNoWhiteSpace(s);
  }

  lemma EmailPatternAccepts()
    ensures MatchesEmailPattern("a@b.c")
  {
    var s := "a@b.c";
    assert s[..1] == "a" && s[2..3] == "b" && s[4..] == "c";
    SplitToEmailPattern(s, 1, 3);
  }

  lemma EmailPatternRejects()
    ensures !MatchesEmailPattern("a@b")
    ensures !MatchesEmailPattern("a@.c")
    ensures !MatchesEmailPattern("a b@c.d")
  {
    assert IndexOf("a@b", '@') == 1;
    assert IndexOf("a@.c", '@') == 1;
    assert "a@.c"[2..][1..1] == [];
    var s := "a b@c.d";
    assert IndexOf(s, '@') == 3;
    assert !IsEmailChar(s[..3][1]);
  }
}
