/**
  What `is_plausible_url` (qr_generator.py) accepts and rejects, stated
  against the pattern of module UrlCheck.
*/
module UrlProperties {
  import opened Wrappers
  import opened UrlCheck

  // ---------------------------------------------------------------------------
  // Helpers: what every match of the pattern body looks like
  // ---------------------------------------------------------------------------

  /** A body match begins with a scheme. */
  lemma BodyHasScheme(w: WordClass, t: string)
    requires PatternBody(w, t)
    ensures HasPrefixIgnoreCase(t, "http://") || HasPrefixIgnoreCase(t, "https://")
  {
    PatternBodyIff(w, t);
  }

  /** In a body match, every character from index 7 on is a path character. */
  lemma BodyPathChars(w: WordClass, t: string)
    requires PatternBody(w, t)
    ensures forall i :: 7 <= i < |t| ==> IsPathChar(w, t[i])
  {
    PatternBodyIff(w, t);
    var n := SchemeLength(t).value;
    var rest := t[n..];
    if n == 8 {
      // `https://` reaches index 7, and has its `/` there.
      assert MatchesIgnoreCase(t[..8][7], "https://"[7]);
      assert t[7] == '/';
    }
    forall i | n <= i < |t| ensures IsPathChar(w, t[i]) {
      assert t[i] == rest[i - n];
    }
  }

  /** With `\w` excluding the newline, no body match contains a newline. */
  lemma BodyHasNoNewline(w: WordClass, t: string)
    requires !w('\n')
    requires PatternBody(w, t)
    ensures forall i :: 0 <= i < |t| ==> t[i] != '\n'
  {
    BodyHasScheme(w, t);
    BodyPathChars(w, t);
    assert !IsPathChar(w, '\n') by {
      assert forall i :: 0 <= i < |"/-._~:?#[]@!$&'()*+,;="| ==> "/-._~:?#[]@!$&'()*+,;="[i] != '\n';
    }
    forall i | 0 <= i < |t| ensures t[i] != '\n' {
      if i >= 7 {
        assert IsPathChar(w, t[i]);
      } else if HasPrefixIgnoreCase(t, "http://") {
        assert MatchesIgnoreCase(t[..7][i], "http://"[i]);
      } else {
        assert MatchesIgnoreCase(t[..8][i], "https://"[i]);
      }
    }
  }

  /** A prefix of `s[..m]` is a prefix of `s`. */
  lemma PrefixOfPrefix(s: string, m: nat, lit: string)
    requires m <= |s|
    requires HasPrefixIgnoreCase(s[..m], lit)
    ensures HasPrefixIgnoreCase(s, lit)
  {
    assert s[..m][..|lit|] == s[..|lit|];
  }

  // ---------------------------------------------------------------------------
  // The scheme
  // ---------------------------------------------------------------------------

  /** Every accepted string begins with `http://` or `https://`, in any letter case. */
  lemma AcceptedHasScheme(w: WordClass, s: string)
    requires PlausibleUrl(w, s)
    ensures HasPrefixIgnoreCase(s, "http://") || HasPrefixIgnoreCase(s, "https://")
  {
    if PatternBody(w, s) {
      BodyHasScheme(w, s);
    } else {
      var t := s[..|s| - 1];
      BodyHasScheme(w, t);
      if HasPrefixIgnoreCase(t, "http://") {
        PrefixOfPrefix(s, |s| - 1, "http://");
      } else {
        PrefixOfPrefix(s, |s| - 1, "https://");
      }
    }
  }

  // ---------------------------------------------------------------------------
  // The host
  // ---------------------------------------------------------------------------

  /** A body match has, right after its scheme, a host of domain characters with an inner dot. */
  lemma BodyHasDottedHost(w: WordClass, t: string)
    requires PatternBody(w, t)
    ensures exists n, h :: 7 <= n < h <= |t| && SchemeLang(t[..n]) && AllDomain(w, t[n..h]) && HasInnerDot(t[n..h])
  {
    PatternBodyIff(w, t);
    var n := SchemeLength(t).value;
    var rest := t[n..];
    var r := RunLength(w, rest);
    assert rest[..r] == t[n..n + r];
    SchemeLangLength(t);
  }

  /**
    Every accepted string has a host of domain characters (`\w`, `.`, `-`)
    after its scheme, holding a `.` with a host character on each side.
  */
  lemma AcceptedHasDottedHost(w: WordClass, s: string)
    requires PlausibleUrl(w, s)
    ensures exists n, h :: 7 <= n < h <= |s| && SchemeLang(s[..n]) && AllDomain(w, s[n..h]) && HasInnerDot(s[n..h])
  {
    if PatternBody(w, s) {
      BodyHasDottedHost(w, s);
    } else {
      var t := s[..|s| - 1];
      BodyHasDottedHost(w, t);
      var n, h :| 7 <= n < h <= |t| && SchemeLang(t[..n]) && AllDomain(w, t[n..h]) && HasInnerDot(t[n..h]);
      assert t[..n] == s[..n] && t[n..h] == s[n..h];
    }
  }

  /** A string with no `.` at all is rejected, whatever `\w` holds of. */
  lemma DotlessRejected(w: WordClass, s: string)
    requires forall i :: 0 <= i < |s| ==> s[i] != '.'
    ensures !PlausibleUrl(w, s)
  {
    if PlausibleUrl(w, s) {
      AcceptedHasDottedHost(w, s);
    }
  }

  /** `https://localhost` is rejected: its host has no dot. */
  lemma LocalhostRejected(w: WordClass)
    ensures !PlausibleUrl(w, "https://localhost")
  {
    DotlessRejected(w, "https://localhost");
  }

  /** `https://.com` is rejected: its only dot has no host character before it. */
  lemma LeadingDotRejected(w: WordClass)
    ensures !PlausibleUrl(w, "https://.com")
  {
    var s := "https://.com";
    if PlausibleUrl(w, s) {
      AcceptedHasDottedHost(w, s);
      var n, h :| 7 <= n < h <= |s| && SchemeLang(s[..n]) && AllDomain(w, s[n..h]) && HasInnerDot(s[n..h]);
      SchemeLangLength(s);
    }
  }

  // ---------------------------------------------------------------------------
  // The path
  // ---------------------------------------------------------------------------

  /**
    In an accepted string every character from index 7 on (all of the text
    after either scheme) is in the path class, except a final newline.
  */
  lemma AcceptedPathChars(w: WordClass, s: string)
    requires PlausibleUrl(w, s)
    ensures forall i :: 7 <= i < |s| && !(i == |s| - 1 && s[i] == '\n') ==> IsPathChar(w, s[i])
  {
    if PatternBody(w, s) {
      BodyPathChars(w, s);
    } else {
      var t := s[..|s| - 1];
      BodyPathChars(w, t);
      forall i | 7 <= i < |s| - 1 ensures IsPathChar(w, s[i]) {
        assert s[i] == t[i];
      }
    }
  }

  /** One character outside the path class after the scheme (other than a newline) rejects the string. */
  lemma ForeignCharRejected(w: WordClass, s: string, i: nat)
    requires 7 <= i < |s|
    requires !IsPathChar(w, s[i]) && s[i] != '\n'
    ensures !PlausibleUrl(w, s)
  {
    if PlausibleUrl(w, s) {
      AcceptedPathChars(w, s);
    }
  }

  /** Percent-encoding is rejected: the path class has no `%` (a space fails the same way). */
  lemma PercentEncodingRejected(w: WordClass)
    requires !w('%')
    ensures !PlausibleUrl(w, "https://example.com/a%20b")
  {
    var s := "https://example.com/a%20b";
    assert s[21] == '%';
    ForeignCharRejected(w, s, 21);
  }

  // ---------------------------------------------------------------------------
  // The end of the string
  // ---------------------------------------------------------------------------

  /**
    `$` lets exactly one trailing newline through: `s + "\n"` is accepted
    exactly when the body matches `s`, and for `s` not already ending in a
    newline, adding one changes nothing.
  */
  lemma TrailingNewline(w: WordClass, s: string)
    requires !w('\n')
    ensures PlausibleUrl(w, s + "\n") <==> PatternBody(w, s)
    ensures (|s| == 0 || s[|s| - 1] != '\n') ==> (PlausibleUrl(w, s + "\n") <==> PlausibleUrl(w, s))
  {
    var sn := s + "\n";
    assert sn[..|sn| - 1] == s;
    assert sn[|sn| - 1] == '\n';
    if PatternBody(w, sn) {
      BodyHasNoNewline(w, sn);
    }
    if |s| > 0 && s[|s| - 1] == '\n' && PatternBody(w, s) {
      BodyHasNoNewline(w, s);
    }
  }

  /** Two trailing newlines are rejected. */
  lemma DoubleNewlineRejected(w: WordClass, s: string)
    requires !w('\n')
    ensures !PlausibleUrl(w, s + "\n\n")
  {
    var s1 := s + "\n";
    assert s + "\n\n" == s1 + "\n";
    assert s1[|s1| - 1] == '\n';
    TrailingNewline(w, s1);
    if PatternBody(w, s1) {
      BodyHasNoNewline(w, s1);
    }
  }

  /** A newline anywhere but at the very end is rejected. */
  lemma InnerNewlineRejected(w: WordClass, s: string, i: nat)
    requires !w('\n')
    requires i < |s| - 1 && s[i] == '\n'
    ensures !PlausibleUrl(w, s)
  {
    if PatternBody(w, s) {
      BodyHasNoNewline(w, s);
    }
    if PatternBody(w, s[..|s| - 1]) {
      BodyHasNoNewline(w, s[..|s| - 1]);
    }
  }

  // ---------------------------------------------------------------------------
  // An accepted example
  // ---------------------------------------------------------------------------

  /**
    With the ASCII lower-case letters as word characters, `https://example.com/a`
    is accepted. Whether `/` is a word character only moves the end of the
    host run: `example.com` if it is not, `example.com/a` if it is.
  */
  lemma ExampleAccepted(w: WordClass)
    requires forall c :: 'a' <= c <= 'z' ==> w(c)
    ensures PlausibleUrl(w, "https://example.com/a")
  {
    var s := "https://example.com/a";
    assert LiteralIgnoreCase(s[..8], "https://");
    assert SchemeLength(s) == Some(8);
    var rest := s[8..];
    assert rest == "example.com/a";
    var h := if w('/') then 13 else 11;
    assert AllDomain(w, rest[..h]);
    RunLengthUnique(w, rest, h);
    assert rest[..h][7] == '.';
    assert AllPath(w, rest) by {
      forall i | 0 <= i < |rest| ensures IsPathChar(w, rest[i]) {
        assert rest[i] == '/' || 'a' <= rest[i] <= 'z' || rest[i] == '.';
      }
    }
    PatternBodyIff(w, s);
  }
}
