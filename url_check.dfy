/**
  The URL plausibility guard `is_plausible_url` of qr_generator.py.

  The guard is one case-insensitive `re.match` of the pattern

      ^(https?://)[\w.-]+(?:\.[\w.-]+)+[/\w\-._~:?#[\]@!$&'()*+,;=]*$

  The pattern is stated here literally, piece by piece, as ghost predicates
  (SchemeLang, DomainLang, AllPath, PatternBody, PlausibleUrl). The method
  MatchBody is a left-to-right scanner proved to accept exactly the strings
  the pattern without `$` matches. IsPlausibleUrl calls it at most twice (on
  the whole string, then without one final newline) and is proved to accept
  exactly the strings the whole pattern matches.

  The word class `\w` is a parameter `w`: `w(c)` holds when `c` matches `\w`
  under the pattern's flags. No table of Unicode word characters is assumed.
*/
module UrlCheck {
  import opened Wrappers

  /** Which characters match `\w`. */
  type WordClass = char -> bool

  // ---------------------------------------------------------------------------
  // Character classes
  // ---------------------------------------------------------------------------

  /** `[\w.-]`: a character of the domain part. */
  predicate IsDomainChar(w: WordClass, c: char) {
    w(c) || c == '.' || c == '-'
  }

  /** The punctuation listed in the path class: no `%`, no space, no `<`, `>` or `"`. */
  predicate IsPathPunct(c: char) {
    c in "/-._~:?#[]@!$&'()*+,;="
  }

  /** `[/\w\-._~:?#[\]@!$&'()*+,;=]`: a character of the path, query or fragment. */
  predicate IsPathChar(w: WordClass, c: char) {
    w(c) || IsPathPunct(c)
  }

  predicate AllDomain(w: WordClass, x: string) {
    forall i :: 0 <= i < |x| ==> IsDomainChar(w, x[i])
  }

  predicate AllPath(w: WordClass, x: string) {
    forall i :: 0 <= i < |x| ==> IsPathChar(w, x[i])
  }

  /**
    `c` matches the lower-case pattern character `p` under re.IGNORECASE:
    itself, its ASCII upper-case letter, and for `s` also U+017F LATIN SMALL
    LETTER LONG S, which Python's engine treats as a case variant of `s`.
    The scheme `http://`, `https://` needs no other letters.
  */
  predicate MatchesIgnoreCase(c: char, p: char) {
    c == p
    || ('a' <= p <= 'z' && c as int == p as int - 32)
    || (p == 's' && c == '\U{017F}')
  }

  predicate LiteralIgnoreCase(x: string, lit: string) {
    |x| == |lit| && forall i :: 0 <= i < |x| ==> MatchesIgnoreCase(x[i], lit[i])
  }

  /** `s` begins with `lit`, letter case ignored. */
  predicate HasPrefixIgnoreCase(s: string, lit: string) {
    |s| >= |lit| && LiteralIgnoreCase(s[..|lit|], lit)
  }

  // ---------------------------------------------------------------------------
  // The pattern, piece by piece
  // ---------------------------------------------------------------------------

  /** `https?://` */
  ghost predicate SchemeLang(x: string) {
    LiteralIgnoreCase(x, "http://") || LiteralIgnoreCase(x, "https://")
  }

  /** `(?:\.[\w.-]+)+`: one or more groups, each a dot and a run of domain characters. */
  ghost predicate DotGroups(w: WordClass, x: string)
    decreases |x|
  {
    |x| >= 2 && x[0] == '.' &&
    exists j :: 2 <= j <= |x| && AllDomain(w, x[1..j]) && (j == |x| || DotGroups(w, x[j..]))
  }

  /** `[\w.-]+(?:\.[\w.-]+)+` */
  ghost predicate DomainLang(w: WordClass, x: string) {
    exists i :: 1 <= i < |x| && AllDomain(w, x[..i]) && DotGroups(w, x[i..])
  }

  /** The pattern without `$`: scheme, domain and path together make up all of `t`. */
  ghost predicate PatternBody(w: WordClass, t: string) {
    exists n, j :: 0 <= n <= j <= |t| && SchemeLang(t[..n]) && DomainLang(w, t[n..j]) && AllPath(w, t[j..])
  }

  /**
    The whole match. `re.match` anchors at the start; `$` matches at the end
    of the string or just before a newline that is its last character.
  */
  ghost predicate PlausibleUrl(w: WordClass, s: string) {
    PatternBody(w, s) || (|s| > 0 && s[|s| - 1] == '\n' && PatternBody(w, s[..|s| - 1]))
  }

  // ---------------------------------------------------------------------------
  // A direct characterisation of the pattern
  // ---------------------------------------------------------------------------

  /** A `.` with at least one character before it and one after it. */
  ghost predicate HasInnerDot(x: string) {
    exists k :: 1 <= k <= |x| - 2 && x[k] == '.'
  }

  /** A scheme is 7 or 8 characters long, and `t` cannot start with both. */
  lemma SchemeLangLength(t: string)
    ensures forall n :: 0 <= n <= |t| && SchemeLang(t[..n]) ==> n == 7 || n == 8
    ensures |t| >= 8 && LiteralIgnoreCase(t[..8], "https://") ==> !LiteralIgnoreCase(t[..7], "http://")
  {
    if |t| >= 8 && LiteralIgnoreCase(t[..8], "https://") {
      assert MatchesIgnoreCase(t[..8][4], "https://"[4]);
      assert t[..7][4] == t[..8][4];
      assert !MatchesIgnoreCase(t[..7][4], "http://"[4]);
    }
  }

  /** The length of the scheme `t` starts with, if it starts with one. */
  function SchemeLength(t: string): (r: Option<nat>)
    ensures r.Some? ==> r.value <= |t| && SchemeLang(t[..r.value])
    ensures forall n :: 0 <= n <= |t| && SchemeLang(t[..n]) ==> r == Some(n)
  {
    SchemeLangLength(t);
    if |t| >= 7 && LiteralIgnoreCase(t[..7], "http://") then Some(7)
    else if |t| >= 8 && LiteralIgnoreCase(t[..8], "https://") then Some(8)
    else None
  }

  /** The length of the longest prefix of `t` made of domain characters. */
  function RunLength(w: WordClass, t: string): (r: nat)
    ensures r <= |t|
    ensures AllDomain(w, t[..r])
    ensures r < |t| ==> !IsDomainChar(w, t[r])
    decreases |t|
  {
    if t == [] || !IsDomainChar(w, t[0]) then 0
    else
      1 + RunLength(w, t[1..])
  }

  /**
    What the pattern amounts to, for `t` without the final-newline allowance:
    a scheme, then only path characters, and the maximal run of domain
    characters right after the scheme holds an inner dot.
  */
  ghost predicate BodyShape(w: WordClass, t: string) {
    SchemeLength(t).Some? &&
    var rest := t[SchemeLength(t).value..];
    AllPath(w, rest) && HasInnerDot(rest[..RunLength(w, rest)])
  }

  lemma {:induction false} DotGroupsAllDomain(w: WordClass, y: string)
    requires DotGroups(w, y)
    ensures AllDomain(w, y)
    decreases |y|
  {
    var j :| 2 <= j <= |y| && AllDomain(w, y[1..j]) && (j == |y| || DotGroups(w, y[j..]));
    if j < |y| {
      DotGroupsAllDomain(w, y[j..]);
    }
    forall i | 0 <= i < |y| ensures IsDomainChar(w, y[i]) {
      if i == 0 {
      } else if i < j {
        assert y[i] == y[1..j][i - 1];
      } else {
        assert y[i] == y[j..][i - j];
      }
    }
  }

  /** `[\w.-]+(?:\.[\w.-]+)+` matches exactly the runs of domain characters with an inner dot. */
  lemma DomainLangIff(w: WordClass, x: string)
    ensures DomainLang(w, x) <==> AllDomain(w, x) && HasInnerDot(x)
  {
    if DomainLang(w, x) {
      var i :| 1 <= i < |x| && AllDomain(w, x[..i]) && DotGroups(w, x[i..]);
      DotGroupsAllDomain(w, x[i..]);
      assert x[i] == x[i..][0];
      forall k | 0 <= k < |x| ensures IsDomainChar(w, x[k]) {
        if k < i {
          assert x[k] == x[..i][k];
        } else {
          assert x[k] == x[i..][k - i];
        }
      }
    }
    if AllDomain(w, x) && HasInnerDot(x) {
      var k :| 1 <= k <= |x| - 2 && x[k] == '.';
      var y := x[k..];
      assert AllDomain(w, y[1..|y|]) by {
        forall i | 0 <= i < |y| - 1 ensures IsDomainChar(w, y[1..|y|][i]) {
          assert y[1..|y|][i] == x[k + 1 + i];
        }
      }
      assert DotGroups(w, y);
      assert AllDomain(w, x[..k]) by {
        forall i | 0 <= i < k ensures IsDomainChar(w, x[..k][i]) {
          assert x[..k][i] == x[i];
        }
      }
      assert DomainLang(w, x);
    }
  }

  /** The part of the pattern after the scheme: `[\w.-]+(?:\.[\w.-]+)+` then path characters. */
  ghost predicate AfterSchemeLang(w: WordClass, t: string) {
    exists j :: 0 <= j <= |t| && DomainLang(w, t[..j]) && AllPath(w, t[j..])
  }

  /**
    Since every domain character is also a path character, the domain part
    may as well be the maximal run of domain characters.
  */
  lemma AfterSchemeIff(w: WordClass, t: string)
    ensures AfterSchemeLang(w, t) <==> AllPath(w, t) && HasInnerDot(t[..RunLength(w, t)])
  {
    if AfterSchemeLang(w, t) {
      var j :| 0 <= j <= |t| && DomainLang(w, t[..j]) && AllPath(w, t[j..]);
      AfterSchemeSplit(w, t, j);
    }
    if AllPath(w, t) && HasInnerDot(t[..RunLength(w, t)]) {
      AfterSchemeMaximal(w, t);
    }
  }

  /** No prefix of domain characters is longer than RunLength. */
  lemma {:induction false} RunLengthMaximal(w: WordClass, t: string, j: nat)
    requires j <= |t| && AllDomain(w, t[..j])
    ensures j <= RunLength(w, t)
    decreases j
  {
    if j > 0 {
      assert t[..j][0] == t[0];
      var u := t[1..][..j - 1];
      assert AllDomain(w, u) by {
        forall i | 0 <= i < |u| ensures IsDomainChar(w, u[i]) {
          assert u[i] == t[..j][i + 1];
        }
      }
      RunLengthMaximal(w, t[1..], j - 1);
    }
  }

  /** The run of domain characters stops at the first character that is not one. */
  lemma {:induction false} RunLengthStops(w: WordClass, x: string, r: nat)
    requires r <= |x|
    requires r < |x| ==> !IsDomainChar(w, x[r])
    ensures RunLength(w, x) <= r
    decreases r
  {
    if 0 < r < |x| && IsDomainChar(w, x[0]) {
      assert x[1..][r - 1] == x[r];
      RunLengthStops(w, x[1..], r - 1);
    }
  }

  /** RunLength is the only length its three postconditions allow. */
  lemma RunLengthUnique(w: WordClass, x: string, r: nat)
    requires r <= |x| && AllDomain(w, x[..r])
    requires r < |x| ==> !IsDomainChar(w, x[r])
    ensures RunLength(w, x) == r
  {
    RunLengthMaximal(w, x, r);
    RunLengthStops(w, x, r);
  }

  lemma AfterSchemeSplit(w: WordClass, t: string, j: nat)
    requires j <= |t| && DomainLang(w, t[..j]) && AllPath(w, t[j..])
    ensures AllPath(w, t) && HasInnerDot(t[..RunLength(w, t)])
  {
    var r := RunLength(w, t);
    DomainLangIff(w, t[..j]);
    RunLengthMaximal(w, t, j);
    forall i | 0 <= i < |t| ensures IsPathChar(w, t[i]) {
      if i < j {
        assert t[i] == t[..j][i];
      } else {
        assert t[i] == t[j..][i - j];
      }
    }
    var k :| 1 <= k <= j - 2 && t[..j][k] == '.';
    assert t[..r][k] == '.';
  }

  lemma AfterSchemeMaximal(w: WordClass, t: string)
    requires AllPath(w, t) && HasInnerDot(t[..RunLength(w, t)])
    ensures AfterSchemeLang(w, t)
  {
    var r := RunLength(w, t);
    DomainLangIff(w, t[..r]);
    assert AllPath(w, t[r..]) by {
      forall i | 0 <= i < |t| - r ensures IsPathChar(w, t[r..][i]) {
        assert t[r..][i] == t[r + i];
      }
    }
  }

  lemma PatternBodyIff(w: WordClass, t: string)
    ensures PatternBody(w, t) <==> BodyShape(w, t)
  {
    if PatternBody(w, t) {
      var n, j :| 0 <= n <= j <= |t| && SchemeLang(t[..n]) && DomainLang(w, t[n..j]) && AllPath(w, t[j..]);
      PatternBodyShape(w, t, n, j);
    }
    if BodyShape(w, t) {
      ShapePatternBody(w, t);
    }
  }

  lemma PatternBodyShape(w: WordClass, t: string, n: nat, j: nat)
    requires n <= j <= |t| && SchemeLang(t[..n]) && DomainLang(w, t[n..j]) && AllPath(w, t[j..])
    ensures BodyShape(w, t)
  {
    var rest := t[n..];
    assert rest[..j - n] == t[n..j];
    assert rest[j - n..] == t[j..];
    AfterSchemeSplit(w, rest, j - n);
  }

  lemma ShapePatternBody(w: WordClass, t: string)
    requires BodyShape(w, t)
    ensures PatternBody(w, t)
  {
    var n := SchemeLength(t).value;
    var rest := t[n..];
    AfterSchemeMaximal(w, rest);
    var j' :| 0 <= j' <= |rest| && DomainLang(w, rest[..j']) && AllPath(w, rest[j'..]);
    assert rest[..j'] == t[n..n + j'];
    assert rest[j'..] == t[n + j'..];
  }

  /**
    What a scan of `x` (the text after the scheme) finds decides BodyShape:
    `r` ends the run of domain characters, `d` is its first dot after the
    first character, and `p` is where the path characters end.
  */
  lemma ScanVerdict(w: WordClass, x: string, r: nat, d: Option<nat>, p: nat)
    requires r <= p <= |x|
    requires AllDomain(w, x[..r]) && (r < |x| ==> !IsDomainChar(w, x[r]))
    requires forall k :: r <= k < p ==> IsPathChar(w, x[k])
    requires p < |x| ==> !IsPathChar(w, x[p])
    requires d.None? ==> forall k :: 1 <= k < r ==> x[k] != '.'
    requires d.Some? ==> 1 <= d.value < r && x[d.value] == '.'
    requires d.Some? ==> forall k :: 1 <= k < d.value ==> x[k] != '.'
    ensures AllPath(w, x) && HasInnerDot(x[..RunLength(w, x)]) <==> p == |x| && d.Some? && d.value <= r - 2
  {
    RunLengthUnique(w, x, r);
    if p == |x| {
      forall k | 0 <= k < |x| ensures IsPathChar(w, x[k]) {
        if k < r {
          assert x[k] == x[..r][k];
        }
      }
    }
    if d.Some? && d.value <= r - 2 {
      assert x[..r][d.value] == '.';
    }
    if HasInnerDot(x[..r]) {
      var k :| 1 <= k <= r - 2 && x[..r][k] == '.';
      assert x[k] == '.';
    }
  }

  // ---------------------------------------------------------------------------
  // The recogniser
  // ---------------------------------------------------------------------------

  /** Scans `t` once, left to right, for the pattern without `$`'s newline allowance. */
  method MatchBody(w: WordClass, t: string) returns (ok: bool)
    ensures ok == PatternBody(w, t)
  {
    PatternBodyIff(w, t);
    var scheme := SchemeLength(t);
    if scheme.None? {
      return false;
    }
    var x := t[scheme.value..];
    // The host: the maximal run of domain characters, remembering its first
    // dot that has at least one host character before it.
    var i := 0;
    var dot: Option<nat> := None;
    while i < |x| && IsDomainChar(w, x[i])
      invariant i <= |x|
      invariant AllDomain(w, x[..i])
      invariant dot.None? ==> forall k :: 1 <= k < i ==> x[k] != '.'
      invariant dot.Some? ==> 1 <= dot.value < i && x[dot.value] == '.'
      invariant dot.Some? ==> forall k :: 1 <= k < dot.value ==> x[k] != '.'
    {
      if dot.None? && i >= 1 && x[i] == '.' {
        dot := Some(i);
      }
      i := i + 1;
    }
    // The rest: every remaining character must be a path character.
    var j := i;
    while j < |x| && IsPathChar(w, x[j])
      invariant i <= j <= |x|
      invariant forall k :: i <= k < j ==> IsPathChar(w, x[k])
    {
      j := j + 1;
    }
    ok := j == |x| && dot.Some? && dot.value <= i - 2;
    ScanVerdict(w, x, i, dot, j);
  }

  /** `is_plausible_url`: whether `s` matches the pattern, `$` included. */
  method IsPlausibleUrl(w: WordClass, s: string) returns (ok: bool)
    ensures ok == PlausibleUrl(w, s)
  {
    ok := MatchBody(w, s);
    if !ok && |s| > 0 && s[|s| - 1] == '\n' {
      ok := MatchBody(w, s[..|s| - 1]);
    }
  }
}
