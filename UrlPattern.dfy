/**
 * The URL syntax check of the submit route: the anchored, case-insensitive
 * pattern
 *
 *   ^(http://www.|https://www.|http://|https://)?
 *     [a-z0-9]+([-.][a-z0-9]+)* \.[a-z]{2,5} (:[0-9]{1,5})? (/.*)?$
 *
 * The module gives the pattern twice: once as a grammar whose pieces are
 * found by existential choice of split points (how a backtracking regex
 * engine reads it), and once as a deterministic recognizer IsValidUrl that
 * computes the split points.  MatchesIffValid proves the two agree.
 */
module UrlPattern {
  import opened JsParseInt

  // ---------------------------------------------------------------------
  // Character classes, with the `i` flag applied.  In non-Unicode mode the
  // flag folds ASCII letters only, so [a-z] is exactly the 52 ASCII letters.
  // ---------------------------------------------------------------------

  predicate IsLetter(c: char) { 'a' <= c <= 'z' || 'A' <= c <= 'Z' }

  predicate IsAlnum(c: char) { IsLetter(c) || IsDecimalDigit(c) }

  /** The class [\-\.] that joins two labels of the host. */
  predicate IsSeparator(c: char) { c == '-' || c == '.' }

  /** Anything that may occur in the host-and-TLD part. */
  predicate IsHostChar(c: char) { IsAlnum(c) || IsSeparator(c) }

  /** The characters that `.` does not match. */
  predicate IsLineTerminator(c: char) {
    c == '\n' || c == '\r' || c == '\U{2028}' || c == '\U{2029}'
  }

  /**
   * ASCII lower-casing, the folding that the `i` flag performs: the result is
   * no upper-case letter, it is a letter exactly when `c` is, and only
   * upper-case letters are changed.
   */
  function ToLower(c: char): (d: char)
    ensures !('A' <= d <= 'Z')
    ensures IsLetter(d) == IsLetter(c)
    ensures d != c ==> 'A' <= c <= 'Z'
  {
    if 'A' <= c <= 'Z' then (c as int + 32) as char else c
  }

  function Lowered(s: string): string {
    seq(|s|, i requires 0 <= i < |s| => ToLower(s[i]))
  }

  // ---------------------------------------------------------------------
  // The pattern as a grammar
  // ---------------------------------------------------------------------

  const Schemes: set<string> := {"http://www.", "https://www.", "http://", "https://"}

  /** The optional first group, matched case-insensitively. */
  ghost predicate IsSchemePrefix(p: string) {
    p == [] || Lowered(p) in Schemes
  }

  /** [a-z0-9]+([\-\.][a-z0-9]+)* : alphanumeric labels joined by single separators. */
  ghost predicate IsHost(h: string) {
    && |h| > 0
    && IsAlnum(h[0])
    && IsAlnum(h[|h| - 1])
    && (forall i :: 0 <= i < |h| ==> IsHostChar(h[i]))
    && (forall i :: 0 <= i < |h| - 1 && IsSeparator(h[i]) ==> IsAlnum(h[i + 1]))
  }

  /** [a-z]{2,5} */
  predicate IsTld(t: string) {
    2 <= |t| <= 5 && forall i :: 0 <= i < |t| ==> IsLetter(t[i])
  }

  /** A host, a dot at position `m`, and a top-level domain. */
  ghost predicate IsDomainAt(d: string, m: int) {
    0 <= m < |d| && d[m] == '.' && IsHost(d[..m]) && IsTld(d[m + 1..])
  }

  ghost predicate IsDomain(d: string) {
    exists m :: IsDomainAt(d, m)
  }

  /** (:[0-9]{1,5})? */
  predicate IsPort(q: string) {
    q == [] || (q[0] == ':' && 2 <= |q| <= 6 && forall i :: 1 <= i < |q| ==> IsDecimalDigit(q[i]))
  }

  /** (\/.*)? */
  predicate IsPath(q: string) {
    q == [] || (q[0] == '/' && forall i :: 0 <= i < |q| ==> !IsLineTerminator(q[i]))
  }

  /** A port ending at position `k`, and the path after it. */
  ghost predicate IsPortAndPathAt(q: string, k: int) {
    0 <= k <= |q| && IsPort(q[..k]) && IsPath(q[k..])
  }

  ghost predicate IsPortAndPath(q: string) {
    exists k :: IsPortAndPathAt(q, k)
  }

  /** The domain ends at position `j`; port and path follow. */
  ghost predicate AfterSchemeAt(r: string, j: int) {
    0 <= j <= |r| && IsDomain(r[..j]) && IsPortAndPath(r[j..])
  }

  /** Everything the pattern requires after the optional scheme group. */
  ghost predicate MatchesAfterScheme(r: string) {
    exists j :: AfterSchemeAt(r, j)
  }

  /** The scheme group takes the first `i` characters. */
  ghost predicate PatternAt(s: string, i: int) {
    0 <= i <= |s| && IsSchemePrefix(s[..i]) && MatchesAfterScheme(s[i..])
  }

  /** The whole anchored pattern. */
  ghost predicate MatchesPattern(s: string) {
    exists i :: PatternAt(s, i)
  }

  // ---------------------------------------------------------------------
  // The recognizer
  // ---------------------------------------------------------------------

  /** Length of the longest prefix of `s` made of host characters. */
  function HostRunLength(s: string): (n: nat)
    ensures n <= |s|
    ensures forall i :: 0 <= i < n ==> IsHostChar(s[i])
    ensures n < |s| ==> !IsHostChar(s[n])
  {
    if s == [] || !IsHostChar(s[0]) then 0 else 1 + HostRunLength(s[1..])
  }

  /** Position of the last occurrence of `c` in `s`, or -1 when there is none. */
  function LastIndexOf(s: string, c: char): (m: int)
    ensures -1 <= m < |s|
    ensures m >= 0 ==> s[m] == c
    ensures forall i :: m < i < |s| ==> s[i] != c
  {
    if s == [] then -1
    else if s[|s| - 1] == c then |s| - 1
    else LastIndexOf(s[..|s| - 1], c)
  }

  /** Scans a host label by label. */
  function HostOk(h: string): (ok: bool)
    ensures ok == IsHost(h)
  {
    if |h| == 0 || !IsAlnum(h[0]) then false
    else if |h| == 1 then true
    else if IsAlnum(h[1]) then HostOk(h[1..])
    else IsSeparator(h[1]) && HostOk(h[2..])
  }

  /** The host and TLD are split at the last dot, since a TLD holds none. */
  function DomainOk(d: string): (ok: bool)
    ensures ok == IsDomain(d)
  {
    var m := LastIndexOf(d, '.');
    var ok := m >= 0 && HostOk(d[..m]) && IsTld(d[m + 1..]);
    assert ok ==> IsDomainAt(d, m);
    assert IsDomain(d) ==> ok by {
      if IsDomain(d) {
        var m' :| IsDomainAt(d, m');
        if m > m' {
          assert d[m' + 1..][m - m' - 1] == d[m];
        }
      }
    }
    ok
  }

  /** The optional port and the optional path. */
  function PortAndPathOk(q: string): (ok: bool)
    ensures ok == IsPortAndPath(q)
  {
    var ok :=
      if q == [] then true
      else if q[0] == '/' then IsPath(q)
      else if q[0] == ':' then
        var n := DigitRunLength(q[1..], 10);
        1 <= n <= 5 && IsPath(q[1 + n..])
      else false;
    assert ok ==> IsPortAndPath(q) by {
      if ok {
        if q == [] || q[0] == '/' {
          assert IsPort(q[..0]) && q[0..] == q;
          assert IsPortAndPathAt(q, 0);
        } else {
          var n := DigitRunLength(q[1..], 10);
          var port := q[..1 + n];
          assert IsPort(port) by {
            forall i | 1 <= i < |port| ensures IsDecimalDigit(port[i]) {
              assert port[i] == q[1..][i - 1];
            }
          }
          assert IsPortAndPathAt(q, 1 + n);
        }
      }
    }
    assert IsPortAndPath(q) ==> ok by {
      if IsPortAndPath(q) {
        var k :| IsPortAndPathAt(q, k);
        if k > 0 {
          assert q[0] == q[..k][0];
          var n := DigitRunLength(q[1..], 10);
          forall i | 0 <= i < k - 1 ensures IsDecimalDigit(q[1..][i]) {
            assert q[1..][i] == q[..k][i + 1];
          }
          if k < |q| {
            assert q[k] == q[k..][0];
            assert q[1..][k - 1] == q[k];
          }
          assert n == k - 1;
        } else {
          assert q[0..] == q;
        }
      }
    }
    ok
  }

  /** Everything after the scheme: the host run is the domain, the rest is port and path. */
  function AfterSchemeOk(r: string): (ok: bool)
    ensures ok == MatchesAfterScheme(r)
  {
    var j := HostRunLength(r);
    var ok := DomainOk(r[..j]) && PortAndPathOk(r[j..]);
    assert ok ==> AfterSchemeAt(r, j);
    assert MatchesAfterScheme(r) ==> ok by {
      if MatchesAfterScheme(r) {
        var j' :| AfterSchemeAt(r, j');
        DomainHostChars(r[..j']);
        assert forall i :: 0 <= i < j' ==> r[..j'][i] == r[i];
        if j' < |r| {
          NotHostCharAfterDomain(r[j'..]);
          assert r[j'..][0] == r[j'];
        }
        assert j == j';
      }
    }
    ok
  }

  /** Every character of a domain is a host character. */
  lemma DomainHostChars(d: string)
    requires IsDomain(d)
    ensures forall i :: 0 <= i < |d| ==> IsHostChar(d[i])
  {
    var m :| IsDomainAt(d, m);
    forall i | 0 <= i < |d| ensures IsHostChar(d[i]) {
      if i < m {
        assert d[..m][i] == d[i];
      } else if i > m {
        assert d[m + 1..][i - m - 1] == d[i];
      }
    }
  }

  /** Port and path begin with a character that cannot extend the domain. */
  lemma NotHostCharAfterDomain(q: string)
    requires IsPortAndPath(q) && q != []
    ensures !IsHostChar(q[0])
  {
    var k :| IsPortAndPathAt(q, k);
    if k > 0 {
      assert q[..k][0] == q[0];
    } else {
      assert q[0..] == q;
    }
  }

  /** Case-insensitive test that `s` begins with the lower-case literal `p`. */
  predicate StartsWithIgnoringCase(s: string, p: string) {
    |p| <= |s| && Lowered(s[..|p|]) == p
  }

  /**
   * The test `checkValidUrl.test(url)`.  Of the four scheme alternatives only
   * the two without `www.` are tried: a `www.` after the scheme is always
   * also a valid first label of the host (WwwPrefixIsRedundant).
   */
  function IsValidUrl(s: string): bool {
    || AfterSchemeOk(s)
    || (StartsWithIgnoringCase(s, "http://") && AfterSchemeOk(s[7..]))
    || (StartsWithIgnoringCase(s, "https://") && AfterSchemeOk(s[8..]))
  }

  // ---------------------------------------------------------------------
  // Properties
  // ---------------------------------------------------------------------

  /** A `www.` in front of a host is one more label of it. */
  lemma WwwHost(w: string, h: string)
    requires Lowered(w) == "www." && IsHost(h)
    ensures IsHost(w + h)
  {
    assert Lowered(w)[0] == ToLower(w[0]) && Lowered(w)[1] == ToLower(w[1]);
    assert Lowered(w)[2] == ToLower(w[2]) && Lowered(w)[3] == ToLower(w[3]);
    var wh := w + h;
    forall i | 0 <= i < |wh| ensures IsHostChar(wh[i]) {
      if i >= 4 {
        assert wh[i] == h[i - 4];
      }
    }
    forall i | 0 <= i < |wh| - 1 && IsSeparator(wh[i]) ensures IsAlnum(wh[i + 1]) {
      if i == 3 {
        assert wh[4] == h[0];
      } else if i > 3 {
        assert wh[i] == h[i - 4] && wh[i + 1] == h[i - 3];
      }
    }
    assert wh[|wh| - 1] == h[|h| - 1];
  }

  lemma WwwDomain(w: string, d: string, m: int)
    requires Lowered(w) == "www." && IsDomainAt(d, m)
    ensures IsDomainAt(w + d, m + 4)
  {
    var wd := w + d;
    assert wd[..m + 4] == w + d[..m];
    assert wd[m + 5..] == d[m + 1..];
    assert wd[m + 4] == d[m];
    WwwHost(w, d[..m]);
  }

  /** A `www.` matched by the scheme group can be matched by the host instead. */
  lemma WwwPrefixIsRedundant(w: string, r: string)
    requires Lowered(w) == "www."
    requires MatchesAfterScheme(r)
    ensures MatchesAfterScheme(w + r)
  {
    var j :| AfterSchemeAt(r, j);
    var m :| IsDomainAt(r[..j], m);
    var s := w + r;
    assert s[..j + 4] == w + r[..j];
    assert s[j + 4..] == r[j..];
    WwwDomain(w, r[..j], m);
    assert AfterSchemeAt(s, j + 4);
  }

  lemma LoweredPrefix(s: string, i: int)
    requires 0 <= i <= |s|
    ensures Lowered(s)[..i] == Lowered(s[..i])
  {
  }

  lemma LoweredSuffix(s: string, i: int)
    requires 0 <= i <= |s|
    ensures Lowered(s)[i..] == Lowered(s[i..])
  {
  }

  /** Lower-casing keeps every character class of the pattern. */
  lemma LowerKeepsClass(c: char)
    ensures IsLetter(ToLower(c)) == IsLetter(c) && IsDecimalDigit(ToLower(c)) == IsDecimalDigit(c)
    ensures IsSeparator(ToLower(c)) == IsSeparator(c) && IsLineTerminator(ToLower(c)) == IsLineTerminator(c)
    ensures (ToLower(c) == '.') == (c == '.') && (ToLower(c) == ':') == (c == ':')
    ensures (ToLower(c) == '/') == (c == '/')
  {
  }

  lemma LowerPreservesHost(h: string)
    ensures IsHost(Lowered(h)) == IsHost(h)
  {
    var l := Lowered(h);
    forall i | 0 <= i < |h| ensures IsHostChar(l[i]) == IsHostChar(h[i])
      && IsSeparator(l[i]) == IsSeparator(h[i]) && IsAlnum(l[i]) == IsAlnum(h[i]) {
      LowerKeepsClass(h[i]);
    }
  }

  lemma LowerPreservesTld(t: string)
    ensures IsTld(Lowered(t)) == IsTld(t)
  {
    var l := Lowered(t);
    forall i | 0 <= i < |t| ensures IsLetter(l[i]) == IsLetter(t[i]) {
      LowerKeepsClass(t[i]);
    }
  }

  lemma LowerPreservesPort(q: string)
    ensures IsPort(Lowered(q)) == IsPort(q)
  {
    var l := Lowered(q);
    forall i | 0 <= i < |q| ensures IsDecimalDigit(l[i]) == IsDecimalDigit(q[i]) && (l[i] == ':') == (q[i] == ':') {
      LowerKeepsClass(q[i]);
    }
  }

  lemma LowerPreservesPath(q: string)
    ensures IsPath(Lowered(q)) == IsPath(q)
  {
    var l := Lowered(q);
    forall i | 0 <= i < |q|
      ensures IsLineTerminator(l[i]) == IsLineTerminator(q[i]) && (l[i] == '/') == (q[i] == '/') {
      LowerKeepsClass(q[i]);
    }
  }

  lemma LowerPreservesDomain(d: string)
    ensures IsDomain(Lowered(d)) == IsDomain(d)
  {
    var l := Lowered(d);
    forall m ensures IsDomainAt(l, m) == IsDomainAt(d, m) {
      if 0 <= m < |d| {
        LoweredPrefix(d, m);
        LoweredSuffix(d, m + 1);
        LowerKeepsClass(d[m]);
        LowerPreservesHost(d[..m]);
        LowerPreservesTld(d[m + 1..]);
      }
    }
  }

  lemma LowerPreservesPortAndPath(q: string)
    ensures IsPortAndPath(Lowered(q)) == IsPortAndPath(q)
  {
    var l := Lowered(q);
    forall k ensures IsPortAndPathAt(l, k) == IsPortAndPathAt(q, k) {
      if 0 <= k <= |q| {
        LoweredPrefix(q, k);
        LoweredSuffix(q, k);
        LowerPreservesPort(q[..k]);
        LowerPreservesPath(q[k..]);
      }
    }
  }

  lemma LowerPreservesAfterScheme(r: string)
    ensures MatchesAfterScheme(Lowered(r)) == MatchesAfterScheme(r)
  {
    var l := Lowered(r);
    forall j ensures AfterSchemeAt(l, j) == AfterSchemeAt(r, j) {
      if 0 <= j <= |r| {
        LoweredPrefix(r, j);
        LoweredSuffix(r, j);
        LowerPreservesDomain(r[..j]);
        LowerPreservesPortAndPath(r[j..]);
      }
    }
  }

  /** The grammar ignores ASCII case: the effect of the `i` flag. */
  lemma LowerPreservesMatch(s: string)
    ensures MatchesPattern(Lowered(s)) == MatchesPattern(s)
  {
    var l := Lowered(s);
    forall i ensures PatternAt(l, i) == PatternAt(s, i) {
      if 0 <= i <= |s| {
        LoweredPrefix(s, i);
        LoweredSuffix(s, i);
        assert Lowered(Lowered(s[..i])) == Lowered(s[..i]);
        LowerPreservesAfterScheme(s[i..]);
      }
    }
  }

  lemma ValidImpliesMatches(s: string)
    requires IsValidUrl(s)
    ensures MatchesPattern(s)
  {
    if AfterSchemeOk(s) {
      assert s[..0] == [] && s[0..] == s;
      assert PatternAt(s, 0);
    } else if StartsWithIgnoringCase(s, "http://") && AfterSchemeOk(s[7..]) {
      assert PatternAt(s, 7);
    } else {
      assert PatternAt(s, 8);
    }
  }

  /** A scheme group `p` followed by `www.` can be read as `p` alone. */
  lemma DropWww(s: string, p: string)
    requires |p| + 4 <= |s| && Lowered(s[..|p| + 4]) == p + "www."
    requires MatchesAfterScheme(s[|p| + 4..])
    ensures StartsWithIgnoringCase(s, p) && MatchesAfterScheme(s[|p|..])
  {
    var k := |p|;
    var w := s[k..k + 4];
    var l := Lowered(s[..k + 4]);
    assert l[..k] == p && l[k..] == "www.";
    assert s[..k + 4][..k] == s[..k] && s[..k + 4][k..] == w;
    LoweredPrefix(s[..k + 4], k);
    LoweredSuffix(s[..k + 4], k);
    WwwPrefixIsRedundant(w, s[k + 4..]);
    assert w + s[k + 4..] == s[k..];
  }

  /** The four alternatives of the scheme group, told apart by length. */
  lemma SchemeForms(p: string)
    requires IsSchemePrefix(p) && p != []
    ensures |p| == 7 ==> Lowered(p) == "http://"
    ensures |p| == 8 ==> Lowered(p) == "https://"
    ensures |p| == 11 ==> Lowered(p) == "http://" + "www."
    ensures |p| == 12 ==> Lowered(p) == "https://" + "www."
    ensures |p| == 7 || |p| == 8 || |p| == 11 || |p| == 12
  {
  }

  lemma MatchesImpliesValid(s: string)
    requires MatchesPattern(s)
    ensures IsValidUrl(s)
  {
    var i :| PatternAt(s, i);
    if i == 0 {
      assert s[0..] == s;
    } else {
      SchemeForms(s[..i]);
      if i == 11 {
        DropWww(s, "http://");
      } else if i == 12 {
        DropWww(s, "https://");
      } else {
        assert StartsWithIgnoringCase(s, Lowered(s[..i]));
      }
    }
  }

  /** The recognizer accepts exactly the strings the pattern matches. */
  lemma MatchesIffValid(s: string)
    ensures IsValidUrl(s) <==> MatchesPattern(s)
  {
    if IsValidUrl(s) {
      ValidImpliesMatches(s);
    }
    if MatchesPattern(s) {
      MatchesImpliesValid(s);
    }
  }

  /** The `i` flag: acceptance does not depend on ASCII case. */
  lemma ValidIgnoresCase(s: string)
    ensures IsValidUrl(Lowered(s)) == IsValidUrl(s)
  {
    MatchesIffValid(s);
    MatchesIffValid(Lowered(s));
    LowerPreservesMatch(s);
  }

  // Examples: the doc comment's URL, the shortest accepted form, and
  // strings rejected for their scheme, emptiness, TLD length and port length.

  lemma HostRunIs(s: string, n: nat)
    requires n <= |s| && forall i :: 0 <= i < n ==> IsHostChar(s[i])
    requires n < |s| ==> !IsHostChar(s[n])
    ensures HostRunLength(s) == n
  {
  }

  lemma LastIndexIs(s: string, c: char, m: int)
    requires 0 <= m < |s| && s[m] == c && forall i :: m < i < |s| ==> s[i] != c
    ensures LastIndexOf(s, c) == m
  {
  }

  /** A scheme group, a host, a dot and a TLD, with neither port nor path. */
  lemma AcceptsParts(p: string, h: string, t: string)
    requires IsSchemePrefix(p) && IsHost(h) && IsTld(t)
    ensures IsValidUrl(p + h + "." + t)
  {
    var s := p + h + "." + t;
    var r := h + "." + t;
    assert s[..|p|] == p && s[|p|..] == r;
    assert r[..|h|] == h && r[|h|] == '.' && r[|h| + 1..] == t;
    assert IsDomainAt(r, |h|);
    assert r[..|r|] == r && r[|r|..] == [];
    assert IsPortAndPathAt([], 0);
    assert AfterSchemeAt(r, |r|);
    assert PatternAt(s, |p|);
    MatchesIffValid(s);
  }

  lemma IsHostExample(h: string)
    requires h == "www.freecodecamp" || h == "freeCodeCamp" || h == "a"
    ensures IsHost(h)
  {
  }

  lemma HttpsScheme(p: string)
    requires p == "https://"
    ensures IsSchemePrefix(p)
  {
    assert Lowered(p) == p;
  }

  lemma AcceptsDocExample(s: string)
    requires s == "https://www.freecodecamp.org"
    ensures IsValidUrl(s)
  {
    assert s == "https://" + "www.freecodecamp" + "." + "org";
    HttpsScheme("https://");
    IsHostExample("www.freecodecamp");
    AcceptsParts("https://", "www.freecodecamp", "org");
  }

  lemma AcceptsMixedCase(s: string)
    requires s == "https://freeCodeCamp.org"
    ensures IsValidUrl(s)
  {
    assert s == "https://" + "freeCodeCamp" + "." + "org";
    HttpsScheme("https://");
    IsHostExample("freeCodeCamp");
    AcceptsParts("https://", "freeCodeCamp", "org");
  }

  lemma AcceptsShortest(s: string)
    requires s == "a.bc"
    ensures IsValidUrl(s)
  {
    assert s == [] + "a" + "." + "bc";
    IsHostExample("a");
    AcceptsParts([], "a", "bc");
  }

  lemma RejectsFtp(s: string)
    requires s == "ftp://a.com"
    ensures !IsValidUrl(s)
  {
    HostRunIs(s, 3);
    assert s[..3] == "ftp";
    assert !StartsWithIgnoringCase(s, "http://") by { assert Lowered(s[..7])[0] == 'f'; }
    assert !StartsWithIgnoringCase(s, "https://") by { assert Lowered(s[..8])[0] == 'f'; }
  }

  lemma RejectsEmpty(s: string)
    requires s == ""
    ensures !IsValidUrl(s)
  {
  }

  lemma RejectsLongTld(s: string)
    requires s == "a.abcdef"
    ensures !IsValidUrl(s)
  {
    HostRunIs(s, |s|);
    assert s[..|s|] == s;
    LastIndexIs(s, '.', 1);
    assert s[2..] == "abcdef";
    assert !StartsWithIgnoringCase(s, "http://") by { assert Lowered(s[..7])[0] == 'a'; }
    assert !StartsWithIgnoringCase(s, "https://") by { assert Lowered(s[..8])[0] == 'a'; }
  }

  lemma RejectsLongPort(s: string)
    requires s == "a.com:123456"
    ensures !IsValidUrl(s)
  {
    HostRunIs(s, 5);
    var q := s[5..];
    assert q == ":123456";
    DigitRunIs(q[1..], 10, 6);
    assert !StartsWithIgnoringCase(s, "http://") by { assert Lowered(s[..7])[0] == 'a'; }
    assert !StartsWithIgnoringCase(s, "https://") by { assert Lowered(s[..8])[0] == 'a'; }
  }
}
