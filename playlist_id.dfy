/**
 * Normalisation of a playlist reference (app.py, extract_playlist_id).
 *
 * The source runs two regular-expression searches, in order:
 *   https://open\.spotify\.com/playlist/([a-zA-Z0-9]+)
 *   spotify:playlist:([a-zA-Z0-9]+)
 * and returns the first capture group of the first search that succeeds, or
 * the input itself.  Each pattern is a literal prefix followed by a greedy,
 * non-empty run of ASCII letters and digits, so a search succeeds at the
 * leftmost position where the prefix occurs and is followed by at least one
 * such character, and the capture is the maximal run that starts there.
 */
module PlaylistId {
  import opened Wrappers

  const UrlPrefix: string := "https://open.spotify.com/playlist/"
  const UriPrefix: string := "spotify:playlist:"

  /** The character class [a-zA-Z0-9]. */
  predicate IsIdChar(c: char) {
    ('a' <= c <= 'z') || ('A' <= c <= 'Z') || ('0' <= c <= '9')
  }

  predicate IsIdString(s: string) {
    forall t :: 0 <= t < |s| ==> IsIdChar(s[t])
  }

  /** The pattern "p([a-zA-Z0-9]+)" matches s at position i. */
  predicate MatchesAt(s: string, p: string, i: nat) {
    i + |p| < |s| && s[i..i + |p|] == p && IsIdChar(s[i + |p|])
  }

  ghost predicate NoMatch(s: string, p: string) {
    forall i: nat :: !MatchesAt(s, p, i)
  }

  /** i is the position a left-to-right search reports. */
  ghost predicate IsLeftmostMatch(s: string, p: string, i: nat) {
    MatchesAt(s, p, i) && forall j: nat :: j < i ==> !MatchesAt(s, p, j)
  }

  /** r is the longest run of [a-zA-Z0-9] characters of s starting at j. */
  ghost predicate IsMaximalRun(s: string, j: nat, r: string) {
    && j + |r| <= |s|
    && r == s[j..j + |r|]
    && IsIdString(r)
    && (j + |r| == |s| || !IsIdChar(s[j + |r|]))
  }

  /** Length of the greedy run of [a-zA-Z0-9] characters starting at j. */
  function RunLength(s: string, j: nat): (n: nat)
    requires j <= |s|
    ensures j + n <= |s|
    ensures forall t :: j <= t < j + n ==> IsIdChar(s[t])
    ensures j + n == |s| || !IsIdChar(s[j + n])
    decreases |s| - j
  {
    if j < |s| && IsIdChar(s[j]) then 1 + RunLength(s, j + 1) else 0
  }

  /** The first position at or after i where the pattern matches. */
  function FindFrom(s: string, p: string, i: nat): (r: Option<nat>)
    ensures r.Some? ==> i <= r.value && MatchesAt(s, p, r.value)
    ensures r.Some? ==> forall j: nat :: i <= j < r.value ==> !MatchesAt(s, p, j)
    ensures r.None? ==> forall j: nat :: i <= j ==> !MatchesAt(s, p, j)
    decreases |s| - i
  {
    if i + |p| >= |s| then None
    else if MatchesAt(s, p, i) then Some(i)
    else FindFrom(s, p, i + 1)
  }

  /** re.search(p + "([a-zA-Z0-9]+)", s).group(1), or None when it fails. */
  function Search(s: string, p: string): (r: Option<string>)
    ensures r.None? <==> NoMatch(s, p)
    ensures forall k: nat :: IsLeftmostMatch(s, p, k) ==> r.Some? && IsMaximalRun(s, k + |p|, r.value)
    ensures r.Some? ==> exists k: nat :: IsLeftmostMatch(s, p, k) && IsMaximalRun(s, k + |p|, r.value)
  {
    match FindFrom(s, p, 0)
    case None => None
    case Some(k) =>
      var n := RunLength(s, k + |p|);
      assert IsLeftmostMatch(s, p, k);
      assert forall k': nat :: IsLeftmostMatch(s, p, k') ==> k' == k;
      Some(s[k + |p|..k + |p| + n])
  }

  /**
   * extract_playlist_id: the URL capture if the URL pattern matches, else the
   * URI capture if the URI pattern matches, else the input unchanged.
   */
  function ExtractPlaylistId(input: string): (id: string)
    ensures forall k: nat :: IsLeftmostMatch(input, UrlPrefix, k) ==>
              IsMaximalRun(input, k + |UrlPrefix|, id)
    ensures NoMatch(input, UrlPrefix) ==>
              forall k: nat :: IsLeftmostMatch(input, UriPrefix, k) ==>
                IsMaximalRun(input, k + |UriPrefix|, id)
    ensures NoMatch(input, UrlPrefix) && NoMatch(input, UriPrefix) ==> id == input
  {
    match Search(input, UrlPrefix)
    case Some(id) => id
    case None =>
      match Search(input, UriPrefix)
      case Some(id) => id
      case None => input
  }

  /** When either pattern matches, the result is a non-empty run of [a-zA-Z0-9]. */
  lemma CapturedIdIsIdString(input: string)
    requires !NoMatch(input, UrlPrefix) || !NoMatch(input, UriPrefix)
    ensures |ExtractPlaylistId(input)| > 0 && IsIdString(ExtractPlaylistId(input))
  {
    var url := Search(input, UrlPrefix);
    var uri := Search(input, UriPrefix);
    if url.Some? {
      var k: nat :| IsLeftmostMatch(input, UrlPrefix, k) && IsMaximalRun(input, k + |UrlPrefix|, url.value);
      RunIsNonEmpty(input, UrlPrefix, k, url.value);
    } else {
      var k: nat :| IsLeftmostMatch(input, UriPrefix, k) && IsMaximalRun(input, k + |UriPrefix|, uri.value);
      RunIsNonEmpty(input, UriPrefix, k, uri.value);
    }
  }

  /** A run that a match starts is non-empty: the pattern needs one id character. */
  lemma RunIsNonEmpty(s: string, p: string, k: nat, r: string)
    requires MatchesAt(s, p, k) && IsMaximalRun(s, k + |p|, r)
    ensures |r| > 0
  {
  }

  /** The result is always a contiguous piece of the input. */
  lemma ExtractIsSubstring(input: string)
    ensures exists i: nat, j: nat :: i <= j <= |input| && ExtractPlaylistId(input) == input[i..j]
  {
    var id := ExtractPlaylistId(input);
    var url := Search(input, UrlPrefix);
    var uri := Search(input, UriPrefix);
    if url.Some? {
      var k: nat :| IsLeftmostMatch(input, UrlPrefix, k) && IsMaximalRun(input, k + |UrlPrefix|, url.value);
      assert id == input[k + |UrlPrefix|..k + |UrlPrefix| + |id|];
    } else if uri.Some? {
      var k: nat :| IsLeftmostMatch(input, UriPrefix, k) && IsMaximalRun(input, k + |UriPrefix|, uri.value);
      assert id == input[k + |UriPrefix|..k + |UriPrefix| + |id|];
    } else {
      assert id == input[0..|input|];
    }
  }

  /** The result is empty exactly when the input is empty. */
  lemma EmptyIdOnlyForEmptyInput(input: string)
    ensures ExtractPlaylistId(input) == [] <==> input == []
  {
    assert input == [] ==> NoMatch(input, UrlPrefix) && NoMatch(input, UriPrefix);
    if !NoMatch(input, UrlPrefix) || !NoMatch(input, UriPrefix) {
      CapturedIdIsIdString(input);
    }
  }

  /** A string made only of id characters cannot contain a prefix that holds
      a character outside the class, such as ':'. */
  lemma NoMatchInIdString(s: string, p: string, c: nat)
    requires IsIdString(s) && c < |p| && !IsIdChar(p[c])
    ensures NoMatch(s, p)
  {
    forall i: nat
      ensures !MatchesAt(s, p, i)
    {
      if i + |p| <= |s| {
        assert s[i..i + |p|][c] == s[i + c];
        assert s[i..i + |p|][c] != p[c];
      }
    }
  }

  /** Normalising twice is the same as normalising once. */
  lemma ExtractIdempotent(input: string)
    ensures ExtractPlaylistId(ExtractPlaylistId(input)) == ExtractPlaylistId(input)
  {
    var id := ExtractPlaylistId(input);
    if !NoMatch(input, UrlPrefix) || !NoMatch(input, UriPrefix) {
      CapturedIdIsIdString(input);
      assert UrlPrefix[5] == ':';
      assert UriPrefix[7] == ':';
      NoMatchInIdString(id, UrlPrefix, 5);
      NoMatchInIdString(id, UriPrefix, 7);
    }
  }

  /** A non-empty playlist input never normalises to the empty string, so the
      "Invalid playlist URL or URI." page is never produced. */
  lemma NonEmptyInputGivesNonEmptyId(input: string)
    requires input != []
    ensures ExtractPlaylistId(input) != []
  {
    EmptyIdOnlyForEmptyInput(input);
  }

  /** Every maximal run starting at j is as long as the greedy run. */
  lemma {:induction false} MaximalRunLength(s: string, j: nat, r: string)
    requires IsMaximalRun(s, j, r)
    ensures |r| == RunLength(s, j)
    decreases |r|
  {
    if |r| > 0 {
      assert s[j] == r[0];
      assert r[1..] == s[j + 1..j + 1 + |r[1..]|];
      assert IsIdString(r[1..]) by {
        forall t | 0 <= t < |r[1..]| ensures IsIdChar(r[1..][t]) {
          assert r[1..][t] == r[t + 1];
        }
      }
      MaximalRunLength(s, j + 1, r[1..]);
    }
  }

  /** The maximal run starting at a position is unique. */
  lemma MaximalRunUnique(s: string, j: nat, r1: string, r2: string)
    requires IsMaximalRun(s, j, r1) && IsMaximalRun(s, j, r2)
    ensures r1 == r2
  {
    MaximalRunLength(s, j, r1);
    MaximalRunLength(s, j, r2);
  }

  /** A reference that starts with the web-URL prefix, followed by an
      identifier and anything that does not continue it, yields that identifier. */
  lemma ExtractFromUrlForm(id: string, rest: string)
    requires |id| > 0 && IsIdString(id)
    requires rest == [] || !IsIdChar(rest[0])
    ensures ExtractPlaylistId(UrlPrefix + id + rest) == id
  {
    var s := UrlPrefix + id + rest;
    var n := |UrlPrefix|;
    assert s[..n] == UrlPrefix;
    assert s[n..n + |id|] == id;
    assert s[n] == id[0];
    assert IsLeftmostMatch(s, UrlPrefix, 0);
    assert n + |id| < |s| ==> s[n + |id|] == rest[0];
    assert IsMaximalRun(s, n, id);
    MaximalRunUnique(s, n, id, ExtractPlaylistId(s));
  }

  /** A reference that starts with the URI prefix, followed by an identifier
      and anything that does not continue it, yields that identifier when no
      web URL occurs in it. */
  lemma ExtractFromUriForm(id: string, rest: string)
    requires |id| > 0 && IsIdString(id)
    requires rest == [] || !IsIdChar(rest[0])
    requires NoMatch(UriPrefix + id + rest, UrlPrefix)
    ensures ExtractPlaylistId(UriPrefix + id + rest) == id
  {
    var s := UriPrefix + id + rest;
    var n := |UriPrefix|;
    assert s[..n] == UriPrefix;
    assert s[n..n + |id|] == id;
    assert s[n] == id[0];
    assert IsLeftmostMatch(s, UriPrefix, 0);
    assert n + |id| < |s| ==> s[n + |id|] == rest[0];
    assert IsMaximalRun(s, n, id);
    MaximalRunUnique(s, n, id, ExtractPlaylistId(s));
  }

  /** A web URL normalises to its identifier. */
  lemma ExtractFromUrlExample()
    ensures ExtractPlaylistId("https://open.spotify.com/playlist/37i9dQZF1DXcBWIGoYBM5M") == "37i9dQZF1DXcBWIGoYBM5M"
  {
    var id := "37i9dQZF1DXcBWIGoYBM5M";
    assert IsIdString(id);
    assert UrlPrefix + id + "" == "https://open.spotify.com/playlist/37i9dQZF1DXcBWIGoYBM5M";
    ExtractFromUrlForm(id, "");
  }

  /** A share URL's query string is not part of the identifier. */
  lemma ExtractStopsAtQueryExample()
    ensures ExtractPlaylistId("https://open.spotify.com/playlist/abc12?si=x") == "abc12"
  {
    var id := "abc12";
    assert IsIdString(id);
    assert UrlPrefix + id + "?si=x" == "https://open.spotify.com/playlist/abc12?si=x";
    ExtractFromUrlForm(id, "?si=x");
  }

  /** A URI normalises to its identifier. */
  lemma ExtractFromUriExample()
    ensures ExtractPlaylistId("spotify:playlist:37i9dQZF1DXcBWIGoYBM5M") == "37i9dQZF1DXcBWIGoYBM5M"
  {
    var id := "37i9dQZF1DXcBWIGoYBM5M";
    var s := UriPrefix + id + "";
    assert IsIdString(id);
    assert s == "spotify:playlist:37i9dQZF1DXcBWIGoYBM5M";
    forall i: nat
      ensures !MatchesAt(s, UrlPrefix, i)
    {
      if i + |UrlPrefix| < |s| {
        assert i < 5;
        assert s[i..i + |UrlPrefix|][0] == s[i] != UrlPrefix[0];
      }
    }
    ExtractFromUriForm(id, "");
  }

  /** A bare identifier is passed through unchanged. */
  lemma BareIdExample()
    ensures ExtractPlaylistId("37i9dQZF1DXcBWIGoYBM5M") == "37i9dQZF1DXcBWIGoYBM5M"
  {
    var s := "37i9dQZF1DXcBWIGoYBM5M";
    assert IsIdString(s);
    assert UrlPrefix[5] == ':';
    assert UriPrefix[7] == ':';
    NoMatchInIdString(s, UrlPrefix, 5);
    NoMatchInIdString(s, UriPrefix, 7);
  }
}
