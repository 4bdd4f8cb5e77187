/**
 * The artist filter of remove_artist_tracks (app.py): for every track item,
 * for every artist credited on it, an entry {"uri": track uri} is appended
 * when the artist's id equals the target.  No deduplication takes place.
 */
module TrackFilter {

  /** A playlist item as the filter sees it: its URI and its artists' ids. */
  datatype Track = Track(uri: string, artistIds: seq<string>)

  /** One entry {"uri": ...} of the delete payload. */
  datatype TrackRef = TrackRef(uri: string)

  /** The hard-coded artist whose tracks are removed. */
  const TargetArtistId: string := "5K4W6rqBFWDnAN6FQUkS6x"

  /** The entries the inner loop appends for one track, over the given artists. */
  function Credits(uri: string, artistIds: seq<string>, target: string): (r: seq<TrackRef>)
    ensures |r| <= |artistIds|
    ensures forall k :: 0 <= k < |r| ==> r[k] == TrackRef(uri)
    decreases |artistIds|
  {
    if artistIds == [] then []
    else
      var last := artistIds[|artistIds| - 1];
      Credits(uri, artistIds[..|artistIds| - 1], target)
        + (if last == target then [TrackRef(uri)] else [])
  }

  /** The list tracks_to_remove holds after the outer loop has seen the given tracks. */
  function Matching(tracks: seq<Track>, target: string): (r: seq<TrackRef>)
    decreases |tracks|
  {
    if tracks == [] then []
    else
      var last := tracks[|tracks| - 1];
      Matching(tracks[..|tracks| - 1], target) + Credits(last.uri, last.artistIds, target)
  }

  /** The nested filter loop, appending to tracks_to_remove in place. */
  method CollectTracksToRemove(tracks: seq<Track>, target: string) returns (toRemove: seq<TrackRef>)
    ensures toRemove == Matching(tracks, target)
  {
    toRemove := [];
    var i := 0;
    while i < |tracks|
      invariant 0 <= i <= |tracks|
      invariant toRemove == Matching(tracks[..i], target)
    {
      var track := tracks[i];
      var j := 0;
      while j < |track.artistIds|
        invariant 0 <= j <= |track.artistIds|
        invariant toRemove == Matching(tracks[..i], target) + Credits(track.uri, track.artistIds[..j], target)
      {
        assert track.artistIds[..j + 1][..j] == track.artistIds[..j];
        if track.artistIds[j] == target {
          toRemove := toRemove + [TrackRef(track.uri)];
        }
        j := j + 1;
      }
      assert track.artistIds[..j] == track.artistIds;
      assert tracks[..i + 1][..i] == tracks[..i];
      i := i + 1;
    }
    assert tracks[..i] == tracks;
  }

  /** The entries for one track are its URI, repeated once per credit of the target. */
  lemma {:induction false} CreditsAreRepeatedUri(uri: string, artistIds: seq<string>, target: string)
    ensures Credits(uri, artistIds, target) == seq(multiset(artistIds)[target], _ => TrackRef(uri))
    decreases |artistIds|
  {
    if artistIds != [] {
      var init := artistIds[..|artistIds| - 1];
      var last := artistIds[|artistIds| - 1];
      assert artistIds == init + [last];
      CreditsAreRepeatedUri(uri, init, target);
      assert multiset(artistIds) == multiset(init) + multiset{last};
    }
  }

  /** Filtering a concatenation filters each part, in order. */
  lemma {:induction false} MatchingAppend(a: seq<Track>, b: seq<Track>, target: string)
    ensures Matching(a + b, target) == Matching(a, target) + Matching(b, target)
    decreases |b|
  {
    if b == [] {
      assert a + b == a;
    } else {
      var init := b[..|b| - 1];
      assert (a + b)[..|a + b| - 1] == a + init;
      MatchingAppend(a, init, target);
    }
  }

  /** Number of (track, artist) pairs whose artist is the target, for tracks with this URI. */
  function CreditCount(tracks: seq<Track>, uri: string, target: string): (n: nat)
    decreases |tracks|
  {
    if tracks == [] then 0
    else
      var last := tracks[|tracks| - 1];
      CreditCount(tracks[..|tracks| - 1], uri, target)
        + (if last.uri == uri then multiset(last.artistIds)[target] else 0)
  }

  /** Each URI occurs in the list exactly once per crediting (track, artist)
      pair: a track crediting the artist twice is listed twice. */
  lemma {:induction false} MatchingMultiplicity(tracks: seq<Track>, uri: string, target: string)
    ensures multiset(Matching(tracks, target))[TrackRef(uri)] == CreditCount(tracks, uri, target)
    decreases |tracks|
  {
    if tracks != [] {
      var init := tracks[..|tracks| - 1];
      var last := tracks[|tracks| - 1];
      MatchingMultiplicity(init, uri, target);
      CreditsAreRepeatedUri(last.uri, last.artistIds, target);
      var c := seq(multiset(last.artistIds)[target], _ => TrackRef(last.uri));
      assert multiset(Matching(tracks, target)) == multiset(Matching(init, target)) + multiset(c);
      RepeatedCount(last.uri, multiset(last.artistIds)[target], uri);
    }
  }

  /** Occurrences of an entry in a run of one repeated entry. */
  lemma {:induction false} RepeatedCount(u: string, n: nat, uri: string)
    ensures multiset(seq(n, _ => TrackRef(u)))[TrackRef(uri)] == if u == uri then n else 0
    decreases n
  {
    if n > 0 {
      var r := seq(n, _ => TrackRef(u));
      var shorter := seq(n - 1, _ => TrackRef(u));
      assert r == shorter + [TrackRef(u)];
      RepeatedCount(u, n - 1, uri);
    }
  }

  /** Every listed entry is the URI of a track that credits the target. */
  lemma {:induction false} MatchingSound(tracks: seq<Track>, target: string, e: TrackRef)
    requires e in Matching(tracks, target)
    ensures exists i :: 0 <= i < |tracks| && tracks[i].uri == e.uri && target in tracks[i].artistIds
    decreases |tracks|
  {
    var init := tracks[..|tracks| - 1];
    var last := tracks[|tracks| - 1];
    CreditsAreRepeatedUri(last.uri, last.artistIds, target);
    if e in Matching(init, target) {
      MatchingSound(init, target, e);
      var i :| 0 <= i < |init| && init[i].uri == e.uri && target in init[i].artistIds;
      assert tracks[i] == init[i];
    } else {
      assert e in Credits(last.uri, last.artistIds, target);
      assert multiset(last.artistIds)[target] > 0;
      assert tracks[|tracks| - 1] == last;
    }
  }

  /** Every track that credits the target has its URI listed. */
  lemma {:induction false} MatchingComplete(tracks: seq<Track>, target: string, i: nat)
    requires i < |tracks| && target in tracks[i].artistIds
    ensures TrackRef(tracks[i].uri) in Matching(tracks, target)
  {
    var before := tracks[..i];
    var t := tracks[i];
    var after := tracks[i + 1..];
    assert tracks == before + [t] + after;
    MatchingAppend(before + [t], after, target);
    MatchingAppend(before, [t], target);
    assert [t][..0] == [];
    CreditsAreRepeatedUri(t.uri, t.artistIds, target);
    assert multiset(t.artistIds)[target] > 0;
    assert Matching([t], target)[0] == TrackRef(t.uri);
  }

  /** The list is empty exactly when no track credits the target. */
  lemma MatchingEmptyIff(tracks: seq<Track>, target: string)
    ensures Matching(tracks, target) == [] <==>
              forall i :: 0 <= i < |tracks| ==> target !in tracks[i].artistIds
  {
    if Matching(tracks, target) != [] {
      MatchingSound(tracks, target, Matching(tracks, target)[0]);
    }
    forall i | 0 <= i < |tracks| && target in tracks[i].artistIds
      ensures Matching(tracks, target) != []
    {
      MatchingComplete(tracks, target, i);
    }
  }

  /** A track that credits the target twice is listed twice. */
  lemma NoDeduplicationExample()
    ensures Matching([Track("spotify:track:a", [TargetArtistId, TargetArtistId])], TargetArtistId)
         == [TrackRef("spotify:track:a"), TrackRef("spotify:track:a")]
  {
    var t := Track("spotify:track:a", [TargetArtistId, TargetArtistId]);
    assert [t][..0] == [];
    CreditsAreRepeatedUri(t.uri, t.artistIds, TargetArtistId);
    assert multiset(t.artistIds)[TargetArtistId] == 2;
  }
}
