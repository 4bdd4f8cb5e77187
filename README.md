# Kanye_Cleaner: verified model of playlist normalisation and artist-track removal

Kanye_Cleaner is a small Flask web application. A user signs in to Spotify,
enters a playlist reference, and the app removes from that playlist every
track credited to one hard-coded artist. Almost all of the code is HTTP and
OAuth plumbing. This project models the two parts that contain logic, and
proves properties about them:

- **Playlist-reference normalisation** (`extract_playlist_id`), in module
  `PlaylistId` (`playlist_id.dfy`). The source runs two regular-expression
  searches in order: the web URL `https://open.spotify.com/playlist/`
  followed by `[a-zA-Z0-9]+`, then the URI `spotify:playlist:` followed by
  `[a-zA-Z0-9]+`. It returns the first capture, or the input unchanged. Each
  search is modelled directly: a match is the leftmost position where the
  literal prefix occurs and is followed by at least one ASCII letter or
  digit. The capture is the maximal (greedy) run of such characters that
  starts there. This is not a general regex engine.
- **Artist filter and outcome** (the body of `remove_artist_tracks`):
  - Module `TrackFilter` (`track_filter.dfy`) models the filter. The nested
    loop in the source becomes a method with loop invariants. Its pure
    specification is `Matching`: one `{"uri": ...}` entry for every
    (track, artist) pair whose artist id equals the target, in playlist
    order, with no deduplication.
  - Module `RemoveTracks` (`remove_tracks.dfy`) models the handler. The two
    HTTP responses are parameters. The result records the rendered page and
    the requests issued, in order.
- Module `Wrappers` (`wrappers.dfy`) holds the `Option` type.

The code does not deduplicate: a track crediting the artist twice is sent
twice (`TrackFilter.MatchingMultiplicity`, `TrackFilter.NoDeduplicationExample`).
Both patterns are fixed literals, `https://open.spotify.com/playlist/` and
`spotify:playlist:` (app.py:125-126), and the model uses exactly those.

Form fields are `Option<string>`. Python's `not x` is true for a missing
field (`None`) and for an empty one (`Some("")`); `Given` models this.

## Model

| member | source | states |
|---|---|---|
| PlaylistId.RunLength | app.py:125-126 | the greedy `[a-zA-Z0-9]+` run starting at a position stays inside the string, holds only letters and digits, and stops at the end or at the first other character |
| PlaylistId.FindFrom | app.py:129 | the left-to-right search reports a position where the prefix plus one id character occurs, and no earlier position matches; `None` means no position from the start matches |
| PlaylistId.Search | app.py:129-136 | `re.search(...).group(1)`: `None` exactly when the pattern matches nowhere; otherwise the capture is the maximal id run after the leftmost match |
| PlaylistId.ExtractPlaylistId | app.py:120-139 | a URL match, if any, gives the maximal run after its leftmost occurrence, whether or not a URI match also exists (URL form takes precedence); with no URL match, a URI match gives the run after the URI's leftmost occurrence; with neither, the input is returned unchanged |
| PlaylistId.MaximalRunLength | app.py:125-126 | every maximal id run at a position has the greedy length, so the capture is uniquely determined |
| PlaylistId.MaximalRunUnique | app.py:125-126 | two maximal id runs at the same position are equal |
| PlaylistId.CapturedIdIsIdString | app.py:125-136 | when either pattern matches, the result is non-empty and consists only of ASCII letters and digits |
| PlaylistId.ExtractIsSubstring | app.py:125-139 | the result is always a contiguous substring of the input |
| PlaylistId.EmptyIdOnlyForEmptyInput | app.py:125-139 | the result is empty if and only if the input is empty |
| PlaylistId.NoMatchInIdString | app.py:125-126 | a string of letters and digits contains no match for a prefix holding another character (both prefixes contain `:`) |
| PlaylistId.ExtractIdempotent | app.py:120-139 | normalising an already normalised reference changes nothing |
| PlaylistId.NonEmptyInputGivesNonEmptyId | app.py:75-81 | after the non-empty check on the input, the normalised id is non-empty, so the "Invalid playlist URL or URI." branch cannot be taken |
| PlaylistId.ExtractFromUrlForm | app.py:125-131 | URL prefix + id + a rest that does not continue the id normalises to exactly the id |
| PlaylistId.ExtractFromUriForm | app.py:126-136 | URI prefix + id + a rest that does not continue the id, with no URL occurrence, normalises to exactly the id |
| PlaylistId.ExtractFromUrlExample | app.py:129-131 | `https://open.spotify.com/playlist/37i9dQZF1DXcBWIGoYBM5M` gives `37i9dQZF1DXcBWIGoYBM5M` |
| PlaylistId.ExtractStopsAtQueryExample | app.py:125-131 | a share URL's `?si=...` query is not part of the id |
| PlaylistId.ExtractFromUriExample | app.py:134-136 | `spotify:playlist:37i9dQZF1DXcBWIGoYBM5M` gives `37i9dQZF1DXcBWIGoYBM5M` |
| PlaylistId.BareIdExample | app.py:138-139 | a bare id is passed through unchanged |
| TrackFilter.Credits | app.py:102-104 | the inner artist loop for one track: one entry with that track's URI per credit of the target, so every entry is that URI and there are at most as many entries as artists |
| TrackFilter.Matching | app.py:100-104 | the specification of `tracks_to_remove`: one entry per (track, artist) pair whose artist is the target, in playlist order, with nothing else |
| TrackFilter.CollectTracksToRemove | app.py:100-104 | the nested loop leaves `tracks_to_remove` equal to `Matching` of the fetched items |
| TrackFilter.CreditsAreRepeatedUri | app.py:102-104 | one track contributes its URI once per credit of the target artist, and nothing else |
| TrackFilter.MatchingAppend | app.py:101-104 | filtering a concatenation filters each part in order, so entries keep playlist order |
| TrackFilter.MatchingMultiplicity | app.py:100-104 | each URI occurs in the list once per (track, artist) pair that credits the target, with no deduplication |
| TrackFilter.RepeatedCount | app.py:104 | a run of one repeated entry holds that entry exactly as often as the run is long, and no other entry |
| TrackFilter.MatchingSound | app.py:102-104 | every listed entry is the URI of some fetched track that credits the target |
| TrackFilter.MatchingComplete | app.py:101-104 | every fetched track that credits the target has its URI listed |
| TrackFilter.MatchingEmptyIff | app.py:107-118 | the list is empty exactly when no fetched track credits the target, the condition for "No tracks to remove." |
| TrackFilter.NoDeduplicationExample | app.py:102-104 | a track crediting the artist twice is listed twice |
| RemoveTracks.Given | app.py:75 | Python truthiness of a form field: present (not `None`) and non-empty |
| RemoveTracks.RemoveArtistTracks | app.py:73-118 | missing token or input gives the missing-input error with no request; otherwise, first a GET for the normalised id; a non-200 GET gives the fetch error and stops; an empty filtered list gives "No tracks to remove." with no DELETE; otherwise exactly one DELETE carrying the whole list, with success on 200 and the delete error otherwise; the invalid-playlist page never appears and no request names an empty id |

## Left out

- The OAuth 2.0 authorization-code flow (section 4.1 of RFC 6749): `index` builds the authorization URL and `callback` exchanges the code for tokens (app.py:25-59). This is URL building and one POST, with no logic to verify.
- `select_playlist` (app.py:62-68) and the Flask routing and template rendering. Rendering is modelled only as the `Page` value.
- The HTTP GET, POST and DELETE calls and JSON decoding (app.py:52-54, 90-97, 108-112) are network I/O. The GET and DELETE responses are parameters: status, body text, and the already parsed track items. The model takes one GET response whatever the playlist id, and records the id and token each request carries.
- A malformed tracks response (a missing `items`, `track`, `artists`, `id` or `uri` key, or a null `track`) raises in the source. The model takes the items as already parsed.
- Loading the environment variables, the fail-fast check (app.py:8-12) and `app.run` (app.py:142-143) are process configuration.
- Pagination: the source inspects only the first page of tracks, and so does the model (its input is that one page).
- The model does not add URI deduplication, because the source has none.
