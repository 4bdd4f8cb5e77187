/**
 * The /remove_tracks handler (app.py, remove_artist_tracks) with its HTTP
 * exchanges abstracted: the responses of the tracks GET and of the DELETE
 * are parameters, and the result records which requests the handler issues
 * and which page it renders.
 */
module RemoveTracks {
  import opened Wrappers
  import opened PlaylistId
  import opened TrackFilter

  /** The tracks GET response: status, body text, and the parsed "items". */
  datatype TracksResponse = TracksResponse(status: int, text: string, items: seq<Track>)

  /** The DELETE response: status and body text. */
  datatype DeleteResponse = DeleteResponse(status: int, text: string)

  /** A request to the playlist-tracks endpoint, with its bearer token. */
  datatype ApiCall =
    | GetTracks(playlistId: string, token: string)
    | DeleteTracks(playlistId: string, token: string, tracks: seq<TrackRef>)

  /** The rendered page: callback.html with an error, or remove_tracks.html with a message. */
  datatype Page = ErrorPage(error: string) | MessagePage(message: string)

  datatype Handled = Handled(page: Page, calls: seq<ApiCall>)

  const MissingInputError: string := "Access token or playlist input missing."
  const InvalidPlaylistError: string := "Invalid playlist URL or URI."
  const FetchErrorPrefix: string := "Failed to retrieve playlist tracks: "
  const RemovedMessage: string := "Tracks removed successfully!"
  const DeleteErrorPrefix: string := "Failed to remove tracks: "
  const NoTracksMessage: string := "No tracks to remove."

  /** Python truthiness of a form field: present and non-empty. */
  predicate Given(field: Option<string>) {
    field.Some? && field.value != []
  }

  method RemoveArtistTracks(accessToken: Option<string>, playlistInput: Option<string>,
                            fetched: TracksResponse, deleted: DeleteResponse)
    returns (h: Handled)
    // a missing field stops before any request
    ensures !Given(accessToken) || !Given(playlistInput) ==>
              h == Handled(ErrorPage(MissingInputError), [])
    // otherwise the tracks of the normalised playlist are fetched first
    ensures Given(accessToken) && Given(playlistInput) ==>
              |h.calls| >= 1 && h.calls[0] == GetTracks(ExtractPlaylistId(playlistInput.value), accessToken.value)
    // a failed fetch stops before filtering
    ensures Given(accessToken) && Given(playlistInput) && fetched.status != 200 ==>
              h.page == ErrorPage(FetchErrorPrefix + fetched.text) && |h.calls| == 1
    // nothing to remove: no delete is issued
    ensures Given(accessToken) && Given(playlistInput) && fetched.status == 200
            && Matching(fetched.items, TargetArtistId) == [] ==>
              h.page == MessagePage(NoTracksMessage) && |h.calls| == 1
    // otherwise exactly one delete, carrying the whole filtered list
    ensures Given(accessToken) && Given(playlistInput) && fetched.status == 200
            && Matching(fetched.items, TargetArtistId) != [] ==>
              && h.calls == [h.calls[0], DeleteTracks(ExtractPlaylistId(playlistInput.value), accessToken.value,
                                                      Matching(fetched.items, TargetArtistId))]
              && h.page == (if deleted.status == 200 then MessagePage(RemovedMessage)
                            else ErrorPage(DeleteErrorPrefix + deleted.text))
    // the "Invalid playlist" page is never rendered, and no request names an empty playlist
    ensures h.page != ErrorPage(InvalidPlaylistError)
    ensures forall c :: c in h.calls ==> c.playlistId != []
  {
    if !Given(accessToken) || !Given(playlistInput) {
      return Handled(ErrorPage(MissingInputError), []);
    }
    var token := accessToken.value;
    var playlistId := ExtractPlaylistId(playlistInput.value);
    if playlistId == [] {
      NonEmptyInputGivesNonEmptyId(playlistInput.value);
      assert false;
    }
    var calls := [GetTracks(playlistId, token)];
    if fetched.status != 200 {
      return Handled(ErrorPage(FetchErrorPrefix + fetched.text), calls);
    }
    var tracksToRemove := CollectTracksToRemove(fetched.items, TargetArtistId);
    if tracksToRemove != [] {
      calls := calls + [DeleteTracks(playlistId, token, tracksToRemove)];
      if deleted.status == 200 {
        return Handled(MessagePage(RemovedMessage), calls);
      } else {
        assert (DeleteErrorPrefix + deleted.text)[0] != InvalidPlaylistError[0];
        return Handled(ErrorPage(DeleteErrorPrefix + deleted.text), calls);
      }
    } else {
      return Handled(MessagePage(NoTracksMessage), calls);
    }
  }
}
