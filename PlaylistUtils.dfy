// utils/spotify/playlist_utils.py: the playlist id of a share URL, the
// playlist's title, and the loop that collects the info record of every
// track over the pages of the playlist.

module PlaylistUtils {
  import opened Wrappers
  import opened Strings
  import opened Py
  import opened UrlId
  import opened TrackUtils
  import opened Pagination

  const PlaylistsEndpoint := "https://api.spotify.com/v1/playlists"

  /** The URL `get_playlist_title` requests. */
  function PlaylistUrl(playlistId: string): (url: string)
    ensures StartsWith(url, "https://api.spotify.com/v1/playlists/")
    ensures IdByUrl(url) == IdByUrl(playlistId)
  {
    var url := PlaylistsEndpoint + "/" + playlistId;
    assert url[..|PlaylistsEndpoint| + 1] == PlaylistsEndpoint + "/";
    IdByUrlUnderPrefix(PlaylistsEndpoint, playlistId);
    url
  }

  /** The first page `get_playlist_tracks` requests. */
  function PlaylistTracksUrl(playlistId: string): (url: string)
    ensures StartsWith(url, "https://api.spotify.com/v1/playlists/") && EndsWith(url, "/tracks")
    ensures |url| >= 7 && IdByUrl(url[..|url| - 7]) == IdByUrl(playlistId)
  {
    var url := PlaylistUrl(playlistId) + "/tracks";
    assert url[..|PlaylistsEndpoint| + 1] == PlaylistUrl(playlistId)[..|PlaylistsEndpoint| + 1];
    assert url[..|url| - 7] == PlaylistUrl(playlistId);
    url
  }

  /** `get_playlist_title`: the `name` of the playlist object. */
  function GetPlaylistTitle(headers: Headers, playlistId: string, get: HttpGet): (r: Result<JValue>)
    ensures get(headers, PlaylistUrl(playlistId)).Err? ==> r == Err(get(headers, PlaylistUrl(playlistId)).exc)
    ensures get(headers, PlaylistUrl(playlistId)).Ok? ==> r == Subscript(get(headers, PlaylistUrl(playlistId)).value, "name")
  {
    var playlist :- get(headers, PlaylistUrl(playlistId));
    Subscript(playlist, "name")
  }

  /** One turn of the `while url:` body of `get_playlist_tracks`: fetch the
      page at `u` and put each item's `track` through the record builder. */
  method ReadPlaylistPage(c: Ctx, u: string) returns (step: PageStep)
    ensures step == Page(Playlist, c, u)
  {
    var result := c.get(c.headers, u);
    if result.Err? {
      return PageStep(Run([u], Failed(result.exc)), None);
    }
    var page := result.value;
    var hasItems := Contains(page, "items");
    if hasItems.Err? {
      return PageStep(Run([u], Failed(hasItems.exc)), None);
    }
    if !hasItems.value {
      return PageStep(Run([u], Finished([])), None);
    }
    var itemsValue := Subscript(page, "items");
    if itemsValue.Err? {
      return PageStep(Run([u], Failed(itemsValue.exc)), None);
    }
    var iterated := Iterate(itemsValue.value);
    if iterated.Err? {
      return PageStep(Run([u], Failed(iterated.exc)), None);
    }
    var items := iterated.value;
    assert PageItems(page) == Ok(Some(items));
    assert items[..0] == [];
    ThenNothing(Run([u], Finished([])));
    var tracks: seq<JValue> := [];
    var i := 0;
    while i < |items|
      invariant 0 <= i <= |items|
      invariant Then(Run([u], Finished([])), Items(Playlist, c, items[..i])) == Run([u], Finished(tracks))
    {
      ItemDone(Playlist, c, u, items, i);
      var track := Subscript(items[i], "track");
      if track.Err? {
        PageFailsAtItem(Playlist, c, u, page, items, i);
        return PageStep(Run([u], Failed(track.exc)), None);
      }
      var info := c.info(track.value);
      if info.Err? {
        PageFailsAtItem(Playlist, c, u, page, items, i);
        return PageStep(Run([u], Failed(info.exc)), None);
      }
      assert Item(Playlist, c, items[i]) == Run([], Finished([info.value]));
      tracks := tracks + [info.value];
      i := i + 1;
    }
    assert items[..i] == items;
    PageSucceeds(Playlist, c, u, page, items);
    step := PageStep(Run([u], Finished(tracks)), Some(Get(page, "next", JNull).value));
  }

  /** The `while url:` loop of `get_playlist_tracks` from `start`: pages are
      read until `url` is falsy, a page has no `items`, or something raises.
      The ghost `fuel` bounds the number of pages under which the walk ends. */
  method WalkPlaylist(c: Ctx, start: string, ghost fuel: nat) returns (run: Run)
    requires Walk(Playlist, c, JStr(start), fuel).outcome != Unfinished
    ensures run == Walk(Playlist, c, JStr(start), fuel)
  {
    ThenNothing(Walk(Playlist, c, JStr(start), fuel));
    var url: JValue := JStr(start);
    var tracks: seq<JValue> := [];
    var requests: seq<string> := [];
    ghost var left := fuel;
    while Truthy(url)
      invariant Then(Run(requests, Finished(tracks)), Walk(Playlist, c, url, left)) == Walk(Playlist, c, JStr(start), fuel)
      invariant Walk(Playlist, c, url, left).outcome != Unfinished
      decreases left
    {
      var step := ReadPlaylistPage(c, Str(url));
      if step.next.None? {
        // a failed page, or the page without `items` (`break`, then `return tracks`)
        WalkStops(Playlist, c, Run(requests, Finished(tracks)), url, left, step);
        return Then(Run(requests, Finished(tracks)), step.run);
      }
      ghost var requests0, tracks0, url0, left0 := requests, tracks, url, left;
      assert left > 0;
      requests := requests + step.run.requests;
      tracks := tracks + step.run.outcome.tracks;
      url := step.next.value;
      left := left - 1;
      WalkGoesOn(Playlist, c, requests0, tracks0, url0, left0, step, requests, tracks, url, left);
    }
    ThenNothing(Run(requests, Finished(tracks)));
    run := Run(requests, Finished(tracks));
  }

  /** `get_playlist_tracks`: the walk from the playlist's tracks URL, with
      `get_track_info` on every item's `track`. */
  method GetPlaylistTracks(headers: Headers, playlistId: string, get: HttpGet, ghost fuel: nat) returns (run: Run)
    requires Walk(Playlist, Records(headers, get), JStr(PlaylistTracksUrl(playlistId)), fuel).outcome != Unfinished
    ensures run == Walk(Playlist, Records(headers, get), JStr(PlaylistTracksUrl(playlistId)), fuel)
    ensures |run.requests| >= 1 && run.requests[0] == PlaylistTracksUrl(playlistId)
  {
    WalkFirstRequest(Playlist, Records(headers, get), JStr(PlaylistTracksUrl(playlistId)), fuel);
    run := WalkPlaylist(Records(headers, get), PlaylistTracksUrl(playlistId), fuel);
  }
}
