// utils/spotify/album_utils.py: the album id of a share URL, the album's
// title, and the loop that collects the info record of every track over the
// pages of the album, fetching each track in full first.

module AlbumUtils {
  import opened Wrappers
  import opened Strings
  import opened Py
  import opened UrlId
  import opened TrackUtils
  import opened Pagination

  const AlbumsEndpoint := "https://api.spotify.com/v1/albums"

  /** The URL `get_album_title` requests. */
  function AlbumUrl(albumId: string): (url: string)
    ensures StartsWith(url, "https://api.spotify.com/v1/albums/")
    ensures IdByUrl(url) == IdByUrl(albumId)
  {
    var url := AlbumsEndpoint + "/" + albumId;
    assert url[..|AlbumsEndpoint| + 1] == AlbumsEndpoint + "/";
    IdByUrlUnderPrefix(AlbumsEndpoint, albumId);
    url
  }

  /** The first page `get_album_tracks` requests. */
  function AlbumTracksUrl(albumId: string): (url: string)
    ensures StartsWith(url, "https://api.spotify.com/v1/albums/") && EndsWith(url, "/tracks")
    ensures |url| >= 7 && IdByUrl(url[..|url| - 7]) == IdByUrl(albumId)
  {
    var url := AlbumUrl(albumId) + "/tracks";
    assert url[..|AlbumsEndpoint| + 1] == AlbumUrl(albumId)[..|AlbumsEndpoint| + 1];
    assert url[..|url| - 7] == AlbumUrl(albumId);
    url
  }

  /** `get_album_title`: the `name` of the album object. */
  function GetAlbumTitle(headers: Headers, albumId: string, get: HttpGet): (r: Result<JValue>)
    ensures get(headers, AlbumUrl(albumId)).Err? ==> r == Err(get(headers, AlbumUrl(albumId)).exc)
    ensures get(headers, AlbumUrl(albumId)).Ok? ==> r == Subscript(get(headers, AlbumUrl(albumId)).value, "name")
  {
    var album :- get(headers, AlbumUrl(albumId));
    Subscript(album, "name")
  }

  /** One turn of the `while url:` body of `get_album_tracks`: fetch the
      page at `u`; for each item, fetch the track it links to with `get_track`
      and put that through the record builder. (The page is also written to
      `result.json`; that file is not modelled.) */
  method ReadAlbumPage(c: Ctx, u: string) returns (step: PageStep)
    ensures step == Page(Album, c, u)
  {
    var result := c.get(c.headers, u);
    if result.Err? {
      return PageStep(Run([u], Failed(result.exc)), None);
    }
    var page := result.value;
    var hasItems := Contains(page, "items");
    if hasItems.Err? {
      return PageStep(Run([u], Failed(hasItems.exc)), None);
    }
    if !hasItems.value {
      return PageStep(Run([u], Finished([])), None);
    }
    var itemsValue := Subscript(page, "items");
    if itemsValue.Err? {
      return PageStep(Run([u], Failed(itemsValue.exc)), None);
    }
    var iterated := Iterate(itemsValue.value);
    if iterated.Err? {
      return PageStep(Run([u], Failed(iterated.exc)), None);
    }
    var items := iterated.value;
    assert PageItems(page) == Ok(Some(items));
    assert items[..0] == [];
    ThenNothing(Run([u], Finished([])));
    var requests := [u];
    var tracks: seq<JValue> := [];
    var i := 0;
    while i < |items|
      invariant 0 <= i <= |items|
      invariant Then(Run([u], Finished([])), Items(Album, c, items[..i])) == Run(requests, Finished(tracks))
    {
      ItemDone(Album, c, u, items, i);
      AlbumItemShape(c, items[i]);
      var urls := Subscript(items[i], "external_urls");
      if urls.Err? {
        PageFailsAtItem(Album, c, u, page, items, i);
        return PageStep(Run(requests, Failed(urls.exc)), None);
      }
      var link := Subscript(urls.value, "spotify");
      if link.Err? {
        PageFailsAtItem(Album, c, u, page, items, i);
        return PageStep(Run(requests, Failed(link.exc)), None);
      }
      if !link.value.JStr? {
        // `get_track_id_by_url` calls `split` on it
        PageFailsAtItem(Album, c, u, page, items, i);
        return PageStep(Run(requests, Failed(AttributeError)), None);
      }
      var trackId := IdByUrl(link.value.s);
      var trackUrl := TrackUrl(trackId);
      requests := requests + [trackUrl];
      var track := c.get(c.headers, trackUrl);
      if track.Err? {
        PageFailsAtItem(Album, c, u, page, items, i);
        return PageStep(Run(requests, Failed(track.exc)), None);
      }
      var info := c.info(track.value);
      if info.Err? {
        PageFailsAtItem(Album, c, u, page, items, i);
        return PageStep(Run(requests, Failed(info.exc)), None);
      }
      assert Item(Album, c, items[i]) == Run([trackUrl], Finished([info.value]));
      tracks := tracks + [info.value];
      i := i + 1;
    }
    assert items[..i] == items;
    PageSucceeds(Album, c, u, page, items);
    step := PageStep(Run(requests, Finished(tracks)), Some(Get(page, "next", JNull).value));
  }

  /** The `while url:` loop of `get_album_tracks` from `start`: pages are
      read until `url` is falsy, a page has no `items`, or something raises.
      The ghost `fuel` bounds the number of pages under which the walk ends. */
  method WalkAlbum(c: Ctx, start: string, ghost fuel: nat) returns (run: Run)
    requires Walk(Album, c, JStr(start), fuel).outcome != Unfinished
    ensures run == Walk(Album, c, JStr(start), fuel)
  {
    ThenNothing(Walk(Album, c, JStr(start), fuel));
    var url: JValue := JStr(start);
    var tracks: seq<JValue> := [];
    var requests: seq<string> := [];
    ghost var left := fuel;
    while Truthy(url)
      invariant Then(Run(requests, Finished(tracks)), Walk(Album, c, url, left)) == Walk(Album, c, JStr(start), fuel)
      invariant Walk(Album, c, url, left).outcome != Unfinished
      decreases left
    {
      var step := ReadAlbumPage(c, Str(url));
      if step.next.None? {
        // a failed page, or the page without `items` (`break`, then `return tracks`)
        WalkStops(Album, c, Run(requests, Finished(tracks)), url, left, step);
        return Then(Run(requests, Finished(tracks)), step.run);
      }
      ghost var requests0, tracks0, url0, left0 := requests, tracks, url, left;
      assert left > 0;
      requests := requests + step.run.requests;
      tracks := tracks + step.run.outcome.tracks;
      url := step.next.value;
      left := left - 1;
      WalkGoesOn(Album, c, requests0, tracks0, url0, left0, step, requests, tracks, url, left);
    }
    ThenNothing(Run(requests, Finished(tracks)));
    run := Run(requests, Finished(tracks));
  }

  /** `get_album_tracks`: the walk from the album's tracks URL, with
      `get_track` and `get_track_info` on every item's linked track. */
  method GetAlbumTracks(headers: Headers, albumId: string, get: HttpGet, ghost fuel: nat) returns (run: Run)
    requires Walk(Album, Records(headers, get), JStr(AlbumTracksUrl(albumId)), fuel).outcome != Unfinished
    ensures run == Walk(Album, Records(headers, get), JStr(AlbumTracksUrl(albumId)), fuel)
    ensures |run.requests| >= 1 && run.requests[0] == AlbumTracksUrl(albumId)
  {
    WalkFirstRequest(Album, Records(headers, get), JStr(AlbumTracksUrl(albumId)), fuel);
    run := WalkAlbum(Records(headers, get), AlbumTracksUrl(albumId), fuel);
  }
}
