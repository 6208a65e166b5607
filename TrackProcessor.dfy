// `process_track` (utils/track_processor.py): search YouTube for a track,
// download it, fetch its cover and tag the file, giving up with `None` at the
// first step that comes back empty or raises. The search, the download, the
// cover download and the tagging are collaborators; the method records the
// calls it makes to them, in order.

module TrackProcessor {
  import opened Wrappers
  import opened Strings
  import opened Py
  import PyPath

  /** A call to one of the collaborators. */
  datatype Call =
    | Search(query: string)
    | DownloadAudio(source: JValue, path: string)
    | DownloadCover(url: JValue, path: string)
    | Tag(track: JValue, info: JValue, coverPath: string)

  /** `search_youtube`, `download_track`, `download_cover_image` and
      `add_metadata_to_track`: each returns its value or raises. */
  datatype Services = Services(
    search: string -> Result<JValue>,
    download: (JValue, string) -> Result<JValue>,
    downloadCover: (JValue, string) -> Result<()>,
    addMetadata: (JValue, JValue, string) -> Result<()>)

  /** `f"{track_title} {track_artists}"`. */
  function SearchQuery(title: JValue, artists: JValue): string {
    Str(title) + " " + Str(artists)
  }

  /** `os.path.join(track_dir, f"{track_title}.mp3")`. */
  function RequestedPath(trackDir: string, title: JValue): (p: string)
    ensures EndsWith(p, ".mp3")
  {
    var file := Str(title) + ".mp3";
    var p := PyPath.Join(trackDir, file);
    PyPath.JoinEnds(trackDir, file);
    assert EndsWith(file, ".mp3");
    assert p[|p| - |file|..] == file;
    assert p[|p| - 4..] == file[|file| - 4..];
    p
  }

  /** `f"media/img/{track_title}.jpg"`. */
  function CoverPath(title: JValue): string {
    "media/img/" + Str(title) + ".jpg"
  }

  /** A step's result that lets the pipeline go on: it returned a truthy value. */
  predicate Found(v: Result<JValue>) {
    v.Ok? && Truthy(v.value)
  }

  /** `process_track(track_info, track_dir)`. The `title` and `artists` lookups
      sit before the `try`, so only their failure leaves as an exception, with no
      call made. After that every failure, whether an empty result or an
      exception, gives `None`, and each step is reached only when the one before
      it produced something: the search with the query built from title and
      artists, the download to `<track_dir>/<title>.mp3`, the cover download to
      `media/img/<title>.jpg` when the info has a cover URL, and the tagging with
      that cover path in every case. On success the downloader's path is
      returned. */
  method ProcessTrack(info: JValue, trackDir: string, s: Services) returns (r: Result<Option<JValue>>, calls: seq<Call>)
    ensures Subscript(info, "title").Err? ==> r == Err(Subscript(info, "title").exc) && calls == []
    ensures Subscript(info, "title").Ok? && Subscript(info, "artists").Err? ==>
              r == Err(Subscript(info, "artists").exc) && calls == []
    ensures Subscript(info, "title").Ok? && Subscript(info, "artists").Ok? ==>
              var title := Subscript(info, "title").value;
              var artists := Subscript(info, "artists").value;
              r.Ok? &&
              (calls == [] <==> !(Truthy(title) && Truthy(artists))) &&
              (calls == [] ==> r == Ok(None)) &&
              (calls != [] ==> calls[0] == Search(SearchQuery(title, artists)))
    ensures |calls| >= 1 ==>
              var title := info.fields["title"];
              var found := s.search(SearchQuery(title, info.fields["artists"]));
              (|calls| >= 2 <==> Found(found)) &&
              (|calls| == 1 ==> r == Ok(None)) &&
              (|calls| >= 2 ==> calls[1] == DownloadAudio(found.value, RequestedPath(trackDir, title)))
    ensures |calls| >= 2 ==>
              var title := info.fields["title"];
              var found := s.search(SearchQuery(title, info.fields["artists"])).value;
              var downloaded := s.download(found, RequestedPath(trackDir, title));
              var cover := Subscript(info, "cover_url");
              (|calls| >= 3 <==> Found(downloaded) && cover.Ok?) &&
              (|calls| == 2 ==> r == Ok(None)) &&
              (|calls| >= 3 && Truthy(cover.value) ==> calls[2] == DownloadCover(cover.value, CoverPath(title)))
    ensures |calls| >= 3 ==>
              var title := info.fields["title"];
              var found := s.search(SearchQuery(title, info.fields["artists"])).value;
              var downloaded := s.download(found, RequestedPath(trackDir, title)).value;
              var cover := Subscript(info, "cover_url").value;
              var fetched := if Truthy(cover) then s.downloadCover(cover, CoverPath(title)) else Ok(());
              (calls[|calls| - 1].Tag? <==> fetched.Ok?) &&
              (fetched.Err? ==> r == Ok(None)) &&
              (fetched.Ok? ==> calls[|calls| - 1] == Tag(downloaded, info, CoverPath(title)) &&
                               r == (if s.addMetadata(downloaded, info, CoverPath(title)).Ok?
                                     then Ok(Some(downloaded)) else Ok(None)))
    ensures |calls| >= 3 ==> (calls[2].DownloadCover? <==> Truthy(Subscript(info, "cover_url").value))
    ensures |calls| == 4 ==> calls[2].DownloadCover? && calls[3].Tag?
    ensures |calls| <= 4
  {
    var title := Subscript(info, "title");
    if title.Err? {
      return Err(title.exc), [];
    }
    var artists := Subscript(info, "artists");
    if artists.Err? {
      return Err(artists.exc), [];
    }
    calls := [];
    if !Truthy(title.value) || !Truthy(artists.value) {
      return Ok(None), calls;
    }
    var query := SearchQuery(title.value, artists.value);
    calls := calls + [Search(query)];
    var url := s.search(query);
    if !Found(url) {
      return Ok(None), calls;
    }
    var trackPath := RequestedPath(trackDir, title.value);
    calls := calls + [DownloadAudio(url.value, trackPath)];
    var downloaded := s.download(url.value, trackPath);
    if !Found(downloaded) {
      return Ok(None), calls;
    }
    var coverPath := CoverPath(title.value);
    var coverUrl := Subscript(info, "cover_url");
    if coverUrl.Err? {
      return Ok(None), calls;
    }
    if Truthy(coverUrl.value) {
      calls := calls + [DownloadCover(coverUrl.value, coverPath)];
      var fetched := s.downloadCover(coverUrl.value, coverPath);
      if fetched.Err? {
        return Ok(None), calls;
      }
    }
    calls := calls + [Tag(downloaded.value, info, coverPath)];
    var tagged := s.addMetadata(downloaded.value, info, coverPath);
    if tagged.Err? {
      return Ok(None), calls;
    }
    return Ok(Some(downloaded.value)), calls;
  }
}
