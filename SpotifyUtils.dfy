// utils/spotify_utils.py, the older single-file Spotify client. Its
// `get_token`, `get_auth_header`, `get_track` URL and `get_track_id_by_url`
// are the same code as utils/spotify/auth.py and utils/spotify/track_utils.py
// (SpotifyAuth, TrackUtils, UrlId). What differs is `get_track_info`, which
// uses the older extractors and calls their one-argument `get_genres` with two
// arguments.

module SpotifyUtils {
  import opened Wrappers
  import opened Py
  import opened TrackExtractor
  import LegacyExtractor
  import TrackUtils

  /** `get_track_info(headers, json_result)` as written: the title, album,
      artists and release date are extracted, then `get_genres(json_result,
      headers)` raises TypeError because that `get_genres` takes one argument. */
  function GetTrackInfoAsWritten(headers: Headers, j: JValue): (r: Result<JValue>)
    ensures r.Err?
  {
    match TrackUtils.FirstError(LegacyExtracted(j)[..4])
    case Some(e) => Err(e)
    case None => Err(TypeError)
  }

  /** The older extractor results in the order `get_track_info` calls them. */
  function LegacyExtracted(j: JValue): (rs: seq<Result<JValue>>)
    ensures |rs| == 8
  {
    [GetTitle(j), GetAlbum(j), LegacyExtractor.GetArtists(j), GetReleaseDate(j), LegacyExtractor.GetGenres(j),
     LegacyExtractor.GetCoverUrl(j), GetTrackNumber(j), GetTotalTracks(j)]
  }

  /** `get_track_info` with `get_genres(json_result)` as its extractor module
      defines it: the eight-key record of the older extractors. The headers
      are not used. */
  function GetTrackInfo(headers: Headers, j: JValue): (r: Result<JValue>)
    ensures var rs := LegacyExtracted(j);
            && (r.Ok? <==> forall i :: 0 <= i < 8 ==> rs[i].Ok?)
            && (r.Ok? ==> r.value.JObj? && r.value.keys == TrackUtils.InfoKeys &&
                          r.value.fields.Keys == set k | k in TrackUtils.InfoKeys)
            && (r.Ok? ==> forall i :: 0 <= i < 8 ==> r.value.fields[TrackUtils.InfoKeys[i]] == rs[i].value)
            && (r.Err? ==> TrackUtils.FirstError(rs) == Some(r.exc))
  {
    TrackUtils.Assemble(LegacyExtracted(j))
  }

  /** As written, every call raises: TypeError whenever the four extractors
      before `get_genres` succeed. */
  lemma AsWrittenRaisesTypeError(headers: Headers, j: JValue)
    requires forall i :: 0 <= i < 4 ==> LegacyExtracted(j)[i].Ok?
    ensures GetTrackInfoAsWritten(headers, j) == Err(TypeError)
  {
    var rs := LegacyExtracted(j)[..4];
    assert forall i :: 0 <= i < 4 ==> rs[i] == LegacyExtracted(j)[i];
  }

  /** The track `{"name": "Song"}`: the written function raises TypeError where
      the corrected one returns a record. */
  lemma AsWrittenCounterexample(headers: Headers)
    ensures var j := JObj(["name"], map["name" := JStr("Song")]);
            GetTrackInfoAsWritten(headers, j) == Err(TypeError) &&
            GetTrackInfo(headers, j).Ok? &&
            GetTrackInfo(headers, j).value.fields["title"] == JStr("Song")
  {
    var j := JObj(["name"], map["name" := JStr("Song")]);
    var rs := LegacyExtracted(j);
    assert rs[0] == Ok(JStr("Song"));
    assert rs[1] == Ok(Unknown) && rs[2] == Ok(Unknown) && rs[3] == Ok(Unknown);
    assert LegacyExtractor.GetGenres(j) == Ok(JStr(""));
    assert rs[5] == Ok(JStr("")) && rs[6] == Ok(Unknown) && rs[7] == Ok(Unknown);
    assert TrackUtils.InfoKeys[0] == "title";
  }
}
