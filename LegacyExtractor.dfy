// The older extractor set of utils/spotify_track_extractor.py. Its `get_title`,
// `get_album`, `get_release_date`, `get_track_number` and `get_total_tracks`
// are the same expressions as in utils/spotify/track_extractor.py and are the
// TrackExtractor definitions; the three below differ.

module LegacyExtractor {
  import opened Wrappers
  import opened Strings
  import opened Py
  import opened SpotifyObjects
  import TrackExtractor

  const ListOfEmptyObject: JValue := JArr([TrackExtractor.EmptyObject])

  /** `get_artists`: `"Unknown"` when `len(artists) == 0`, otherwise the names
      joined with `", "`. Unlike the newer version it calls `len`, so a `null`
      artist list raises TypeError instead of giving `"Unknown"`. */
  function GetArtists(j: JValue): (r: Result<JValue>)
    ensures !j.JObj? ==> r == Err(AttributeError)
    ensures j.JObj? && ("artists" !in j.fields || j.fields["artists"] == TrackExtractor.EmptyList) ==> r == Ok(Unknown)
    ensures TrackExtractor.HasField(j, "artists") && j.fields["artists"] == JNull ==> r == Err(TypeError)
  {
    var artists :- Get(j, "artists", TrackExtractor.EmptyList);
    var n :- Len(artists);
    if n == 0 then Ok(Unknown)
    else
      var elems :- Iterate(artists);
      var names :- EachSubscript(elems, "name");
      var strs :- StrItems(names);
      Ok(JStr(Join(", ", strs)))
  }

  /** On an absent artist list or a list, both generations of `get_artists` agree. */
  lemma ArtistsAgreeOnLists(j: JValue)
    requires j.JObj?
    requires "artists" !in j.fields || j.fields["artists"].JArr?
    ensures GetArtists(j) == TrackExtractor.GetArtists(j)
  {
  }

  /** `get_genres`: the `genres` of the first embedded artist joined with `", "`;
      `""` when there are none, also when the track has no `artists`; an empty
      artist list raises IndexError. */
  function GetGenres(j: JValue): (r: Result<JValue>)
    ensures !j.JObj? ==> r == Err(AttributeError)
    ensures j.JObj? && "artists" !in j.fields ==> r == Ok(TrackExtractor.EmptyString)
    ensures TrackExtractor.HasField(j, "artists") && j.fields["artists"] == TrackExtractor.EmptyList ==> r == Err(IndexError)
    ensures TrackExtractor.HasField(j, "artists") && j.fields["artists"].JArr? && j.fields["artists"] != TrackExtractor.EmptyList &&
            j.fields["artists"].items[0].JObj? ==>
              var first := j.fields["artists"].items[0];
              ("genres" !in first.fields ==> r == Ok(TrackExtractor.EmptyString)) &&
              ("genres" in first.fields ==>
                 var joined := JoinIterable(", ", first.fields["genres"]);
                 r == if joined.Ok? then Ok(JStr(joined.value)) else Err(joined.exc))
  {
    var artists :- Get(j, "artists", ListOfEmptyObject);
    var first :- First(artists);
    var genres :- Get(first, "genres", TrackExtractor.EmptyList);
    var joined :- JoinIterable(", ", genres);
    Ok(JStr(joined))
  }

  /** `get_cover_url`: the first album image's `url`; `""` without an album or
      without `images`; an empty image list raises IndexError. */
  function GetCoverUrl(j: JValue): (r: Result<JValue>)
    ensures !j.JObj? ==> r == Err(AttributeError)
    ensures j.JObj? && "album" !in j.fields ==> r == Ok(TrackExtractor.EmptyString)
    ensures TrackExtractor.HasField(j, "album") && j.fields["album"].JObj? && "images" !in j.fields["album"].fields ==>
              r == Ok(TrackExtractor.EmptyString)
    ensures TrackExtractor.HasField(j, "album") && TrackExtractor.HasField(j.fields["album"], "images") &&
            j.fields["album"].fields["images"] == TrackExtractor.EmptyList ==>
              r == Err(IndexError)
    ensures TrackExtractor.HasField(j, "album") && TrackExtractor.HasField(j.fields["album"], "images") &&
            j.fields["album"].fields["images"].JArr? && j.fields["album"].fields["images"] != TrackExtractor.EmptyList &&
            j.fields["album"].fields["images"].items[0].JObj? ==>
              var first := j.fields["album"].fields["images"].items[0];
              r == Ok(if "url" in first.fields then first.fields["url"] else TrackExtractor.EmptyString)
  {
    var images :- TrackExtractor.AlbumGet(j, "images", ListOfEmptyObject);
    var first :- First(images);
    Get(first, "url", TrackExtractor.EmptyString)
  }

  // ---- What each differing extractor returns for a track object ----

  /** The genres embedded in the first artist, `""` for none, IndexError for an empty artist list. */
  lemma GenresOfTrack(t: Track)
    ensures GetGenres(TrackJson(t)) ==
            if t.artists.None? then Ok(JStr(""))
            else if t.artists.value == [] then Err(IndexError)
            else if t.artists.value[0].genres.None? then Ok(JStr(""))
            else Ok(JStr(Join(", ", t.artists.value[0].genres.value)))
  {
    TrackFields(t);
    if t.artists.Some? && t.artists.value != [] {
      var artists := t.artists.value;
      assert ArtistsJson(artists).items[0] == ArtistJson(artists[0]);
      ArtistFields(artists[0]);
      if artists[0].genres.Some? {
        TrackExtractor.JoinStrings(", ", artists[0].genres.value);
      }
    } else if t.artists.Some? {
      assert ArtistsJson(t.artists.value) == TrackExtractor.EmptyList;
    }
  }

  /** The first image's URL; `""` without an album, without images or without
      a URL; IndexError for an empty image list. */
  lemma CoverUrlOfTrack(t: Track)
    ensures GetCoverUrl(TrackJson(t)) ==
            if t.album.None? || t.album.value.images.None? then Ok(JStr(""))
            else if t.album.value.images.value == [] then Err(IndexError)
            else if t.album.value.images.value[0].url.None? then Ok(JStr(""))
            else Ok(JStr(t.album.value.images.value[0].url.value))
  {
    TrackFields(t);
    if t.album.Some? {
      AlbumFields(t.album.value);
      if t.album.value.images.Some? && t.album.value.images.value != [] {
        ImageFields(t.album.value.images.value[0]);
      } else if t.album.value.images.Some? {
        assert ImagesJson(t.album.value.images.value) == TrackExtractor.EmptyList;
      }
    }
  }
}
