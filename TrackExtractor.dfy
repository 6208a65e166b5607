// The metadata extractors of utils/spotify/track_extractor.py: `.get` lookups
// with fallbacks over a track object. The artist request in `get_genres` is
// the `get` collaborator. `get_title`, `get_album`, `get_release_date`,
// `get_track_number` and `get_total_tracks` are character for character the
// same in utils/spotify_track_extractor.py, which uses these definitions too.

module TrackExtractor {
  import opened Wrappers
  import opened Strings
  import opened Py
  import opened SpotifyObjects

  const EmptyObject: JValue := JObj([], map[])
  const EmptyList: JValue := JArr([])
  const EmptyString: JValue := JStr("")

  /** `json_result.get(key, default)` where `json_result` is a dict. */
  predicate HasField(j: JValue, key: string) {
    j.JObj? && key in j.fields
  }

  /** `json_result.get("album", {}).get(key, default)`. */
  function AlbumGet(j: JValue, key: string, default: JValue): (r: Result<JValue>)
    ensures !j.JObj? ==> r == Err(AttributeError)
    ensures j.JObj? && "album" !in j.fields ==> r == Ok(default)
    ensures HasField(j, "album") && !j.fields["album"].JObj? ==> r == Err(AttributeError)
    ensures HasField(j, "album") && j.fields["album"].JObj? ==>
              r == Ok(if key in j.fields["album"].fields then j.fields["album"].fields[key] else default)
  {
    var album :- Get(j, "album", EmptyObject);
    Get(album, key, default)
  }

  /** `get_title`: the record's `name`, or `"Unknown"` when it has none. */
  function GetTitle(j: JValue): (r: Result<JValue>)
    ensures !j.JObj? ==> r == Err(AttributeError)
    ensures HasField(j, "name") ==> r == Ok(j.fields["name"])
    ensures j.JObj? && "name" !in j.fields ==> r == Ok(Unknown)
  {
    Get(j, "name", Unknown)
  }

  /** The names of a list of artist objects each of which has a string `name`. */
  predicate AllNamed(artists: seq<JValue>) {
    forall i :: 0 <= i < |artists| ==> HasField(artists[i], "name") && artists[i].fields["name"].JStr?
  }

  function NamesOf(artists: seq<JValue>): (names: seq<string>)
    requires AllNamed(artists)
    ensures |names| == |artists|
    ensures forall i :: 0 <= i < |artists| ==> names[i] == artists[i].fields["name"].s
    decreases |artists|
  {
    if |artists| == 0 then [] else [artists[0].fields["name"].s] + NamesOf(artists[1..])
  }

  /** `get_artists`: `"Unknown"` for a missing or empty artist list, otherwise
      every artist's `name` joined with `", "`, in list order. */
  function GetArtists(j: JValue): (r: Result<JValue>)
    ensures !j.JObj? ==> r == Err(AttributeError)
    ensures j.JObj? && ("artists" !in j.fields || j.fields["artists"] == EmptyList) ==> r == Ok(Unknown)
    ensures HasField(j, "artists") && j.fields["artists"].JArr? && j.fields["artists"] != EmptyList &&
            AllNamed(j.fields["artists"].items) ==>
              r == Ok(JStr(Join(", ", NamesOf(j.fields["artists"].items))))
    ensures HasField(j, "artists") && j.fields["artists"].JArr? &&
            (exists i :: 0 <= i < |j.fields["artists"].items| && !j.fields["artists"].items[i].JObj?) ==>
              r.Err?
  {
    var artists :- Get(j, "artists", EmptyList);
    if !Truthy(artists) then Ok(Unknown)
    else
      var elems :- Iterate(artists);
      var names :- EachSubscript(elems, "name");
      var strs :- StrItems(names);
      assert AllNamed(elems) ==> strs == NamesOf(elems);
      Ok(JStr(Join(", ", strs)))
  }

  /** `get_album`. */
  function GetAlbum(j: JValue): Result<JValue> {
    AlbumGet(j, "name", Unknown)
  }

  /** `get_release_date`. */
  function GetReleaseDate(j: JValue): Result<JValue> {
    AlbumGet(j, "release_date", Unknown)
  }

  /** `get_total_tracks`: the stored value as it is, not converted. */
  function GetTotalTracks(j: JValue): Result<JValue> {
    AlbumGet(j, "total_tracks", Unknown)
  }

  /** `get_track_number`: the stored value as it is, not converted. */
  function GetTrackNumber(j: JValue): (r: Result<JValue>)
    ensures !j.JObj? ==> r == Err(AttributeError)
    ensures HasField(j, "track_number") ==> r == Ok(j.fields["track_number"])
    ensures j.JObj? && "track_number" !in j.fields ==> r == Ok(Unknown)
  {
    Get(j, "track_number", Unknown)
  }

  /** `get_cover_url`: the first album image's `url`, or `""`. */
  function GetCoverUrl(j: JValue): (r: Result<JValue>)
    ensures j.JObj? && "album" !in j.fields ==> r == Ok(EmptyString)
    ensures HasField(j, "album") && j.fields["album"].JObj? &&
            (!HasField(j.fields["album"], "images") || j.fields["album"].fields["images"] == EmptyList) ==>
              r == Ok(EmptyString)
    ensures HasField(j, "album") && HasField(j.fields["album"], "images") &&
            j.fields["album"].fields["images"].JArr? && j.fields["album"].fields["images"] != EmptyList &&
            j.fields["album"].fields["images"].items[0].JObj? ==>
              var first := j.fields["album"].fields["images"].items[0];
              r == Ok(if "url" in first.fields then first.fields["url"] else EmptyString)
  {
    var images :- AlbumGet(j, "images", EmptyList);
    if Truthy(images) then
      var first :- First(images);
      Get(first, "url", EmptyString)
    else Ok(EmptyString)
  }

  // ---- get_genres ----

  function ArtistUrl(artistId: string): string {
    "https://api.spotify.com/v1/artists/" + artistId
  }

  /** The part of `get_genres` before the network: the artist URL it requests,
      or `None` when it returns `"Unknown"` without a request, because the
      artist list is missing or empty or the first artist has no `id`. */
  function ArtistRequest(j: JValue): (r: Result<Option<string>>)
    ensures !j.JObj? ==> r == Err(AttributeError)
    ensures j.JObj? && ("artists" !in j.fields || j.fields["artists"] == EmptyList) ==> r == Ok(None)
    ensures HasField(j, "artists") && j.fields["artists"].JArr? && j.fields["artists"] != EmptyList &&
            j.fields["artists"].items[0].JObj? ==>
              var first := j.fields["artists"].items[0];
              r == if HasField(first, "id") && Truthy(first.fields["id"])
                   then Ok(Some(ArtistUrl(Str(first.fields["id"])))) else Ok(None)
  {
    var artists :- Get(j, "artists", EmptyList);
    if !Truthy(artists) then Ok(None)
    else
      var first :- First(artists);
      var artistId :- Get(first, "id", EmptyString);
      if !Truthy(artistId) then Ok(None) else Ok(Some(ArtistUrl(Str(artistId))))
  }

  /** The part of `get_genres` after the request: the artist's `genres` joined
      with `", "`, or `"Unknown"` for none. */
  function GenresOf(artist: JValue): (r: Result<JValue>)
    ensures !artist.JObj? ==> r == Err(AttributeError)
    ensures artist.JObj? && ("genres" !in artist.fields || artist.fields["genres"] == EmptyList) ==> r == Ok(Unknown)
  {
    var genres :- Get(artist, "genres", EmptyList);
    if !Truthy(genres) then Ok(Unknown)
    else
      var joined :- JoinIterable(", ", genres);
      Ok(JStr(joined))
  }

  /** `get_genres(json_result, headers)`. */
  function GetGenres(j: JValue, headers: Headers, get: HttpGet): (r: Result<JValue>)
    ensures ArtistRequest(j).Err? ==> r == Err(ArtistRequest(j).exc)
    ensures ArtistRequest(j) == Ok(None) ==> r == Ok(Unknown)
    ensures ArtistRequest(j).Ok? && ArtistRequest(j).value.Some? ==>
              var artist := get(headers, ArtistRequest(j).value.value);
              r == if artist.Err? then Err(artist.exc) else GenresOf(artist.value)
  {
    match ArtistRequest(j)
    case Err(e) => Err(e)
    case Ok(None) => Ok(Unknown)
    case Ok(Some(url)) =>
      var artist :- get(headers, url);
      GenresOf(artist)
  }

  /** Joining a list of strings gives them separated by `sep`. */
  lemma JoinStrings(sep: string, xs: seq<string>)
    ensures JoinIterable(sep, JStrs(xs)) == Ok(Join(sep, xs))
  {
    var v := JStrs(xs);
    assert Iterate(v) == Ok(v.items);
    var strs := StrItems(v.items);
    assert strs.Ok?;
    assert strs.value == xs;
  }

  /** The genres of the artist the request returns, joined with `", "`. */
  lemma GenresOfList(artist: JValue, genres: seq<string>)
    requires HasField(artist, "genres") && artist.fields["genres"] == JStrs(genres) && genres != []
    ensures GenresOf(artist) == Ok(JStr(Join(", ", genres)))
  {
    JoinStrings(", ", genres);
  }

  /** When the first artist's request returns an artist with genres, the
      track's genres are that artist's genres joined with `", "`. */
  lemma GenresOfRequestedArtist(j: JValue, headers: Headers, get: HttpGet, genres: seq<string>)
    requires ArtistRequest(j).Ok? && ArtistRequest(j).value.Some?
    requires var artist := get(headers, ArtistRequest(j).value.value);
             artist.Ok? && HasField(artist.value, "genres") && artist.value.fields["genres"] == JStrs(genres)
    requires genres != []
    ensures GetGenres(j, headers, get) == Ok(JStr(Join(", ", genres)))
  {
    GenresOfList(get(headers, ArtistRequest(j).value.value).value, genres);
  }

  /** Only one request is made, for the first artist: two networks that agree
      on that request give the same genres. */
  lemma GenresDependOnOneRequest(j: JValue, headers: Headers, get1: HttpGet, get2: HttpGet)
    requires ArtistRequest(j).Ok? && ArtistRequest(j).value.Some? ==>
             get1(headers, ArtistRequest(j).value.value) == get2(headers, ArtistRequest(j).value.value)
    ensures GetGenres(j, headers, get1) == GetGenres(j, headers, get2)
  {
  }

  /** Artists after the first one play no part in the genres. */
  lemma GenresIgnoreLaterArtists(j: JValue, others: seq<JValue>, headers: Headers, get: HttpGet)
    requires HasField(j, "artists") && j.fields["artists"].JArr? && j.fields["artists"] != EmptyList
    ensures var first := j.fields["artists"].items[0];
            var j2 := JObj(j.keys, j.fields["artists" := JArr([first] + others)]);
            GetGenres(j2, headers, get) == GetGenres(j, headers, get)
  {
    var first := j.fields["artists"].items[0];
    var j2 := JObj(j.keys, j.fields["artists" := JArr([first] + others)]);
    assert j2.fields["artists"].items[0] == first;
    assert ArtistRequest(j2) == ArtistRequest(j);
  }

  // ---- What each extractor returns for a track object ----

  function ArtistNames(artists: seq<Artist>): (names: seq<string>)
    requires forall i :: 0 <= i < |artists| ==> artists[i].name.Some?
    ensures |names| == |artists|
    ensures forall i :: 0 <= i < |artists| ==> names[i] == artists[i].name.value
    decreases |artists|
  {
    if |artists| == 0 then [] else [artists[0].name.value] + ArtistNames(artists[1..])
  }

  lemma TitleOfTrack(t: Track)
    ensures GetTitle(TrackJson(t)) == Ok(if t.name.Some? then JStr(t.name.value) else Unknown)
  {
    TrackFields(t);
  }

  /** The artists' names in order, `"Unknown"` without artists, and KeyError when one has no name. */
  lemma ArtistsOfTrack(t: Track)
    ensures t.artists.None? || t.artists.value == [] ==> GetArtists(TrackJson(t)) == Ok(Unknown)
    ensures t.artists.Some? && t.artists.value != [] && (forall i :: 0 <= i < |t.artists.value| ==> t.artists.value[i].name.Some?) ==>
              GetArtists(TrackJson(t)) == Ok(JStr(Join(", ", ArtistNames(t.artists.value))))
    ensures t.artists.Some? && (exists i :: 0 <= i < |t.artists.value| && t.artists.value[i].name.None?) ==>
              GetArtists(TrackJson(t)) == Err(KeyError(JStr("name")))
  {
    TrackFields(t);
    if t.artists.Some? {
      var artists := t.artists.value;
      var j := TrackJson(t);
      assert j.fields["artists"] == ArtistsJson(artists);
      if artists == [] {
        assert ArtistsJson(artists) == EmptyList;
      } else if forall i :: 0 <= i < |artists| ==> artists[i].name.Some? {
        NamesAgree(artists);
        NamedArtists(j, ArtistsJson(artists).items, ArtistNames(artists));
      } else {
        var k :| 0 <= k < |artists| && artists[k].name.None?;
        UnnamedArtist(j, artists, k);
      }
    }
  }

  lemma ArtistItems(artists: seq<Artist>)
    ensures var v := ArtistsJson(artists);
            forall i :: 0 <= i < |artists| ==>
              v.items[i].JObj? &&
              (HasField(v.items[i], "name") <==> artists[i].name.Some?) &&
              (artists[i].name.Some? ==> v.items[i].fields["name"] == JStr(artists[i].name.value))
  {
    var v := ArtistsJson(artists);
    forall i | 0 <= i < |artists| ensures v.items[i].JObj? &&
        (HasField(v.items[i], "name") <==> artists[i].name.Some?) &&
        (artists[i].name.Some? ==> v.items[i].fields["name"] == JStr(artists[i].name.value)) {
      ArtistFields(artists[i]);
    }
  }

  lemma NamedArtists(j: JValue, items: seq<JValue>, names: seq<string>)
    requires HasField(j, "artists") && j.fields["artists"] == JArr(items) && items != []
    requires AllNamed(items) && NamesOf(items) == names
    ensures GetArtists(j) == Ok(JStr(Join(", ", names)))
  {
  }

  lemma NamesAgree(artists: seq<Artist>)
    requires forall i :: 0 <= i < |artists| ==> artists[i].name.Some?
    ensures AllNamed(ArtistsJson(artists).items)
    ensures NamesOf(ArtistsJson(artists).items) == ArtistNames(artists)
  {
    var v := ArtistsJson(artists);
    ArtistItems(artists);
    assert AllNamed(v.items);
    var a := NamesOf(v.items);
    var b := ArtistNames(artists);
    assert a == b;
  }

  lemma UnnamedArtist(j: JValue, artists: seq<Artist>, k: nat)
    requires HasField(j, "artists") && j.fields["artists"] == ArtistsJson(artists)
    requires k < |artists| && artists[k].name.None?
    ensures GetArtists(j) == Err(KeyError(JStr("name")))
  {
    var v := ArtistsJson(artists);
    ArtistItems(artists);
    assert v != EmptyList;
    assert !Subscript(v.items[k], "name").Ok?;
  }

  lemma AlbumFieldsOfTrack(t: Track)
    ensures GetAlbum(TrackJson(t)) ==
            Ok(if t.album.Some? && t.album.value.name.Some? then JStr(t.album.value.name.value) else Unknown)
    ensures GetReleaseDate(TrackJson(t)) ==
            Ok(if t.album.Some? && t.album.value.releaseDate.Some? then JStr(t.album.value.releaseDate.value) else Unknown)
    ensures GetTotalTracks(TrackJson(t)) ==
            Ok(if t.album.Some? && t.album.value.totalTracks.Some? then JNum(t.album.value.totalTracks.value) else Unknown)
  {
    TrackFields(t);
    if t.album.Some? {
      AlbumFields(t.album.value);
    }
  }

  lemma TrackNumberOfTrack(t: Track)
    ensures GetTrackNumber(TrackJson(t)) == Ok(if t.trackNumber.Some? then JNum(t.trackNumber.value) else Unknown)
  {
    TrackFields(t);
  }

  /** The first image's URL, and `""` when there is no album, no image or no URL on the first image. */
  lemma CoverUrlOfTrack(t: Track)
    ensures GetCoverUrl(TrackJson(t)) ==
            Ok(if t.album.Some? && t.album.value.images.Some? && t.album.value.images.value != [] &&
                  t.album.value.images.value[0].url.Some?
               then JStr(t.album.value.images.value[0].url.value) else EmptyString)
  {
    TrackFields(t);
    if t.album.Some? {
      AlbumFields(t.album.value);
      if t.album.value.images.Some? && t.album.value.images.value != [] {
        var ims := t.album.value.images.value;
        assert ImagesJson(ims) != EmptyList;
        ImageFields(ims[0]);
      }
    }
  }

  /** No request without artists or without an `id` on the first one; otherwise
      exactly the first artist's URL. */
  lemma ArtistRequestOfTrack(t: Track)
    ensures ArtistRequest(TrackJson(t)) ==
            if t.artists.None? || t.artists.value == [] then Ok(None)
            else
              var first := t.artists.value[0];
              if first.id.None? || first.id.value == "" then Ok(None) else Ok(Some(ArtistUrl(first.id.value)))
  {
    TrackFields(t);
    if t.artists.Some? && t.artists.value != [] {
      var artists := t.artists.value;
      assert ArtistsJson(artists) != EmptyList;
      ArtistFields(artists[0]);
    }
  }

  /** The genres of an artist object: joined with `", "`, or `"Unknown"` for a missing or empty list. */
  lemma GenresOfArtist(a: Artist)
    ensures GenresOf(ArtistJson(a)) ==
            if a.genres.None? || a.genres.value == [] then Ok(Unknown) else Ok(JStr(Join(", ", a.genres.value)))
  {
    ArtistFields(a);
    if a.genres.Some? && a.genres.value != [] {
      GenresOfList(ArtistJson(a), a.genres.value);
    } else if a.genres.Some? {
      assert JStrs(a.genres.value) == EmptyList;
    }
  }
}
