// utils/spotify/track_utils.py: the URL `get_track` requests, the track id of
// a share URL, and the eight-key info record `get_track_info` builds from the
// extractors of utils/spotify/track_extractor.py.

module TrackUtils {
  import opened Wrappers
  import opened Strings
  import opened Py
  import opened UrlId
  import opened TrackExtractor

  const TracksEndpoint := "https://api.spotify.com/v1/tracks"

  /** The URL `get_track(headers, track_id)` requests. */
  function TrackUrl(trackId: string): (url: string)
    ensures StartsWith(url, "https://api.spotify.com/v1/tracks/")
    ensures IdByUrl(url) == IdByUrl(trackId)
  {
    var url := TracksEndpoint + "/" + trackId;
    assert url[..|TracksEndpoint| + 1] == TracksEndpoint + "/";
    IdByUrlUnderPrefix(TracksEndpoint, trackId);
    url
  }

  /** The identifier of a plain id is itself, so `get_track` on an extracted id requests that id. */
  lemma TrackUrlOfPlainId(trackId: string)
    requires '/' !in trackId && '?' !in trackId
    ensures IdByUrl(TrackUrl(trackId)) == trackId
  {
    IdByUrlOfPlainId(trackId);
  }

  /** The keys of the info record, in the order the dict literal lists them. */
  const InfoKeys: seq<string> :=
    ["title", "album", "artists", "release_date", "genres", "cover_url", "track_number", "total_tracks"]

  /** The extractor results in the order `get_track_info` calls them. */
  function Extracted(headers: Headers, j: JValue, get: HttpGet): (rs: seq<Result<JValue>>)
    ensures |rs| == 8
  {
    [GetTitle(j), GetAlbum(j), GetArtists(j), GetReleaseDate(j), GetGenres(j, headers, get),
     GetCoverUrl(j), GetTrackNumber(j), GetTotalTracks(j)]
  }

  /** The exception of the first failing result, if any. */
  function FirstError(rs: seq<Result<JValue>>): (e: Option<Exc>)
    ensures e.None? <==> forall i :: 0 <= i < |rs| ==> rs[i].Ok?
    ensures forall k :: 0 <= k < |rs| && rs[k].Err? && (forall i :: 0 <= i < k ==> rs[i].Ok?) ==> e == Some(rs[k].exc)
    decreases |rs|
  {
    if |rs| == 0 then None
    else if rs[0].Err? then Some(rs[0].exc)
    else
      var e := FirstError(rs[1..]);
      assert forall i :: 1 <= i < |rs| ==> rs[i] == rs[1..][i - 1];
      e
  }

  /** The dict `{"title": ..., ..., "total_tracks": ...}`. */
  function InfoRecord(values: seq<JValue>): (v: JValue)
    requires |values| == 8
    ensures v.JObj? && v.keys == InfoKeys && v.fields.Keys == set k | k in InfoKeys
    ensures forall i :: 0 <= i < 8 ==> v.fields[InfoKeys[i]] == values[i]
  {
    JObj(InfoKeys, map[
      "title" := values[0], "album" := values[1], "artists" := values[2],
      "release_date" := values[3], "genres" := values[4], "cover_url" := values[5],
      "track_number" := values[6], "total_tracks" := values[7]])
  }

  /** The record built from the eight extractor results, taken in order: the
      first failure is the exception raised, otherwise every value is stored
      under its key. */
  function Assemble(rs: seq<Result<JValue>>): (r: Result<JValue>)
    requires |rs| == 8
    ensures r.Ok? <==> forall i :: 0 <= i < 8 ==> rs[i].Ok?
    ensures r.Ok? ==> r.value.JObj? && r.value.keys == InfoKeys && r.value.fields.Keys == set k | k in InfoKeys
    ensures r.Ok? ==> forall i :: 0 <= i < 8 ==> r.value.fields[InfoKeys[i]] == rs[i].value
    ensures r.Err? ==> FirstError(rs) == Some(r.exc)
  {
    match FirstError(rs)
    case Some(e) => Err(e)
    case None => Ok(InfoRecord(Values(rs)))
  }

  function Values(rs: seq<Result<JValue>>): (vs: seq<JValue>)
    requires forall i :: 0 <= i < |rs| ==> rs[i].Ok?
    ensures |vs| == |rs| && forall i :: 0 <= i < |rs| ==> vs[i] == rs[i].value
  {
    seq(|rs|, i requires 0 <= i < |rs| => rs[i].value)
  }

  /** `get_track_info(headers, json_result)`: a record with exactly the eight
      keys, each the corresponding extractor applied to the same track; the
      first extractor that raises decides the exception. The extractors have no
      effects apart from the artist request, so taking their results in call
      order is the sequence of calls the function makes. */
  function GetTrackInfo(headers: Headers, j: JValue, get: HttpGet): (r: Result<JValue>)
    ensures var rs := Extracted(headers, j, get);
            && (r.Ok? <==> forall i :: 0 <= i < 8 ==> rs[i].Ok?)
            && (r.Ok? ==> r.value.JObj? && r.value.keys == InfoKeys && r.value.fields.Keys == set k | k in InfoKeys)
            && (r.Ok? ==> forall i :: 0 <= i < 8 ==> r.value.fields[InfoKeys[i]] == rs[i].value)
            && (r.Err? ==> FirstError(rs) == Some(r.exc))
  {
    Assemble(Extracted(headers, j, get))
  }

  /** The headers reach only the `genres` field: every other field is the same
      under any two headers, and headers that give the same genres give the
      same record. */
  lemma HeadersOnlyAffectGenres(h1: Headers, h2: Headers, j: JValue, get: HttpGet)
    ensures var a := GetTrackInfo(h1, j, get);
            var b := GetTrackInfo(h2, j, get);
            a.Ok? && b.Ok? ==> forall k :: k in InfoKeys && k != "genres" ==> a.value.fields[k] == b.value.fields[k]
    ensures GetGenres(j, h1, get) == GetGenres(j, h2, get) ==> GetTrackInfo(h1, j, get) == GetTrackInfo(h2, j, get)
  {
    var rs1 := Extracted(h1, j, get);
    var rs2 := Extracted(h2, j, get);
    assert forall i :: 0 <= i < 8 && i != 4 ==> rs1[i] == rs2[i];
    assert rs1[4] == GetGenres(j, h1, get) && rs2[4] == GetGenres(j, h2, get);
    AssembleAgree(rs1, rs2);
  }

  /** Results that agree everywhere but at `genres` give records that agree everywhere but at `genres`. */
  lemma AssembleAgree(rs1: seq<Result<JValue>>, rs2: seq<Result<JValue>>)
    requires |rs1| == 8 && |rs2| == 8
    requires forall i :: 0 <= i < 8 && i != 4 ==> rs1[i] == rs2[i]
    ensures var a := Assemble(rs1);
            var b := Assemble(rs2);
            a.Ok? && b.Ok? ==> forall k :: k in InfoKeys && k != "genres" ==> a.value.fields[k] == b.value.fields[k]
    ensures rs1[4] == rs2[4] ==> Assemble(rs1) == Assemble(rs2)
  {
    if rs1[4] == rs2[4] {
      assert forall i :: 0 <= i < 8 ==> rs1[i] == rs2[i];
      assert rs1 == rs2;
    }
    var a := Assemble(rs1);
    var b := Assemble(rs2);
    if a.Ok? && b.Ok? {
      forall k | k in InfoKeys && k != "genres" ensures a.value.fields[k] == b.value.fields[k] {
        var i :| 0 <= i < 8 && InfoKeys[i] == k;
        assert i != 4;
        assert a.value.fields[InfoKeys[i]] == rs1[i].value;
        assert b.value.fields[InfoKeys[i]] == rs2[i].value;
      }
    }
  }
}
