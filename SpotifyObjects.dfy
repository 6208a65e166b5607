// The shape of the Spotify Web API track object the extractors read, with
// every field optional, and the JSON value the API sends for it. The
// extractor lemmas use it as the reference for what each extractor returns.

module SpotifyObjects {
  import opened Wrappers
  import opened Py

  datatype Image = Image(url: Option<string>)

  datatype Artist = Artist(id: Option<string>, name: Option<string>, genres: Option<seq<string>>)

  datatype Album = Album(
    name: Option<string>,
    releaseDate: Option<string>,
    totalTracks: Option<int>,
    images: Option<seq<Image>>)

  datatype Track = Track(
    name: Option<string>,
    artists: Option<seq<Artist>>,
    album: Option<Album>,
    trackNumber: Option<int>)

  /** A JSON list of strings. */
  function JStrs(xs: seq<string>): (v: JValue)
    ensures v.JArr? && |v.items| == |xs|
    ensures forall i :: 0 <= i < |xs| ==> v.items[i] == JStr(xs[i])
  {
    JArr(seq(|xs|, i requires 0 <= i < |xs| => JStr(xs[i])))
  }

  /** An object holding the present fields of `entries`, in that order. */
  function Obj(entries: seq<(string, Option<JValue>)>): JValue {
    JObj(PresentKeys(entries), PresentMap(entries))
  }

  function PresentKeys(entries: seq<(string, Option<JValue>)>): seq<string>
    decreases |entries|
  {
    if |entries| == 0 then []
    else (if entries[0].1.Some? then [entries[0].0] else []) + PresentKeys(entries[1..])
  }

  function PresentMap(entries: seq<(string, Option<JValue>)>): map<string, JValue>
    decreases |entries|
  {
    if |entries| == 0 then map[]
    else
      var rest := PresentMap(entries[1..]);
      if entries[0].1.Some? then rest[entries[0].0 := entries[0].1.value] else rest
  }

  function OptStr(o: Option<string>): Option<JValue> {
    if o.Some? then Some(JStr(o.value)) else None
  }

  function OptNum(o: Option<int>): Option<JValue> {
    if o.Some? then Some(JNum(o.value)) else None
  }

  function ImageJson(im: Image): JValue {
    Obj([("url", OptStr(im.url))])
  }

  function ArtistJson(a: Artist): JValue {
    Obj([("id", OptStr(a.id)), ("name", OptStr(a.name)),
         ("genres", if a.genres.Some? then Some(JStrs(a.genres.value)) else None)])
  }

  function ImagesJson(ims: seq<Image>): (v: JValue)
    ensures v.JArr? && |v.items| == |ims|
    ensures forall i :: 0 <= i < |ims| ==> v.items[i] == ImageJson(ims[i])
  {
    JArr(seq(|ims|, i requires 0 <= i < |ims| => ImageJson(ims[i])))
  }

  function ArtistsJson(artists: seq<Artist>): (v: JValue)
    ensures v.JArr? && |v.items| == |artists|
    ensures forall i :: 0 <= i < |artists| ==> v.items[i] == ArtistJson(artists[i])
  {
    JArr(seq(|artists|, i requires 0 <= i < |artists| => ArtistJson(artists[i])))
  }

  function AlbumJson(al: Album): JValue {
    Obj([("name", OptStr(al.name)), ("release_date", OptStr(al.releaseDate)),
         ("total_tracks", OptNum(al.totalTracks)),
         ("images", if al.images.Some? then Some(ImagesJson(al.images.value)) else None)])
  }

  /** The JSON object the API sends for a track. */
  function TrackJson(t: Track): JValue {
    Obj([("name", OptStr(t.name)),
         ("artists", if t.artists.Some? then Some(ArtistsJson(t.artists.value)) else None),
         ("album", if t.album.Some? then Some(AlbumJson(t.album.value)) else None),
         ("track_number", OptNum(t.trackNumber))])
  }

  /** Field lookup in a built object: present exactly when the entry is, with its value. */
  lemma {:induction false} ObjField(entries: seq<(string, Option<JValue>)>, i: nat)
    requires i < |entries|
    requires forall j :: 0 <= j < |entries| && j != i ==> entries[j].0 != entries[i].0
    ensures var o := Obj(entries); var k := entries[i].0;
            (k in o.fields <==> entries[i].1.Some?) &&
            (entries[i].1.Some? ==> o.fields[k] == entries[i].1.value)
    decreases |entries|
  {
    if i > 0 {
      ObjField(entries[1..], i - 1);
    } else {
      MapWithout(entries[1..], entries[0].0);
    }
  }

  lemma {:induction false} MapWithout(entries: seq<(string, Option<JValue>)>, k: string)
    requires forall j :: 0 <= j < |entries| ==> entries[j].0 != k
    ensures k !in PresentMap(entries)
    decreases |entries|
  {
    if |entries| > 0 {
      MapWithout(entries[1..], k);
    }
  }

  /** An object is truthy exactly when some entry is present. */
  lemma {:induction false} ObjTruthy(entries: seq<(string, Option<JValue>)>)
    ensures Truthy(Obj(entries)) <==> exists j :: 0 <= j < |entries| && entries[j].1.Some?
    decreases |entries|
  {
    if |entries| > 0 {
      ObjTruthy(entries[1..]);
      assert forall j :: 1 <= j < |entries| ==> entries[j] == entries[1..][j - 1];
    }
  }

  /** The fields of a track object: each present exactly when the track has it. */
  lemma TrackFields(t: Track)
    ensures var j := TrackJson(t);
            j.JObj? &&
            ("name" in j.fields <==> t.name.Some?) &&
            (t.name.Some? ==> j.fields["name"] == JStr(t.name.value)) &&
            ("artists" in j.fields <==> t.artists.Some?) &&
            (t.artists.Some? ==> j.fields["artists"] == ArtistsJson(t.artists.value)) &&
            ("album" in j.fields <==> t.album.Some?) &&
            (t.album.Some? ==> j.fields["album"] == AlbumJson(t.album.value)) &&
            ("track_number" in j.fields <==> t.trackNumber.Some?) &&
            (t.trackNumber.Some? ==> j.fields["track_number"] == JNum(t.trackNumber.value))
  {
    var es := [("name", OptStr(t.name)),
         ("artists", if t.artists.Some? then Some(ArtistsJson(t.artists.value)) else None),
         ("album", if t.album.Some? then Some(AlbumJson(t.album.value)) else None),
         ("track_number", OptNum(t.trackNumber))];
    assert TrackJson(t) == Obj(es);
    ObjField(es, 0);
    ObjField(es, 1);
    ObjField(es, 2);
    ObjField(es, 3);
  }

  /** The fields of an album object. */
  lemma AlbumFields(al: Album)
    ensures var j := AlbumJson(al);
            j.JObj? &&
            ("name" in j.fields <==> al.name.Some?) &&
            (al.name.Some? ==> j.fields["name"] == JStr(al.name.value)) &&
            ("release_date" in j.fields <==> al.releaseDate.Some?) &&
            (al.releaseDate.Some? ==> j.fields["release_date"] == JStr(al.releaseDate.value)) &&
            ("total_tracks" in j.fields <==> al.totalTracks.Some?) &&
            (al.totalTracks.Some? ==> j.fields["total_tracks"] == JNum(al.totalTracks.value)) &&
            ("images" in j.fields <==> al.images.Some?) &&
            (al.images.Some? ==> j.fields["images"] == ImagesJson(al.images.value))
  {
    var es := [("name", OptStr(al.name)), ("release_date", OptStr(al.releaseDate)),
         ("total_tracks", OptNum(al.totalTracks)),
         ("images", if al.images.Some? then Some(ImagesJson(al.images.value)) else None)];
    assert AlbumJson(al) == Obj(es);
    ObjField(es, 0);
    ObjField(es, 1);
    ObjField(es, 2);
    ObjField(es, 3);
  }

  /** The fields of an artist object. */
  lemma ArtistFields(a: Artist)
    ensures var j := ArtistJson(a);
            j.JObj? &&
            ("id" in j.fields <==> a.id.Some?) &&
            (a.id.Some? ==> j.fields["id"] == JStr(a.id.value)) &&
            ("name" in j.fields <==> a.name.Some?) &&
            (a.name.Some? ==> j.fields["name"] == JStr(a.name.value)) &&
            ("genres" in j.fields <==> a.genres.Some?) &&
            (a.genres.Some? ==> j.fields["genres"] == JStrs(a.genres.value))
  {
    var es := [("id", OptStr(a.id)), ("name", OptStr(a.name)),
         ("genres", if a.genres.Some? then Some(JStrs(a.genres.value)) else None)];
    assert ArtistJson(a) == Obj(es);
    ObjField(es, 0);
    ObjField(es, 1);
    ObjField(es, 2);
  }

  /** The field of an image object. */
  lemma ImageFields(im: Image)
    ensures var j := ImageJson(im);
            j.JObj? &&
            ("url" in j.fields <==> im.url.Some?) &&
            (im.url.Some? ==> j.fields["url"] == JStr(im.url.value))
  {
    var es := [("url", OptStr(im.url))];
    assert ImageJson(im) == Obj(es);
    ObjField(es, 0);
  }
}
