// Writing a track's metadata into the ID3 tag of its MP3 file
// (utils/metadata_utils.py). eyed3 is a collaborator: the file it loads is an
// `AudioFile`, the tag it exposes is the `Tag` class below, and saving records
// the tag's fields as they are at that moment. The file system is the map
// `Disk` from the paths that exist to their bytes.

module MetadataUtils {
  import opened Strings
  import opened Py
  import opened Bytes

  /** An attached picture frame, as `tag.images.set(type, data, mime, description)` stores it. */
  datatype Picture = Picture(picType: int, data: seq<Byte>, mime: string, description: string)

  /** The tag fields the bot writes, as one value. */
  datatype Fields = Fields(
    title: JValue,
    artist: JValue,
    album: JValue,
    releaseDate: JValue,
    genre: JValue,
    trackNum: (JValue, JValue),
    images: map<string, Picture>)

  /** An eyed3 ID3 tag: fields assigned in place, pictures keyed by their
      description (setting a picture with a description already present replaces
      it), and the field values written to disk by each `save()`. */
  class Tag {
    var title: JValue
    var artist: JValue
    var album: JValue
    var releaseDate: JValue
    var genre: JValue
    var trackNum: (JValue, JValue)
    var images: map<string, Picture>
    var saved: seq<Fields>

    function Current(): Fields
      reads this
    {
      Fields(title, artist, album, releaseDate, genre, trackNum, images)
    }

    /** `tag.images.set(picType, data, mime, description)`. */
    method SetImage(picType: int, data: seq<Byte>, mime: string, description: string)
      modifies this
      ensures images == old(images)[description := Picture(picType, data, mime, description)]
      ensures title == old(title) && artist == old(artist) && album == old(album)
      ensures releaseDate == old(releaseDate) && genre == old(genre) && trackNum == old(trackNum)
      ensures saved == old(saved)
    {
      images := images[description := Picture(picType, data, mime, description)];
    }

    /** `tag.save()`: the current fields reach the file. */
    method Save()
      modifies this
      ensures saved == old(saved) + [old(Current())]
      ensures Current() == old(Current())
    {
      saved := saved + [Current()];
    }
  }

  /** What `eyed3.load(file_path)` gives: nothing, a file without a tag, or a tagged file. */
  datatype AudioFile = NotLoaded | Untagged | Tagged(tag: Tag)

  /** The objects that writing into `audio` may change. */
  function TagOf(audio: AudioFile): set<object> {
    if audio.Tagged? then {audio.tag} else {}
  }

  /** The paths that exist, with their contents. */
  type Disk = map<string, seq<Byte>>

  /** The seven values `add_metadata_to_track` reads from the info dict. */
  datatype InfoValues = InfoValues(
    title: JValue,
    artists: JValue,
    album: JValue,
    releaseDate: JValue,
    genres: JValue,
    trackNumber: JValue,
    totalTracks: JValue)

  /** The info keys read, in the order the code reads them. */
  const TagKeys: seq<string> := ["title", "artists", "album", "release_date", "genres", "track_number", "total_tracks"]

  /** `track_info[k]` for the keys of `TagKeys` in order: the first lookup that
      raises is the exception. */
  function ReadInfo(info: JValue): Result<InfoValues> {
    var title :- Subscript(info, "title");
    var artists :- Subscript(info, "artists");
    var album :- Subscript(info, "album");
    var releaseDate :- Subscript(info, "release_date");
    var genres :- Subscript(info, "genres");
    var trackNumber :- Subscript(info, "track_number");
    var totalTracks :- Subscript(info, "total_tracks");
    Ok(InfoValues(title, artists, album, releaseDate, genres, trackNumber, totalTracks))
  }

  /** The lookups succeed exactly for a dict holding every key of `TagKeys`, and
      then give that dict's values unchanged. */
  lemma ReadInfoValues(info: JValue)
    ensures ReadInfo(info).Ok? <==> info.JObj? && forall k :: k in TagKeys ==> k in info.fields
    ensures ReadInfo(info).Ok? ==>
              var v := ReadInfo(info).value;
              v.title == info.fields["title"] && v.artists == info.fields["artists"] &&
              v.album == info.fields["album"] && v.releaseDate == info.fields["release_date"] &&
              v.genres == info.fields["genres"] && v.trackNumber == info.fields["track_number"] &&
              v.totalTracks == info.fields["total_tracks"]
  {
  }

  /** The exception raised: TypeError when the info is not a dict, and otherwise
      KeyError naming the first key of `TagKeys` it lacks. */
  lemma ReadInfoFailure(info: JValue, i: nat)
    requires i < |TagKeys|
    requires info.JObj? ==> TagKeys[i] !in info.fields && forall j :: 0 <= j < i ==> TagKeys[j] in info.fields
    ensures ReadInfo(info) == Err(if info.JObj? then KeyError(JStr(TagKeys[i])) else TypeError)
  {
    if info.JObj? {
      assert TagKeys[0] in info.fields || i == 0;
      assert TagKeys[1] in info.fields || i <= 1;
      assert TagKeys[2] in info.fields || i <= 2;
      assert TagKeys[3] in info.fields || i <= 3;
      assert TagKeys[4] in info.fields || i <= 4;
      assert TagKeys[5] in info.fields || i <= 5;
    }
  }

  /** `int(str(v)) if str(v).isdigit() else 0`, with `isdigit` on ASCII digits. */
  function TrackNumber(v: JValue): nat {
    var s := Str(v);
    if IsDigits(s) then DigitsValue(s) else 0
  }

  /** A number normalises to itself when it is not negative and to 0 otherwise. */
  lemma TrackNumberOfNumber(n: int)
    ensures TrackNumber(JNum(n)) == if n >= 0 then n else 0
  {
    IntToStringDigits(n);
  }

  /** The decimal text of a count normalises to that count. */
  lemma TrackNumberOfNumeral(n: nat)
    ensures TrackNumber(JStr(NatToString(n))) == n
  {
    NatToStringDigits(n);
  }

  /** Leading zeros do not change the value of a digit string. */
  lemma {:induction false} DigitsValueLeadingZero(s: string)
    requires forall i :: 0 <= i < |s| ==> IsDigit(s[i])
    ensures DigitsValue("0" + s) == DigitsValue(s)
    decreases |s|
  {
    if |s| > 0 {
      var t := "0" + s;
      assert t[..|t| - 1] == "0" + s[..|s| - 1];
      DigitsValueLeadingZero(s[..|s| - 1]);
    }
  }

  /** A digit string with a leading zero normalises like the string without it. */
  lemma TrackNumberLeadingZero(s: string)
    requires IsDigits(s)
    ensures TrackNumber(JStr("0" + s)) == TrackNumber(JStr(s))
  {
    DigitsValueLeadingZero(s);
    assert forall i :: 0 <= i < |"0" + s| ==> IsDigit(("0" + s)[i]);
  }

  /** The values the extractors fall back to, a negative number as text, and a
      zero-padded number: `"Unknown"`, `""` and `None` give 0, `"-1"` gives 0,
      `"07"` gives 7. */
  lemma TrackNumberExamples()
    ensures TrackNumber(Unknown) == 0
    ensures TrackNumber(JStr("")) == 0
    ensures TrackNumber(JNull) == 0
    ensures TrackNumber(JStr("-1")) == 0
    ensures TrackNumber(JStr("07")) == 7
  {
    assert !IsDigit("Unknown"[0]);
    assert !IsDigit("None"[0]);
    assert !IsDigit("-1"[0]);
    assert DigitsValue("7") == 7 by {
      assert "7"[..0] == "";
    }
    TrackNumberLeadingZero("7");
  }

  /** Whether `if cover_path and os.path.exists(cover_path)` holds. */
  predicate HasCover(coverPath: string, disk: Disk) {
    coverPath != "" && coverPath in disk
  }

  /** `add_metadata_to_track(file_path, track_info, cover_path)` where `audio` is
      what eyed3 loaded from `file_path`. A missing file or tag fails the
      assertions before anything is written. Otherwise the fields are assigned
      in order, so a lookup that raises stops the update before the save; when
      all lookups succeed the tag holds the info's values, the normalised track
      numbers and the cover when there is one, and is saved once with exactly
      those fields. */
  method AddMetadataToTrack(audio: AudioFile, info: JValue, coverPath: string, disk: Disk) returns (r: Result<()>)
    modifies TagOf(audio)
    ensures !audio.Tagged? ==> r == Err(AssertionError)
    ensures audio.Tagged? && r.Err? ==>
              ReadInfo(info) == Err(r.exc) &&
              audio.tag.saved == old(audio.tag.saved) && audio.tag.images == old(audio.tag.images)
    ensures audio.Tagged? && r.Ok? ==>
              ReadInfo(info).Ok? &&
              var v := ReadInfo(info).value;
              var fields := Fields(
                v.title, v.artists, v.album, v.releaseDate, v.genres,
                (JNum(TrackNumber(v.trackNumber)), JNum(TrackNumber(v.totalTracks))),
                if HasCover(coverPath, disk)
                then old(audio.tag.images)["cover" := Picture(3, disk[coverPath], "image/jpeg", "cover")]
                else old(audio.tag.images));
              audio.tag.Current() == fields && audio.tag.saved == old(audio.tag.saved) + [fields]
  {
    if !audio.Tagged? {
      return Err(AssertionError);
    }
    var tag := audio.tag;
    var v := Subscript(info, "title");
    if v.Err? {
      return Err(v.exc);
    }
    tag.title := v.value;
    v := Subscript(info, "artists");
    if v.Err? {
      return Err(v.exc);
    }
    tag.artist := v.value;
    v := Subscript(info, "album");
    if v.Err? {
      return Err(v.exc);
    }
    tag.album := v.value;
    v := Subscript(info, "release_date");
    if v.Err? {
      return Err(v.exc);
    }
    tag.releaseDate := v.value;
    v := Subscript(info, "genres");
    if v.Err? {
      return Err(v.exc);
    }
    tag.genre := v.value;
    var trackNumber := Subscript(info, "track_number");
    if trackNumber.Err? {
      return Err(trackNumber.exc);
    }
    var totalTracks := Subscript(info, "total_tracks");
    if totalTracks.Err? {
      return Err(totalTracks.exc);
    }
    tag.trackNum := (JNum(TrackNumber(trackNumber.value)), JNum(TrackNumber(totalTracks.value)));
    if HasCover(coverPath, disk) {
      tag.SetImage(3, disk[coverPath], "image/jpeg", "cover");
    }
    tag.Save();
    return Ok(());
  }
}
