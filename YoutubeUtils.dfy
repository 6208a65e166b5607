// The YouTube side of the pipeline (utils/youtube_utils.py): choosing the
// first search hit, the download retry loop, and the older tag writer that
// predates utils/metadata_utils.py. yt-dlp is a collaborator: its search
// result is a value, and each download attempt's outcome comes from a function
// of the attempt number. The trace of downloads and waits stands for the
// calls the loop makes; the waits' real duration is not modelled.

module YoutubeUtils {
  import opened Wrappers
  import opened Strings
  import opened Py
  import opened PyPath
  import opened MetadataUtils

  /** `get_track_from_youtube` on the result of `ydl.extract_info(search_query)`:
      the first entry of a dict whose `"entries"` is a list, and any other
      result, `None` included, unchanged. */
  function SelectEntry(results: JValue): (r: Result<JValue>)
    ensures results.JObj? && "entries" in results.fields && results.fields["entries"].JArr? ==>
              var entries := results.fields["entries"].items;
              (entries == [] ==> r == Err(IndexError)) && (entries != [] ==> r == Ok(entries[0]))
    ensures !(results.JObj? && "entries" in results.fields && results.fields["entries"].JArr?) ==> r == Ok(results)
  {
    if results.JObj? && "entries" in results.fields && results.fields["entries"].JArr? then
      First(results.fields["entries"])
    else Ok(results)
  }

  /** `get_track_from_youtube(search_query)`, where `extractInfo` is yt-dlp's search. */
  function GetTrackFromYoutube(query: string, extractInfo: string -> Result<JValue>): (r: Result<JValue>)
    ensures extractInfo(query).Err? ==> r == extractInfo(query)
    ensures extractInfo(query).Ok? ==> r == SelectEntry(extractInfo(query).value)
  {
    var results :- extractInfo(query);
    SelectEntry(results)
  }

  /** An effect of the download loop: a `ydl.download([url])` call or an `asyncio.sleep(seconds)`. */
  datatype Event = Download(url: JValue) | Sleep(seconds: int)

  /** `splitext(output_path)[0] + ".mp3"`: the file the loop reports. */
  function OutputFile(outputPath: string): (p: string)
    ensures EndsWith(p, ".mp3")
  {
    SplitExt(outputPath).0 + ".mp3"
  }

  /** The final extension is replaced by `.mp3`; a path already ending in
      `.mp3` is reported unchanged. */
  lemma OutputFileReplacesExtension(stem: string, ext: string)
    requires '.' !in ext && '/' !in ext
    requires !AllDots(Basename(stem))
    ensures OutputFile(stem + "." + ext) == stem + ".mp3"
  {
    SplitExtOfExtension(stem, ext);
  }

  /** What the attempts from `attempt` on do: the outcome (success, or the
      exception that leaves the loop) and the calls made. `link` is the result
      of looking up `youtube_track["webpage_url"]` and `download(k)` the outcome
      of the `k`-th `ydl.download`. Only a DownloadError before the last attempt
      is retried, after a sleep. */
  function Attempts(link: Result<JValue>, maxRetries: int, delay: int, download: nat -> Result<()>, attempt: nat): (Result<()>, seq<Event>)
    decreases maxRetries - attempt
  {
    if attempt >= maxRetries then (Ok(()), [])
    else match link
      case Err(e) => (Err(e), [])
      case Ok(url) =>
        match download(attempt)
        case Ok(_) => (Ok(()), [Download(url)])
        case Err(e) =>
          if !e.DownloadError? then (Err(e), [Download(url)])
          else if attempt < maxRetries - 1 then
            var rest := Attempts(link, maxRetries, delay, download, attempt + 1);
            (rest.0, [Download(url), Sleep(delay)] + rest.1)
          else (Err(e), [Download(url)])
  }

  /** A call and a wait appended one at a time, then the rest of the trace. */
  lemma Regroup(before: seq<Event>, call: Event, wait: Event, rest: seq<Event>)
    ensures before + ([call, wait] + rest) == before + [call] + [wait] + rest
  {
  }

  /** One more attempt: what it does, and where a retried DownloadError leads. */
  lemma AttemptStep(link: Result<JValue>, maxRetries: int, delay: int, download: nat -> Result<()>, attempt: nat)
    requires attempt < maxRetries
    ensures var here := Attempts(link, maxRetries, delay, download, attempt);
            (link.Err? ==> here == (Err(link.exc), [])) &&
            (link.Ok? && download(attempt).Ok? ==> here == (Ok(()), [Download(link.value)])) &&
            (link.Ok? && download(attempt).Err? && (!download(attempt).exc.DownloadError? || attempt == maxRetries - 1) ==>
               here == (Err(download(attempt).exc), [Download(link.value)])) &&
            (link.Ok? && download(attempt).Err? && download(attempt).exc.DownloadError? && attempt < maxRetries - 1 ==>
               var rest := Attempts(link, maxRetries, delay, download, attempt + 1);
               here == (rest.0, [Download(link.value), Sleep(delay)] + rest.1))
  {
  }

  /** `download_track(youtube_track, output_path, max_retries, delay)`: the path
      of the MP3 on success, or the exception the loop lets out, with the calls
      made on the way. Every attempt looks up `youtube_track["webpage_url"]`
      inside the `try`, so a missing key leaves on the first attempt. */
  method DownloadTrack(track: JValue, outputPath: string, maxRetries: int, delay: int, download: nat -> Result<()>)
    returns (r: Result<string>, trace: seq<Event>)
    ensures var run := Attempts(Subscript(track, "webpage_url"), maxRetries, delay, download, 0);
            trace == run.1 && r == (if run.0.Ok? then Ok(OutputFile(outputPath)) else Err(run.0.exc))
  {
    var base := SplitExt(outputPath).0;
    ghost var link := Subscript(track, "webpage_url");
    ghost var total := Attempts(link, maxRetries, delay, download, 0);
    trace := [];
    var attempt: nat := 0;
    while attempt < maxRetries
      invariant total.0 == Attempts(link, maxRetries, delay, download, attempt).0
      invariant total.1 == trace + Attempts(link, maxRetries, delay, download, attempt).1
      decreases maxRetries - attempt
    {
      AttemptStep(link, maxRetries, delay, download, attempt);
      var url := Subscript(track, "webpage_url");
      if url.Err? {
        assert trace + [] == trace;
        return Err(url.exc), trace;
      }
      ghost var before := trace;
      trace := trace + [Download(url.value)];
      var outcome := download(attempt);
      if outcome.Ok? {
        return Ok(base + ".mp3"), trace;
      }
      if !outcome.exc.DownloadError? || attempt == maxRetries - 1 {
        return Err(outcome.exc), trace;
      }
      trace := trace + [Sleep(delay)];
      ghost var rest := Attempts(link, maxRetries, delay, download, attempt + 1);
      Regroup(before, Download(url.value), Sleep(delay), rest.1);
      attempt := attempt + 1;
    }
    assert trace + [] == trace;
    return Ok(base + ".mp3"), trace;
  }

  /** `n` failed attempts, each followed by its wait. */
  function Retried(url: JValue, delay: int, n: nat): (events: seq<Event>)
    ensures |events| == 2 * n
  {
    if n == 0 then [] else [Download(url), Sleep(delay)] + Retried(url, delay, n - 1)
  }

  /** The number of `ydl.download` calls in a trace. */
  function Downloads(events: seq<Event>): nat {
    if events == [] then 0
    else (if events[0].Download? then 1 else 0) + Downloads(events[1..])
  }

  /** DownloadErrors on attempts `a` up to `k` are each retried after a wait and
      lead on to attempt `k`. */
  lemma {:induction false} RetriesUntil(link: Result<JValue>, maxRetries: int, delay: int, download: nat -> Result<()>, a: nat, k: nat)
    requires a <= k < maxRetries
    requires link.Ok?
    requires forall j :: a <= j < k ==> download(j).Err? && download(j).exc.DownloadError?
    ensures var url := link.value;
            var at := Attempts(link, maxRetries, delay, download, k);
            Attempts(link, maxRetries, delay, download, a) == (at.0, Retried(url, delay, k - a) + at.1)
    decreases k - a
  {
    var url := link.value;
    if a < k {
      RetriesUntil(link, maxRetries, delay, download, a + 1, k);
      var at := Attempts(link, maxRetries, delay, download, k);
      var rest := Attempts(link, maxRetries, delay, download, a + 1);
      assert download(a).Err? && download(a).exc.DownloadError? && a < maxRetries - 1;
      assert Attempts(link, maxRetries, delay, download, a) == (rest.0, [Download(url), Sleep(delay)] + rest.1);
      assert Retried(url, delay, k - a) == [Download(url), Sleep(delay)] + Retried(url, delay, k - a - 1);
      assert [Download(url), Sleep(delay)] + (Retried(url, delay, k - a - 1) + at.1)
          == Retried(url, delay, k - a) + at.1;
    } else {
      var at := Attempts(link, maxRetries, delay, download, k);
      assert Retried(url, delay, 0) + at.1 == at.1;
    }
  }

  /** The first success returns at once: attempt `k` succeeds after `k`
      DownloadErrors, with `k + 1` calls and a wait after each failure. */
  lemma SucceedsAt(link: Result<JValue>, maxRetries: int, delay: int, download: nat -> Result<()>, k: nat)
    requires k < maxRetries
    requires link.Ok?
    requires forall j :: 0 <= j < k ==> download(j).Err? && download(j).exc.DownloadError?
    requires download(k).Ok?
    ensures var url := link.value;
            Attempts(link, maxRetries, delay, download, 0) == (Ok(()), Retried(url, delay, k) + [Download(url)])
  {
    RetriesUntil(link, maxRetries, delay, download, 0, k);
  }

  /** After `maxRetries` DownloadErrors the last one is raised: every attempt is
      made, and each but the last is followed by a wait. */
  lemma ExhaustsRetries(link: Result<JValue>, maxRetries: int, delay: int, download: nat -> Result<()>)
    requires maxRetries > 0
    requires link.Ok?
    requires forall j :: 0 <= j < maxRetries ==> download(j).Err? && download(j).exc.DownloadError?
    ensures var url := link.value;
            Attempts(link, maxRetries, delay, download, 0) ==
              (Err(download(maxRetries - 1).exc), Retried(url, delay, maxRetries - 1) + [Download(url)])
  {
    RetriesUntil(link, maxRetries, delay, download, 0, maxRetries - 1);
  }

  /** Any exception other than DownloadError leaves the loop on its first
      occurrence, with no wait after it. */
  lemma OtherErrorPropagates(link: Result<JValue>, maxRetries: int, delay: int, download: nat -> Result<()>, k: nat)
    requires k < maxRetries
    requires link.Ok?
    requires forall j :: 0 <= j < k ==> download(j).Err? && download(j).exc.DownloadError?
    requires download(k).Err? && !download(k).exc.DownloadError?
    ensures var url := link.value;
            Attempts(link, maxRetries, delay, download, 0) == (Err(download(k).exc), Retried(url, delay, k) + [Download(url)])
  {
    RetriesUntil(link, maxRetries, delay, download, 0, k);
  }

  /** With no attempts allowed nothing is called and the loop still reports success. */
  lemma NoAttempts(link: Result<JValue>, maxRetries: int, delay: int, download: nat -> Result<()>)
    requires maxRetries <= 0
    ensures Attempts(link, maxRetries, delay, download, 0) == (Ok(()), [])
  {
  }

  lemma {:induction false} DownloadsAppend(a: seq<Event>, b: seq<Event>)
    ensures Downloads(a + b) == Downloads(a) + Downloads(b)
    decreases |a|
  {
    if a == [] {
      assert a + b == b;
    } else {
      assert (a + b)[1..] == a[1..] + b;
      DownloadsAppend(a[1..], b);
    }
  }

  /** The downloader is called at most once per remaining attempt. */
  lemma {:induction false} AttemptsBound(link: Result<JValue>, maxRetries: int, delay: int, download: nat -> Result<()>, attempt: nat)
    ensures Downloads(Attempts(link, maxRetries, delay, download, attempt).1) <= if attempt < maxRetries then maxRetries - attempt else 0
    decreases maxRetries - attempt
  {
    var events := Attempts(link, maxRetries, delay, download, attempt).1;
    if attempt < maxRetries && link.Ok? {
      var url := link.value;
      assert Downloads([Download(url)]) == 1;
      var outcome := download(attempt);
      if outcome.Err? && outcome.exc.DownloadError? && attempt < maxRetries - 1 {
        var rest := Attempts(link, maxRetries, delay, download, attempt + 1).1;
        AttemptsBound(link, maxRetries, delay, download, attempt + 1);
        DownloadsAppend([Download(url), Sleep(delay)], rest);
        assert Downloads([Download(url), Sleep(delay)]) == 1 by {
          assert [Download(url), Sleep(delay)][1..] == [Sleep(delay)];
          assert [Sleep(delay)][1..] == [];
        }
      }
    }
  }

  /** The older `add_metadata_to_track`: the same assignments, but the raw
      `(track_number, total_tracks)` pair is stored, and `cover_path` is opened
      whatever it is, so a `None` path raises TypeError and a path that does not
      exist raises FileNotFoundError, in both cases before the save. */
  method AddMetadataToTrack(audio: AudioFile, info: JValue, coverPath: Option<string>, disk: Disk) returns (r: Result<()>)
    modifies TagOf(audio)
    ensures !audio.Tagged? ==> r == Err(AssertionError)
    ensures audio.Tagged? && ReadInfo(info).Err? ==> r == Err(ReadInfo(info).exc)
    ensures audio.Tagged? && ReadInfo(info).Ok? && coverPath.None? ==> r == Err(TypeError)
    ensures audio.Tagged? && ReadInfo(info).Ok? && coverPath.Some? && !HasCover(coverPath.value, disk) ==>
              r == Err(FileNotFoundError(coverPath.value))
    ensures audio.Tagged? && r.Err? ==> audio.tag.saved == old(audio.tag.saved) && audio.tag.images == old(audio.tag.images)
    ensures audio.Tagged? && r.Ok? ==>
              ReadInfo(info).Ok? && coverPath.Some? && HasCover(coverPath.value, disk) &&
              var v := ReadInfo(info).value;
              var fields := Fields(
                v.title, v.artists, v.album, v.releaseDate, v.genres,
                (v.trackNumber, v.totalTracks),
                old(audio.tag.images)["cover" := Picture(3, disk[coverPath.value], "image/jpeg", "cover")]);
              audio.tag.Current() == fields && audio.tag.saved == old(audio.tag.saved) + [fields]
  {
    if !audio.Tagged? {
      return Err(AssertionError);
    }
    var tag := audio.tag;
    var v := Subscript(info, "title");
    if v.Err? {
      return Err(v.exc);
    }
    tag.title := v.value;
    v := Subscript(info, "artists");
    if v.Err? {
      return Err(v.exc);
    }
    tag.artist := v.value;
    v := Subscript(info, "album");
    if v.Err? {
      return Err(v.exc);
    }
    tag.album := v.value;
    v := Subscript(info, "release_date");
    if v.Err? {
      return Err(v.exc);
    }
    tag.releaseDate := v.value;
    v := Subscript(info, "genres");
    if v.Err? {
      return Err(v.exc);
    }
    tag.genre := v.value;
    var trackNumber := Subscript(info, "track_number");
    if trackNumber.Err? {
      return Err(trackNumber.exc);
    }
    var totalTracks := Subscript(info, "total_tracks");
    if totalTracks.Err? {
      return Err(totalTracks.exc);
    }
    tag.trackNum := (trackNumber.value, totalTracks.value);
    if coverPath.None? {
      return Err(TypeError);
    }
    if !HasCover(coverPath.value, disk) {
      return Err(FileNotFoundError(coverPath.value));
    }
    tag.SetImage(3, disk[coverPath.value], "image/jpeg", "cover");
    tag.Save();
    return Ok(());
  }
}
