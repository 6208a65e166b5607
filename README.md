# Spotify bot downloader: a verified model of its core

This project models the deterministic core of a Telegram bot. The bot takes a
Spotify track, playlist or album link, collects each track's metadata from the
Spotify Web API, finds and downloads the audio from YouTube, writes ID3 tags
into the MP3, and sends the tracks to the user, one by one or zipped. The
model covers:

- the metadata extractors of both generations (`utils/spotify/track_extractor.py`
  and `utils/spotify_track_extractor.py`). They are checked against a typed
  Spotify track object (`SpotifyObjects`) that serves as the reference;
- the URL-to-identifier expression and the eight-key track record;
- client-credentials authentication: the Basic header with Base64 of RFC 4648,
  the token request of RFC 6749 and the Bearer header of RFC 6750;
- the `while url:` page walks of playlists and albums;
- the tag writer and its track-number normalisation, in both versions;
- the YouTube entry selection and the download retry loop;
- the per-track pipeline;
- the zip filter and the send-type dispatch;
- the webhook's de-duplication set.

Python values are modelled as the JSON-shaped datatype `Py.JValue`. Raised
exceptions are modelled as `Py.Result`. Every collaborator is a parameter:
HTTP requests, yt-dlp, eyed3, the file system and the Telegram dispatcher.
State that the source changes in place is modelled as classes:

- the ID3 tag (`MetadataUtils.Tag`);
- the ZIP archive (`FileUtils.ZipArchive`);
- the webhook's processed-id set (`App.Webhook`).

Loops in the source are modelled as methods with loop invariants, each proved
equal to a specification function:

- the page walks (`PlaylistUtils.WalkPlaylist`, `AlbumUtils.WalkAlbum` against `Pagination.Walk`);
- the retry loop (`YoutubeUtils.DownloadTrack` against `YoutubeUtils.Attempts`);
- the zip loop (`FileUtils.CreateZipFile` against `FileUtils.Mp3Files`).

There is one file per module, except that Base64.dfy holds both `Bytes`
(UTF-8 encoding) and `Base64`. `Wrappers`, `Strings`, `Py`, `PyPath`, `Bytes` and
`Base64` model the parts of Python and its standard library that the code
relies on.

## Model

| member | source | states |
|---|---|---|
| Py.Get | utils/spotify/track_extractor.py:16 | `d.get(k, default)` is the value when `k` is present and the default otherwise; it raises AttributeError on a non-dict |
| Py.Subscript | utils/spotify/playlist_utils.py:35 | `d[k]` gives the value when present; otherwise KeyError(k) on a dict and TypeError on anything else |
| Py.StrItems | utils/spotify/track_extractor.py:89 | the strings of a list are produced exactly when every element is a string, and in order |
| Py.EachSubscript | utils/spotify/track_extractor.py:33 | `[x[k] for x in xs]` succeeds exactly when every element has `k`, and lists those values in order |
| PyPath.JoinEnds | utils/file_utils.py:19 | `os.path.join(a, b)` ends with `b`, and an absolute `b` replaces `a` |
| PyPath.SplitExtParts | utils/youtube_utils.py:36 | `splitext` gives back the path when its parts are joined; a non-empty extension is one `.` followed by text without `.` or `/` |
| PyPath.SplitExtOfExtension | utils/youtube_utils.py:36 | the root of `stem.ext` is `stem` when the last component of `stem` is not all dots |
| Strings.IntToStringDigits | utils/metadata_utils.py:33-36 | `str(n).isdigit()` holds exactly for `n >= 0`, and then `int(str(n)) == n` |
| UrlId.IdByUrlIsQueryFreeLastSegment | utils/spotify/track_utils.py:44 | the identifier is the text after the last `/`, cut at its first `?`, so it contains no `/` and no `?` |
| UrlId.IdByUrlIdempotent | utils/spotify/playlist_utils.py:18 | extracting the identifier twice gives it once |
| UrlId.IdByUrlOfPlainId | utils/spotify/album_utils.py:22 | a string without `/` and `?` is its own identifier |
| UrlId.IdByUrlIgnoresQuery | utils/spotify_utils.py:84 | appending `?query` (with no `/`) does not change the identifier |
| UrlId.IdByUrlAfterSlash | utils/spotify/track_utils.py:44 | `prefix/id` yields `id` for a plain `id` |
| UrlId.ShareLinkExample | utils/spotify/track_utils.py:44 | `https://open.spotify.com/track/abc123?si=xyz` yields `abc123` |
| UrlId.IdByUrlUnderPrefix | utils/spotify/track_utils.py:28 | the identifier of `prefix/id` is the identifier of `id`, whatever the prefix |
| SpotifyObjects.TrackFields | utils/spotify/track_extractor.py:16-131 | fact about the model's reference encoding of a track, used by the `*OfTrack` lemmas: each field of the encoded track object is present exactly when the track has it, with its JSON value |
| SpotifyObjects.AlbumFields | utils/spotify/track_extractor.py:46 | reference encoding fact, used by the `*OfTrack` lemmas: each field of the encoded album object is present exactly when the album has it |
| SpotifyObjects.ArtistFields | utils/spotify/track_extractor.py:78 | reference encoding fact, used by the `*OfTrack` lemmas: each field of the encoded artist object is present exactly when the artist has it |
| SpotifyObjects.ImageFields | utils/spotify/track_extractor.py:104 | reference encoding fact, used by the `*OfTrack` lemmas: the encoded image object holds `url` exactly when the image has one |
| SpotifyObjects.ObjTruthy | utils/spotify/track_extractor.py:31 | reference encoding fact, used by the `*OfTrack` lemmas: an encoded object is truthy exactly when one of its fields is present |
| TrackExtractor.AlbumGet | utils/spotify/track_extractor.py:46 | `get("album", {}).get(key, default)`: the default without an album, the album's field or the default, and AttributeError on a non-dict album |
| TrackExtractor.GetTitle | utils/spotify/track_extractor.py:16 | the record's `name` when present, `"Unknown"` only when absent |
| TrackExtractor.GetArtists | utils/spotify/track_extractor.py:30-33 | `"Unknown"` for a missing or empty list; otherwise the names joined by `", "`, or KeyError(`name`) for an artist without one |
| TrackExtractor.GetTrackNumber | utils/spotify/track_extractor.py:118 | the raw `track_number`, or `"Unknown"` when absent |
| TrackExtractor.GetCoverUrl | utils/spotify/track_extractor.py:102-105 | `""` without album or images, otherwise the first image's `url` or `""` |
| TrackExtractor.ArtistRequest | utils/spotify/track_extractor.py:74-82 | no request when there are no artists or the first has no `id`; otherwise a request to `/v1/artists/<first id>` |
| TrackExtractor.GenresOf | utils/spotify/track_extractor.py:86-89 | `"Unknown"` for a missing or empty `genres`; otherwise the genres joined by `", "` |
| TrackExtractor.GetGenres | utils/spotify/track_extractor.py:62-89 | without a request the result is `"Unknown"` (or the lookup's exception); with one, it is the request's exception or the genres of the artist the request returns |
| TrackExtractor.GenresOfRequestedArtist | utils/spotify/track_extractor.py:82-89 | when the first artist's request returns an artist with a non-empty genre list, the result is those genres joined with `", "` |
| TrackExtractor.GenresOfList | utils/spotify/track_extractor.py:89 | a non-empty list of genre strings gives `", ".join(genres)` |
| TrackExtractor.GenresDependOnOneRequest | utils/spotify/track_extractor.py:82-84 | two networks that agree on the one artist request give the same genres |
| TrackExtractor.GenresIgnoreLaterArtists | utils/spotify/track_extractor.py:78 | artists after the first do not affect the genres |
| TrackExtractor.TitleOfTrack | utils/spotify/track_extractor.py:16 | for every track object: its name, or `"Unknown"` |
| TrackExtractor.ArtistsOfTrack | utils/spotify/track_extractor.py:30-33 | for every track object: `"Unknown"` without artists, the names in order when all are named, KeyError when one is not |
| TrackExtractor.NamedArtists | utils/spotify/track_extractor.py:33 | named artists give their names joined by `", "` |
| TrackExtractor.UnnamedArtist | utils/spotify/track_extractor.py:33 | an artist without `name` raises KeyError(`name`) |
| TrackExtractor.AlbumFieldsOfTrack | utils/spotify/track_extractor.py:46-131 | album name, release date and total tracks are the album's or `"Unknown"` |
| TrackExtractor.TrackNumberOfTrack | utils/spotify/track_extractor.py:118 | the track number as stored, or `"Unknown"` |
| TrackExtractor.CoverUrlOfTrack | utils/spotify/track_extractor.py:102-105 | the first image's URL, or `""` without album, images or a URL |
| TrackExtractor.ArtistRequestOfTrack | utils/spotify/track_extractor.py:74-82 | the request is for the first artist's id exactly when that id is non-empty |
| TrackExtractor.GenresOfArtist | utils/spotify/track_extractor.py:86-89 | an artist's genres joined by `", "`, or `"Unknown"` |
| LegacyExtractor.GetArtists | utils/spotify_track_extractor.py:25-28 | `"Unknown"` for a missing or empty list, TypeError for `None` (`len(None)`) |
| LegacyExtractor.ArtistsAgreeOnLists | utils/spotify_track_extractor.py:25-28 | on a missing list or a list, both generations of `get_artists` agree |
| LegacyExtractor.GetGenres | utils/spotify_track_extractor.py:68-69 | `""` without artists, IndexError for an empty artist list, otherwise the embedded `genres` of the first artist joined with `", "` (`""` when it has none) |
| LegacyExtractor.GetCoverUrl | utils/spotify_track_extractor.py:82 | `""` without album or `images`; IndexError for an empty image list; otherwise the first image's `url`, or `""` when it has none |
| LegacyExtractor.GenresOfTrack | utils/spotify_track_extractor.py:68-69 | for every track object: the first artist's genres joined, `""` without artists, IndexError for an empty list |
| LegacyExtractor.CoverUrlOfTrack | utils/spotify_track_extractor.py:82 | for every track object: the first image's URL, `""`, or IndexError for an empty image list |
| TrackUtils.TrackUrl | utils/spotify/track_utils.py:28 | the URL is under `/v1/tracks/` and carries the id |
| TrackUtils.TrackUrlOfPlainId | utils/spotify/track_utils.py:28 | a plain id is read back from its track URL unchanged |
| TrackUtils.FirstError | utils/spotify/track_utils.py:58-65 | no error exactly when every extractor succeeds; otherwise the first failing one's exception |
| TrackUtils.InfoRecord | utils/spotify/track_utils.py:67-76 | a dict with exactly the eight keys, in literal order, holding the given values |
| TrackUtils.Assemble | utils/spotify/track_utils.py:58-78 | the record exists exactly when all extractors succeed; each key holds its extractor's value; otherwise the first exception |
| TrackUtils.GetTrackInfo | utils/spotify/track_utils.py:58-78 | `get_track_info` is the record of the eight extractor results, with their order and exceptions |
| TrackUtils.HeadersOnlyAffectGenres | utils/spotify/track_utils.py:62 | different headers change only the `genres` field, and nothing when genres agree |
| TrackUtils.AssembleAgree | utils/spotify/track_utils.py:58-78 | extractor results that agree except at `genres` give records that agree except at `genres`, and records that are equal when genres agree too |
| SpotifyUtils.GetTrackInfoAsWritten | utils/spotify_utils.py:98-102 | as written, every call raises |
| SpotifyUtils.AsWrittenRaisesTypeError | utils/spotify_utils.py:102 | once the four earlier extractors succeed, the call raises TypeError |
| SpotifyUtils.AsWrittenCounterexample | utils/spotify_utils.py:102 | on `{"name": "Song"}` the code as written raises TypeError, while the corrected version builds a record titled `Song` |
| SpotifyUtils.GetTrackInfo | utils/spotify_utils.py:98-118 | the corrected function is the eight-key record of the older extractors, with the first exception |
| Bytes.EncodeChar | utils/spotify/auth.py:17 | UTF-8 gives one byte exactly for ASCII, equal to the code point, and 1 to 4 bytes with the high bit set otherwise |
| Bytes.Utf8Append | utils/spotify/auth.py:17 | encoding distributes over concatenation |
| Bytes.Utf8AsciiByte | utils/spotify/auth.py:17 | an ASCII byte occurs in the encoding exactly when the character occurs in the text |
| Base64.AlphabetRoundTrip | utils/spotify/auth.py:18 | the 64-character alphabet of RFC 4648 section 4 is a bijection |
| Base64.Encode | utils/spotify/auth.py:18 | `b64encode` output has 4 characters per started group of 3 bytes |
| Base64.DecodeEncode | utils/spotify/auth.py:18 | decoding the encoding gives back the bytes |
| Base64.EncodeIsPadded | utils/spotify/auth.py:18 | the output is alphabet characters followed by `=` padding that completes the last group |
| SpotifyAuth.Base64IsToken68 | utils/spotify/auth.py:18-22 | non-empty Base64 text is a `token68` (RFC 7235 section 2.1) |
| SpotifyAuth.BasicCredentials | utils/spotify/auth.py:16-22 | the header value starts with `Basic ` |
| SpotifyAuth.BasicCredentialsEncoding | utils/spotify/auth.py:16-22 | after `Basic ` comes padded Base64 of the UTF-8 of `id:secret`, a `token68` of the right length that decodes back |
| SpotifyAuth.CredentialBytes | utils/spotify/auth.py:16-17 | the UTF-8 of `id:secret` is the id, one colon byte, then the secret |
| SpotifyAuth.BasicCredentialsRecoverable | utils/spotify/auth.py:16-22 | a server that decodes the header and splits at the first colon recovers id and secret (RFC 7617 section 2), for an id without a colon |
| SpotifyAuth.GrantFormBody | utils/spotify/auth.py:25 | the form body is `grant_type=client_credentials` (RFC 6749 section 4.4.2) |
| SpotifyAuth.TokenRequestFor | utils/spotify/auth.py:20-27 | the POST goes to the accounts token URL, with exactly the Basic and form content-type headers and the grant body |
| SpotifyAuth.GetToken | utils/spotify/auth.py:27-31 | `get_token` returns `access_token` of the response; the collaborator's exception, KeyError or TypeError otherwise |
| SpotifyAuth.GetAuthHeader | utils/spotify/auth.py:44 | exactly one `Authorization` header, whose Bearer reading gives back the token |
| SpotifyAuth.GetAuthHeaderWellFormed | utils/spotify/auth.py:44 | the header is well-formed Bearer credentials (RFC 6750 section 2.1) exactly when the token is a `b64token` |
| Pagination.Then | utils/spotify/playlist_utils.py:52-64 | joining two parts of a walk: requests concatenate; tracks concatenate when the first part finished; a failure stops the walk |
| Pagination.ThenAssociative | utils/spotify/playlist_utils.py:52-64 | joining parts is associative |
| Pagination.ThenNothing | utils/spotify/playlist_utils.py:50 | the empty walk is a left and right identity |
| Pagination.Records | utils/spotify/playlist_utils.py:61 | each item's track goes through `get_track_info` with the loop's headers |
| Pagination.PlaylistItem | utils/spotify/playlist_utils.py:59-62 | the loop makes no request of its own for a playlist item, which yields the record of `item["track"]` exactly when both steps succeed |
| Pagination.AlbumItemShape | utils/spotify/album_utils.py:65-70 | for an album item the loop makes one track request of its own, for the track URL of the linked id; a failed link makes none; it yields at most one record |
| Pagination.Page | utils/spotify/playlist_utils.py:53 | a page's first request is its own URL |
| Pagination.WalkFirstRequest | utils/spotify/playlist_utils.py:49-53 | the first request of the walk is the starting URL |
| Pagination.WalkFuel | utils/spotify/playlist_utils.py:52 | once a walk has ended, a larger page bound gives the same walk |
| Pagination.StopsAtPageWithoutItems | utils/spotify/playlist_utils.py:56-57 | a page without `items` ends the walk with earlier tracks kept |
| Pagination.WalkEndsAtFalsyNext | utils/spotify/playlist_utils.py:64 | a falsy `next` ends the walk after that page |
| Pagination.PlaylistItemsNoRequests | utils/spotify/playlist_utils.py:59-62 | the loop makes no requests of its own for a playlist page's items |
| Pagination.FollowsNextCons | utils/spotify/playlist_utils.py:64 | putting a page in front of a chain of `next` links keeps the chain when its `next` is the next request |
| Pagination.PlaylistPageRequest | utils/spotify/playlist_utils.py:53 | the loop's own requests for a playlist page are exactly the page fetch |
| Pagination.PlaylistRequestsFollowNext | utils/spotify/playlist_utils.py:52-64 | on a playlist, each request after the first is the `next` of the page before it |
| Pagination.PlaylistItemsTracks | utils/spotify/playlist_utils.py:59-62 | items that all succeed give one record per item, in order |
| Pagination.AlbumItemFinished | utils/spotify/album_utils.py:68-70 | an album item that succeeds makes one track request of the loop's own, for the linked id, and gives one record: `get_track_info` of the track that request returned |
| Pagination.AlbumItemsTracks | utils/spotify/album_utils.py:65-70 | album items that all succeed give one track request of the loop's own per item, for the linked id, and one record per item, in order: `get_track_info` of the track that request returned |
| Pagination.ItemsCount | utils/spotify/album_utils.py:65-70 | a page's items yield at most one record each, and exactly one each when they all succeed |
| Pagination.PageTrackCount | utils/spotify/playlist_utils.py:59-62 | a page that ends normally has one record per item |
| Pagination.WalkTrackCount | utils/spotify/playlist_utils.py:52-66 | a walk that ends normally returns one record per item of the pages it visited |
| Pagination.ItemDone | utils/spotify/playlist_utils.py:59-62 | a page's run up to item `i + 1` is its run up to item `i` followed by item `i` |
| Pagination.ItemsKeepFailure | utils/spotify/playlist_utils.py:59-62 | after a failed item, later items change nothing |
| Pagination.PageFailsAtItem | utils/spotify/playlist_utils.py:59-62 | a failing item ends the page, keeping what was requested before |
| Pagination.PageSucceeds | utils/spotify/playlist_utils.py:64 | a page whose items all succeed passes on its `next` |
| Pagination.WalkStops | utils/spotify/playlist_utils.py:56-57 | a loop turn that stops contributes the page's run and nothing more |
| Pagination.WalkGoesOn | utils/spotify/playlist_utils.py:52-64 | a loop turn that goes on adds the page's requests and tracks and moves to `next` |
| PlaylistUtils.PlaylistUrl | utils/spotify/playlist_utils.py:32 | the URL is under `/v1/playlists/` and carries the id |
| PlaylistUtils.PlaylistTracksUrl | utils/spotify/playlist_utils.py:49 | the first page URL lies under `/v1/playlists/`, ends in `/tracks`, and without that suffix reads back the playlist's id |
| PlaylistUtils.GetPlaylistTitle | utils/spotify/playlist_utils.py:32-35 | the response's `name`, or the exception of the request or of the lookup |
| PlaylistUtils.ReadPlaylistPage | utils/spotify/playlist_utils.py:53-64 | the loop over a page's items computes that page's run and `next` |
| PlaylistUtils.WalkPlaylist | utils/spotify/playlist_utils.py:52-66 | the `while url:` loop computes the walk from the start URL |
| PlaylistUtils.GetPlaylistTracks | utils/spotify/playlist_utils.py:49-66 | `get_playlist_tracks` is the walk from `/playlists/<id>/tracks`, and requests that URL first |
| AlbumUtils.AlbumUrl | utils/spotify/album_utils.py:36 | the URL is under `/v1/albums/` and carries the id |
| AlbumUtils.AlbumTracksUrl | utils/spotify/album_utils.py:53 | the first page URL lies under `/v1/albums/`, ends in `/tracks`, and without that suffix reads back the album's id |
| AlbumUtils.GetAlbumTitle | utils/spotify/album_utils.py:36-39 | the response's `name`, or the exception of the request or of the lookup |
| AlbumUtils.ReadAlbumPage | utils/spotify/album_utils.py:57-72 | the loop over a page's items computes that page's run and `next`, with one track request of the loop's own per item |
| AlbumUtils.WalkAlbum | utils/spotify/album_utils.py:56-74 | the `while url:` loop computes the walk from the start URL |
| AlbumUtils.GetAlbumTracks | utils/spotify/album_utils.py:53-74 | `get_album_tracks` is the walk from `/albums/<id>/tracks`, and requests that URL first |
| MetadataUtils.Tag.SetImage | utils/metadata_utils.py:44 | setting a picture replaces the one with the same description and changes nothing else |
| MetadataUtils.Tag.Save | utils/metadata_utils.py:46 | saving records the fields as they are, and changes none |
| MetadataUtils.ReadInfoValues | utils/metadata_utils.py:27-34 | the lookups succeed exactly for a dict with all seven keys, and return its values unchanged |
| MetadataUtils.ReadInfoFailure | utils/metadata_utils.py:27-34 | TypeError for a non-dict; otherwise KeyError for the first missing key, in reading order |
| MetadataUtils.TrackNumberOfNumber | utils/metadata_utils.py:33-37 | a number is normalised to itself when non-negative, and to 0 otherwise |
| MetadataUtils.TrackNumberOfNumeral | utils/metadata_utils.py:33-37 | a decimal string is normalised to its value |
| MetadataUtils.DigitsValueLeadingZero | utils/metadata_utils.py:36 | a leading zero does not change `int()` of a digit string |
| MetadataUtils.TrackNumberLeadingZero | utils/metadata_utils.py:36 | a zero-padded digit string is normalised like the unpadded one |
| MetadataUtils.TrackNumberExamples | utils/metadata_utils.py:33-37 | `"Unknown"`, `""` and `None` give 0; `"-1"` gives 0; `"07"` gives 7 |
| MetadataUtils.AddMetadataToTrack | utils/metadata_utils.py:23-46 | a missing file or tag raises AssertionError. A failed lookup raises its exception without a save or a new picture. Otherwise the fields are copied verbatim with normalised track numbers; the cover is embedded iff the path is non-empty and exists; one save records exactly those fields |
| YoutubeUtils.SelectEntry | utils/youtube_utils.py:26-30 | a dict with a list `entries` gives its first entry, or IndexError when the list is empty; anything else, `None` included, comes back unchanged |
| YoutubeUtils.GetTrackFromYoutube | utils/youtube_utils.py:25-30 | the search's exception, or the selected entry of its result |
| YoutubeUtils.OutputFile | utils/youtube_utils.py:36 | the reported path ends in `.mp3` |
| YoutubeUtils.OutputFileReplacesExtension | utils/youtube_utils.py:36 | `stem.ext` is reported as `stem.mp3`; a `.mp3` path is reported unchanged |
| YoutubeUtils.DownloadTrack | utils/youtube_utils.py:50-67 | the retry loop's result and its calls are those of the attempt specification; success reports `splitext(path)[0] + ".mp3"` |
| YoutubeUtils.Retried | utils/youtube_utils.py:56-60 | `n` retried attempts are `n` downloads, each followed by a wait |
| YoutubeUtils.RetriesUntil | utils/youtube_utils.py:50-60 | DownloadErrors before attempt `k` are each retried after a wait, and lead on to attempt `k` |
| YoutubeUtils.SucceedsAt | utils/youtube_utils.py:50-55 | success on attempt `k` after `k` DownloadErrors returns at once, after `k + 1` calls and `k` waits |
| YoutubeUtils.ExhaustsRetries | utils/youtube_utils.py:58-65 | after `max_retries` DownloadErrors the last is raised; every attempt but the last is followed by a wait |
| YoutubeUtils.OtherErrorPropagates | utils/youtube_utils.py:56 | an exception other than DownloadError leaves on its first occurrence, with no wait |
| YoutubeUtils.NoAttempts | utils/youtube_utils.py:50 | with `max_retries <= 0` nothing is called and the loop reports success |
| YoutubeUtils.DownloadsAppend | utils/youtube_utils.py:53 | download calls add up over concatenated traces |
| YoutubeUtils.AttemptsBound | utils/youtube_utils.py:50-53 | the downloader is called at most `max_retries` times |
| YoutubeUtils.AddMetadataToTrack | utils/youtube_utils.py:73-91 | like the newer writer, but it stores the raw track-number pair and opens the cover unconditionally: TypeError for `None`, FileNotFoundError for a missing path, in both cases with no save |
| TrackProcessor.RequestedPath | utils/track_processor.py:42 | the requested download path ends in `.mp3` |
| TrackProcessor.ProcessTrack | utils/track_processor.py:25-64 | a missing `title`/`artists` raises before any call. Every later failure gives `None` and stops the calls. Search, download, cover and tagging happen in order, each only after the step before produced something. The cover is fetched only for a non-empty `cover_url`, always to `media/img/<title>.jpg`, and tagging always uses that path. Success returns the downloader's path |
| FileUtils.ZipArchive.Write | utils/file_utils.py:18-21 | writing appends exactly one entry |
| FileUtils.Mp3Files | utils/file_utils.py:16-17 | exactly the listed names ending in `.mp3` are kept |
| FileUtils.Mp3FilesAppend | utils/file_utils.py:16-17 | filtering distributes over concatenation, so listing order is kept |
| FileUtils.Mp3FilesExamples | utils/file_utils.py:17 | the filter is case-sensitive: `song.MP3` and `cover.jpg` are dropped, `a.mp3` is kept |
| FileUtils.AllMp3Kept | utils/file_utils.py:17 | a listing of `.mp3` names is kept whole |
| FileUtils.EntriesAt | utils/file_utils.py:18-21 | one entry per file: entry `i` pairs `join(directory, files[i])` with `join(basename(directory), files[i])` |
| FileUtils.EntriesSnoc | utils/file_utils.py:18-21 | entries follow the file order: one more file adds its entry at the end |
| FileUtils.CreateZipFile | utils/file_utils.py:15-21 | the new archive holds exactly the entries of the `.mp3` names, in listing order; an empty listing gives an empty archive |
| FileUtils.StoredNames | utils/file_utils.py:20 | a stored name is `<directory name>/<file>` |
| FileUtils.SendFileToUser | utils/file_utils.py:38-45 | `"audio"` sends audio, `"document"` sends a document, anything else raises ValueError with nothing sent |
| App.Remember | app.py:65-69 | recording a new id adds it, or clears the set, leaving at most 20 ids |
| App.RememberKeeps | app.py:65-69 | below the bound, a new id is kept and nothing is cleared |
| App.ClearForgets | app.py:68-69 | the id that takes a full set past 20 is forgotten along with all the others |
| App.ReplayBounded | app.py:22 | starting from the empty set, no sequence of deliveries leaves more than 20 ids |
| App.RedeliveryIsIgnored | app.py:60-62 | below the bound, an id just delivered is remembered, so an immediate redelivery is ignored |
| App.Webhook.Handle | app.py:57-73 | a missing `update_id` raises KeyError and an unhashable id TypeError. A known id returns ok, dispatches nothing and changes nothing. A new id is remembered and dispatched once. Every handled update returns `{"ok": True}`, and the bound of 20 is preserved |

## Left out

- HTTP, JSON decoding, yt-dlp, ffmpeg, eyed3, the file system and Telegram are collaborators. They are function parameters, or values such as the directory listing, a `Disk` map and the loaded `AudioFile`. Their own behaviour is not modelled.
- Python floats are not modelled: `JNum` holds integers.
- `str()` of a list or dict is written as `"[...]"` or `"{...}"`, because the `repr` of the elements (quoting and escaping) is not modelled.
- The request trace of the playlist and album walks (`Pagination.Run.requests`) holds only the loop's own page and track fetches. It leaves out the `/v1/artists/<id>` lookups that `get_track_info` makes through the same collaborator inside `get_genres` (utils/spotify/track_extractor.py:82-83). Those are stated by `TrackExtractor.GetGenres` instead.
- `str.isdigit` is restricted to ASCII digits. Characters that Python's `isdigit` accepts but `int()` rejects, such as `'²'`, are not modelled.
- Pagination.Walk: the source follows `next` without a bound, so it diverges on a cyclic chain of `next` links. The model carries a page bound, and the loop methods require that the walk ends within it.
- PlaylistUtils.WalkPlaylist and AlbumUtils.WalkAlbum: each takes the record builder as the abstract `Ctx.info`. `GetPlaylistTracks` and `GetAlbumTracks` set it to `get_track_info`.
- The `result.json` dump in the album loop (utils/spotify/album_utils.py:59-60) is a debugging write. It has no effect on the result and is not modelled.
- SpotifyAuth.FormBody: it serialises the form only for names and values that need no percent-encoding, which covers the one grant field sent.
- SpotifyAuth.IsBearerCredentials: it uses the single space the header has, where RFC 6750 allows several.
- TrackUtils.Assemble: Python evaluates the extractors in order, and the model reports the first exception. The model computes every extractor result, which yields the same value because the extractors have no side effects.
- The `requests.get` inside the extractors is a collaborator. This covers utils/spotify/image_utils.py and `download_cover_image` in utils/spotify_utils.py, which are not modelled themselves.
- `asyncio.sleep` is recorded as an event carrying its argument. No time passes and there is no concurrency.
- `search_youtube` is imported by utils/track_processor.py, but utils/youtube_utils.py does not define it. The model treats it as a collaborator.
- utils/track_processor.py:43 calls the `async` `download_track` without `await`. The model treats the downloader as a synchronous collaborator that returns the path.
- MetadataUtils.AddMetadataToTrack: eyed3's conversion of `release_date` into a date object and of the genre text into a genre is not modelled. Fields hold the values they are given.
- The tag's fields as they stood in memory after a failed lookup are not stated, only that nothing was saved, because the tag is discarded with the exception. The same applies to YoutubeUtils.AddMetadataToTrack.
- App.Webhook.Handle: Python treats `1`, `True` and `1.0` as one set element; the model keeps them distinct. Validation errors from `types.Update(**update)` and errors from the dispatcher are not modelled.
- The webhook lifespan, `uvicorn.run` and the ngrok URL lookup in app.py are start-up plumbing and are left out.
- The ZIP byte format and image bytes are not modelled beyond the entries and the picture data.
- `send_file_to_user` is modelled as the message it would send. The network send itself is left out.

## Findings

| source | as written | input that shows it | evidently intended | confidence | as-written member | corrected member |
|---|---|---|---|---|---|---|
| utils/spotify_utils.py:102 | `get_genres(json_result, headers)` calls the one-argument `get_genres` of utils/spotify_track_extractor.py:57, so `get_track_info` raises TypeError on every input where the first four extractors succeed | `{"name": "Song"}` with any headers | call `get_genres(json_result)` and return the eight-key record | not executed | SpotifyUtils.GetTrackInfoAsWritten, SpotifyUtils.AsWrittenCounterexample | SpotifyUtils.GetTrackInfo |
