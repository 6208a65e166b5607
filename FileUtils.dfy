// Packing downloaded tracks into a ZIP archive and choosing how to send a file
// to the user (utils/file_utils.py). The directory listing is an input, the
// archive is an object whose entries are written one by one, and the Telegram
// send is left as the message to send.

module FileUtils {
  import opened Wrappers
  import opened Strings
  import opened Py
  import PyPath

  /** A ZIP archive opened with mode `"w"`: each entry records the path it was
      read from and the name it is stored under, in the order written. */
  class ZipArchive {
    var entries: seq<(string, string)>

    /** `zipfile.ZipFile(zip_path, "w")`: whatever was at `zip_path` is replaced. */
    constructor ()
      ensures entries == []
    {
      entries := [];
    }

    /** `zipf.write(filename, arcname)`. */
    method Write(filename: string, arcname: string)
      modifies this
      ensures entries == old(entries) + [(filename, arcname)]
    {
      entries := entries + [(filename, arcname)];
    }
  }

  /** The names in `listing` that end in `.mp3` (case-sensitively), in listing order. */
  function Mp3Files(listing: seq<string>): (files: seq<string>)
    ensures |files| <= |listing|
    ensures forall f :: f in files <==> f in listing && EndsWith(f, ".mp3")
    decreases |listing|
  {
    if listing == [] then []
    else
      var last := listing[|listing| - 1];
      var init := Mp3Files(listing[..|listing| - 1]);
      assert listing == listing[..|listing| - 1] + [last];
      if EndsWith(last, ".mp3") then init + [last] else init
  }

  /** Filtering a listing in two parts filters each part, so the order of the
      listing is kept. */
  lemma {:induction false} Mp3FilesAppend(a: seq<string>, b: seq<string>)
    ensures Mp3Files(a + b) == Mp3Files(a) + Mp3Files(b)
    decreases |b|
  {
    if b == [] {
      assert a + b == a;
    } else {
      var init := b[..|b| - 1];
      var last := b[|b| - 1];
      assert (a + b)[..|a + b| - 1] == a + init;
      Mp3FilesAppend(a, init);
    }
  }

  /** The filter is case-sensitive and looks only at the ending: `song.MP3`
      and `cover.jpg` are dropped, `a.mp3` is kept. */
  lemma Mp3FilesExamples()
    ensures Mp3Files(["song.MP3"]) == []
    ensures Mp3Files(["cover.jpg", "a.mp3"]) == ["a.mp3"]
  {
    var upper := "song.MP3";
    assert upper[|upper| - 4..][1] == 'M';
    var jpg := "cover.jpg";
    assert jpg[|jpg| - 4..][1] == 'j';
    var mp3 := "a.mp3";
    assert mp3[|mp3| - 4..] == ".mp3";
    assert [jpg, mp3][..1] == [jpg];
    var none: seq<string> := [];
    assert [jpg][..0] == none;
    assert [upper][..0] == none;
  }

  /** Names that all end in `.mp3` are all kept. */
  lemma {:induction false} AllMp3Kept(files: seq<string>)
    requires forall i :: 0 <= i < |files| ==> EndsWith(files[i], ".mp3")
    ensures Mp3Files(files) == files
    decreases |files|
  {
    if files != [] {
      AllMp3Kept(files[..|files| - 1]);
    }
  }

  /** The entry for `file`: read from `join(directory, file)`, stored as
      `join(basename(directory), file)`. */
  function Entry(directory: string, file: string): (string, string) {
    (PyPath.Join(directory, file), PyPath.Join(PyPath.Basename(directory), file))
  }

  /** `[entry(f) for f in files]`. */
  function MapFiles(entry: string -> (string, string), files: seq<string>): (entries: seq<(string, string)>)
    ensures |entries| == |files|
    decreases |files|
  {
    if files == [] then [] else MapFiles(entry, files[..|files| - 1]) + [entry(files[|files| - 1])]
  }

  /** Entry `i` is the one for the `i`-th file. */
  lemma {:induction false} MapFilesAt(entry: string -> (string, string), files: seq<string>, i: nat)
    requires i < |files|
    ensures MapFiles(entry, files)[i] == entry(files[i])
    decreases |files|
  {
    if i < |files| - 1 {
      MapFilesAt(entry, files[..|files| - 1], i);
    }
  }

  /** The entries of `files` in `directory`, in order. */
  function Entries(directory: string, files: seq<string>): seq<(string, string)> {
    MapFiles(f => Entry(directory, f), files)
  }

  /** One more file adds its entry at the end. */
  lemma EntriesSnoc(directory: string, files: seq<string>, file: string)
    ensures Entries(directory, files + [file]) == Entries(directory, files) + [Entry(directory, file)]
  {
    assert (files + [file])[..|files|] == files;
  }

  /** One entry per file: entry `i` pairs `join(directory, files[i])` with
      `join(basename(directory), files[i])`. */
  lemma EntriesAt(directory: string, files: seq<string>, i: nat)
    requires i < |files|
    ensures |Entries(directory, files)| == |files|
    ensures Entries(directory, files)[i] == Entry(directory, files[i])
  {
    MapFilesAt(f => Entry(directory, f), files, i);
  }

  /** `create_zip_file(directory, zip_path)` where `listing` is `os.listdir(directory)`:
      the archive holds one entry per `.mp3` name of the listing, in listing
      order, and nothing else. */
  method CreateZipFile(directory: string, listing: seq<string>) returns (zipf: ZipArchive)
    ensures fresh(zipf)
    ensures zipf.entries == Entries(directory, Mp3Files(listing))
  {
    zipf := new ZipArchive();
    for i := 0 to |listing|
      invariant zipf.entries == Entries(directory, Mp3Files(listing[..i]))
    {
      var file := listing[i];
      assert listing[..i + 1][..i] == listing[..i];
      if EndsWith(file, ".mp3") {
        zipf.Write(PyPath.Join(directory, file), PyPath.Join(PyPath.Basename(directory), file));
        EntriesSnoc(directory, Mp3Files(listing[..i]), file);
      }
    }
    assert listing[..|listing|] == listing;
  }

  /** The stored names sit under the directory's own name: a stored name ends in
      the listed name, and with a directory name `d`, starts with `d/`. */
  lemma StoredNames(directory: string, file: string)
    requires !StartsWith(file, "/")
    requires PyPath.Basename(directory) != ""
    ensures var arcname := Entry(directory, file).1;
            EndsWith(arcname, file) && StartsWith(arcname, PyPath.Basename(directory) + "/")
  {
    var d := PyPath.Basename(directory);
    PyPath.JoinEnds(d, file);
    assert '/' !in d;
    assert !EndsWith(d, "/") by {
      assert d[|d| - 1] in d;
    }
    assert Entry(directory, file).1 == d + "/" + file;
  }

  /** A message `send_file_to_user` sends. */
  datatype Outgoing = Audio(path: string) | Document(path: string)

  /** `send_file_to_user(message, file_path, file_type)`: the message it sends, or
      ValueError (and no message) for a type other than `"audio"` and `"document"`. */
  function SendFileToUser(filePath: string, fileType: string): (r: Result<Outgoing>)
    ensures r == Ok(Audio(filePath)) <==> fileType == "audio"
    ensures r == Ok(Document(filePath)) <==> fileType == "document"
    ensures r.Err? <==> fileType != "audio" && fileType != "document"
    ensures r.Err? ==> r.exc == ValueError
  {
    if fileType == "audio" then Ok(Audio(filePath))
    else if fileType == "document" then Ok(Document(filePath))
    else Err(ValueError)
  }
}
