// The identifier a Spotify share URL carries: `url.split("/")[-1].split("?")[0]`,
// the expression behind `get_track_id_by_url`, `get_playlist_id_by_url` and
// `get_album_id_by_url`.

module UrlId {
  import opened Strings

  /** `url.split("/")[-1].split("?")[0]`. */
  function IdByUrl(url: string): string {
    var segments := Split(url, '/');
    Split(segments[|segments| - 1], '?')[0]
  }

  /** Independent description of the identifier: the last path segment, cut at its
      first `?`. The segment is everything after the final `/`, and the identifier
      is the part of it before any query, so it holds neither `/` nor `?`. */
  lemma IdByUrlIsQueryFreeLastSegment(url: string)
    ensures var segment := AfterLast(url, '/');
            IdByUrl(url) == Before(segment, '?')
    ensures '/' !in IdByUrl(url) && '?' !in IdByUrl(url)
  {
    SplitLast(url, '/');
    var segment := AfterLast(url, '/');
    SplitFirst(segment, '?');
    var id := Before(segment, '?');
    assert '/' !in id by {
      forall i | 0 <= i < |id| ensures id[i] != '/' {
        assert id[i] == segment[i];
      }
    }
  }

  /** Extracting the identifier from an identifier gives it back. */
  lemma IdByUrlIdempotent(url: string)
    ensures IdByUrl(IdByUrl(url)) == IdByUrl(url)
  {
    var id := IdByUrl(url);
    IdByUrlIsQueryFreeLastSegment(url);
    SplitWithoutSeparator(id, '/');
    SplitWithoutSeparator(id, '?');
  }

  /** A string with neither `/` nor `?` is its own identifier. */
  lemma IdByUrlOfPlainId(id: string)
    requires '/' !in id && '?' !in id
    ensures IdByUrl(id) == id
  {
    SplitWithoutSeparator(id, '/');
    SplitWithoutSeparator(id, '?');
  }

  /** A query string (one without `/`) appended to the URL does not change the identifier. */
  lemma {:induction false} IdByUrlIgnoresQuery(url: string, query: string)
    requires '/' !in query
    ensures IdByUrl(url + "?" + query) == IdByUrl(url)
  {
    var q := "?" + query;
    assert url + "?" + query == url + q;
    assert '/' !in q by {
      assert forall x :: x in q ==> x == '?' || x in query;
    }
    AfterLastAppend(url, q, '/');
    IdByUrlIsQueryFreeLastSegment(url);
    IdByUrlIsQueryFreeLastSegment(url + q);
    var segment := AfterLast(url, '/');
    BeforeAppend(segment, q, '?');
    assert Before(q, '?') == "";
  }

  /** A URL that ends in `/` followed by a plain identifier yields that identifier. */
  lemma IdByUrlAfterSlash(prefix: string, id: string)
    requires '/' !in id && '?' !in id
    ensures IdByUrl(prefix + "/" + id) == id
  {
    var p := prefix + "/";
    assert prefix + "/" + id == p + id;
    AfterLastAppend(p, id, '/');
    AfterLastOfTrailingSeparator(prefix, '/');
    assert "" + id == id;
    IdByUrlIsQueryFreeLastSegment(p + id);
    BeforeAppend(id, "", '?');
    assert id + "" == id;
    assert Before("", '?') == "";
  }

  /** The share-link example: `https://open.spotify.com/track/abc123?si=xyz` yields `abc123`. */
  lemma ShareLinkExample()
    ensures IdByUrl("https://open.spotify.com/track/abc123?si=xyz") == "abc123"
  {
    var base := "https://open.spotify.com/track";
    assert "https://open.spotify.com/track/abc123?si=xyz" == base + "/" + "abc123" + "?" + "si=xyz";
    IdByUrlIgnoresQuery(base + "/" + "abc123", "si=xyz");
    IdByUrlAfterSlash(base, "abc123");
  }

  /** The id read back from `prefix/id` is the id of `id`: whatever `prefix` is,
      the part after the last `/` starts inside `id` or at its first character. */
  lemma IdByUrlUnderPrefix(prefix: string, id: string)
    ensures IdByUrl(prefix + "/" + id) == IdByUrl(id)
  {
    var p := prefix + "/";
    assert prefix + "/" + id == p + id;
    IdByUrlIsQueryFreeLastSegment(id);
    IdByUrlIsQueryFreeLastSegment(p + id);
    if '/' in id {
      AfterLastSplit(p, id);
    } else {
      AfterLastAppend(p, id, '/');
      AfterLastOfTrailingSeparator(prefix, '/');
      assert AfterLast(id, '/') == id by {
        AfterLastAppend([], id, '/');
        assert [] + id == id;
      }
      assert "" + id == id;
    }
  }

  /** A `/` in the appended text hides everything before it. */
  lemma {:induction false} AfterLastSplit(p: string, s: string)
    requires '/' in s
    ensures AfterLast(p + s, '/') == AfterLast(s, '/')
    decreases |p|
  {
    if |p| > 0 {
      assert (p + s)[1..] == p[1..] + s;
      assert '/' in (p + s)[1..] by {
        var i :| 0 <= i < |s| && s[i] == '/';
        assert (p + s)[|p| + i] == '/';
      }
      AfterLastSplit(p[1..], s);
    } else {
      assert p + s == s;
    }
  }
}
