// The page walk shared by `get_playlist_tracks` (utils/spotify/playlist_utils.py)
// and `get_album_tracks` (utils/spotify/album_utils.py): fetch the page at
// `url`, stop at a page without `items`, turn every item into a track record,
// then follow the page's `next` until it is falsy.
//
// The source follows `next` with no bound and so diverges on a cyclic chain;
// here the walk carries a fuel bound, and `Unfinished` says the bound ran out.

module Pagination {
  import opened Wrappers
  import opened Strings
  import opened Py
  import opened UrlId
  import TrackUtils

  datatype Outcome = Finished(tracks: seq<JValue>) | Failed(exc: Exc) | Unfinished

  /** What a (part of a) walk did: the URLs the loop itself requested, in order
      (the page fetches and, on albums, the track fetches; the artist lookups
      made inside `get_track_info` are not recorded), and how it ended. */
  datatype Run = Run(requests: seq<string>, outcome: Outcome)

  const Nothing: Run := Run([], Finished([]))

  /** `a` followed by `b`, unless `a` already raised or ran out of fuel. */
  function Then(a: Run, b: Run): (r: Run)
    ensures !a.outcome.Finished? ==> r == a
    ensures a.outcome.Finished? ==> r.requests == a.requests + b.requests
    ensures a.outcome.Finished? && b.outcome.Finished? ==> r.outcome == Finished(a.outcome.tracks + b.outcome.tracks)
    ensures a.outcome.Finished? && !b.outcome.Finished? ==> r.outcome == b.outcome
  {
    if !a.outcome.Finished? then a
    else
      Run(a.requests + b.requests,
          if b.outcome.Finished? then Finished(a.outcome.tracks + b.outcome.tracks) else b.outcome)
  }

  lemma ThenAssociative(a: Run, b: Run, c: Run)
    ensures Then(Then(a, b), c) == Then(a, Then(b, c))
  {
    if a.outcome.Finished? && b.outcome.Finished? {
      assert a.requests + b.requests + c.requests == a.requests + (b.requests + c.requests);
      if c.outcome.Finished? {
        assert a.outcome.tracks + b.outcome.tracks + c.outcome.tracks ==
               a.outcome.tracks + (b.outcome.tracks + c.outcome.tracks);
      }
    }
  }

  lemma ThenNothing(a: Run)
    ensures Then(a, Nothing) == a && Then(Nothing, a) == a
  {
    assert a.requests + [] == a.requests && [] + a.requests == a.requests;
    if a.outcome.Finished? {
      assert a.outcome.tracks + [] == a.outcome.tracks;
    }
  }

  /** What the walk works with: the request headers, the HTTP collaborator, and
      the record builder applied to each track (`get_track_info` with the same
      headers and collaborator, for both loops). */
  datatype Ctx = Ctx(headers: Headers, get: HttpGet, info: JValue -> Result<JValue>)

  /** The context both loops run in: every item's track goes through
      `get_track_info` with the loop's own headers and collaborator. */
  function Records(headers: Headers, get: HttpGet): (c: Ctx)
    ensures c.headers == headers && c.get == get
    ensures forall t :: c.info(t) == TrackUtils.GetTrackInfo(headers, t, get)
  {
    Ctx(headers, get, t => TrackUtils.GetTrackInfo(headers, t, get))
  }

  /** Which of the two loops: they differ in what they do with each item. */
  datatype Source = Playlist | Album

  /** A playlist item: `get_track_info(headers, item["track"])` (`c.info`); the
      loop itself makes no request for it. */
  function PlaylistItem(c: Ctx, item: JValue): (r: Run)
    ensures r.requests == []
    ensures r.outcome.Finished? <==> Subscript(item, "track").Ok? && c.info(Subscript(item, "track").value).Ok?
    ensures r.outcome.Finished? ==> r.outcome.tracks == [c.info(Subscript(item, "track").value).value]
  {
    match Subscript(item, "track")
    case Err(e) => Run([], Failed(e))
    case Ok(track) =>
      match c.info(track)
      case Err(e) => Run([], Failed(e))
      case Ok(info) => Run([], Finished([info]))
  }

  /** The track id an album item links to: `item["external_urls"]["spotify"]`
      put through `get_track_id_by_url`, which needs a string. */
  function AlbumItemId(item: JValue): Result<string> {
    var urls :- Subscript(item, "external_urls");
    var link :- Subscript(urls, "spotify");
    if link.JStr? then Ok(IdByUrl(link.s)) else Err(AttributeError)
  }

  /** An album item: the loop's `get_track` request for the linked id, then
      `get_track_info` on the full track it returns. */
  function AlbumItem(c: Ctx, item: JValue): Run {
    match AlbumItemId(item)
    case Err(e) => Run([], Failed(e))
    case Ok(trackId) =>
      var url := TrackUtils.TrackUrl(trackId);
      match c.get(c.headers, url)
      case Err(e) => Run([url], Failed(e))
      case Ok(track) =>
        match c.info(track)
        case Err(e) => Run([url], Failed(e))
        case Ok(info) => Run([url], Finished([info]))
  }

  /** For an album item that links to a string the loop makes exactly one
      request of its own, for that track; any other item makes none and raises. */
  lemma AlbumItemShape(c: Ctx, item: JValue)
    ensures AlbumItemId(item).Err? ==> AlbumItem(c, item) == Run([], Failed(AlbumItemId(item).exc))
    ensures AlbumItemId(item).Ok? ==> AlbumItem(c, item).requests == [TrackUtils.TrackUrl(AlbumItemId(item).value)]
    ensures AlbumItem(c, item).outcome.Finished? ==> |AlbumItem(c, item).outcome.tracks| == 1
  {
  }

  function Item(src: Source, c: Ctx, item: JValue): Run {
    match src
    case Playlist => PlaylistItem(c, item)
    case Album => AlbumItem(c, item)
  }

  /** The items of one page, in order; the first failing item ends the page. */
  function Items(src: Source, c: Ctx, items: seq<JValue>): Run
    decreases |items|
  {
    if |items| == 0 then Nothing
    else Then(Items(src, c, items[..|items| - 1]), Item(src, c, items[|items| - 1]))
  }

  /** One page: the run of the page request and its items, and the `next`
      value to follow when the page had items and all of them succeeded. */
  datatype PageStep = PageStep(run: Run, next: Option<JValue>)

  /** The items of a fetched page, when it has them. */
  function PageItems(page: JValue): Result<Option<seq<JValue>>> {
    var has :- Contains(page, "items");
    if !has then Ok(None)
    else
      var items :- Subscript(page, "items");
      var elems :- Iterate(items);
      Ok(Some(elems))
  }

  lemma PageItemsOfObject(page: JValue)
    requires PageItems(page).Ok? && PageItems(page).value.Some?
    ensures page.JObj?
  {
  }

  function Page(src: Source, c: Ctx, url: string): (p: PageStep)
    ensures |p.run.requests| >= 1 && p.run.requests[0] == url
  {
    match c.get(c.headers, url)
    case Err(e) => PageStep(Run([url], Failed(e)), None)
    case Ok(page) =>
      match PageItems(page)
      case Err(e) => PageStep(Run([url], Failed(e)), None)
      case Ok(None) => PageStep(Run([url], Finished([])), None)
      case Ok(Some(items)) =>
        var r := Then(Run([url], Finished([])), Items(src, c, items));
        if !r.outcome.Finished? then PageStep(r, None)
        else
          PageItemsOfObject(page);
          PageStep(r, Some(Get(page, "next", JNull).value))
  }

  /** The page step at each URL. */
  function Pages(src: Source, c: Ctx): string -> PageStep {
    u => Page(src, c, u)
  }

  /** The walk from `url` when the page at `u` does `step(u)`, with at most
      `fuel` pages: the `while url:` loop, for any page function. */
  function WalkOf(step: string -> PageStep, url: JValue, fuel: nat): Run
    decreases fuel
  {
    if !Truthy(url) then Nothing
    else if fuel == 0 then Run([], Unfinished)
    else
      var p := step(Str(url));
      if p.next.None? then p.run else Then(p.run, WalkOf(step, p.next.value, fuel - 1))
  }

  /** The whole walk from `url`, with at most `fuel` pages. */
  function Walk(src: Source, c: Ctx, url: JValue, fuel: nat): Run {
    WalkOf(Pages(src, c), url, fuel)
  }

  // ---- Properties of the walk ----

  /** The first request of a walk from a truthy URL is that URL. */
  lemma WalkFirstRequest(src: Source, c: Ctx, url: JValue, fuel: nat)
    requires Truthy(url) && fuel > 0
    ensures var w := Walk(src, c, url, fuel);
            |w.requests| >= 1 && w.requests[0] == Str(url)
  {
  }

  /** More fuel changes nothing once the walk has ended, whatever the pages do. */
  lemma {:induction false} WalkOfFuel(step: string -> PageStep, url: JValue, fuel: nat, more: nat)
    requires fuel <= more
    requires WalkOf(step, url, fuel).outcome != Unfinished
    ensures WalkOf(step, url, more) == WalkOf(step, url, fuel)
    decreases fuel
  {
    if Truthy(url) && fuel > 0 {
      var p := step(Str(url));
      if p.next.Some? && p.run.outcome.Finished? {
        WalkOfFuel(step, p.next.value, fuel - 1, more - 1);
      }
    }
  }

  /** More fuel changes nothing once the walk has ended. */
  lemma WalkFuel(src: Source, c: Ctx, url: JValue, fuel: nat, more: nat)
    requires fuel <= more
    requires Walk(src, c, url, fuel).outcome != Unfinished
    ensures Walk(src, c, url, more) == Walk(src, c, url, fuel)
  {
    WalkOfFuel(Pages(src, c), url, fuel, more);
  }

  /** A page without `items` ends the walk: the tracks of earlier pages are
      kept and that page's `next` is not followed. */
  lemma StopsAtPageWithoutItems(src: Source, c: Ctx, url: JValue, fuel: nat)
    requires Truthy(url) && fuel >= 2
    requires var p := Page(src, c, Str(url));
             p.next.Some? && Truthy(p.next.value) &&
             c.get(c.headers, Str(p.next.value)).Ok? && PageItems(c.get(c.headers, Str(p.next.value)).value) == Ok(None)
    ensures var p := Page(src, c, Str(url));
            Walk(src, c, url, fuel) == Run(p.run.requests + [Str(p.next.value)], p.run.outcome)
  {
    var p := Page(src, c, Str(url));
    var next := p.next.value;
    var q := Page(src, c, Str(next));
    assert q == PageStep(Run([Str(next)], Finished([])), None);
    assert WalkOf(Pages(src, c), next, fuel - 1) == q.run;
    assert Walk(src, c, url, fuel) == Then(p.run, q.run);
  }

  /** The walk ends with the tracks of every page exactly when it runs out of
      `next` links without an error. */
  lemma WalkEndsAtFalsyNext(src: Source, c: Ctx, url: JValue, fuel: nat)
    requires Truthy(url) && fuel >= 1
    requires var p := Page(src, c, Str(url)); p.next.Some? && !Truthy(p.next.value)
    ensures Walk(src, c, url, fuel) == Page(src, c, Str(url)).run
  {
    var p := Page(src, c, Str(url));
    assert WalkOf(Pages(src, c), p.next.value, fuel - 1) == Nothing;
    assert Walk(src, c, url, fuel) == Then(p.run, Nothing);
    ThenNothing(p.run);
  }

  /** The loop makes no request of its own for playlist items. */
  lemma {:induction false} PlaylistItemsNoRequests(c: Ctx, items: seq<JValue>)
    ensures Items(Playlist, c, items).requests == []
    decreases |items|
  {
    if |items| > 0 {
      PlaylistItemsNoRequests(c, items[..|items| - 1]);
    }
  }

  /** Each request after the first is the `next` link of the page fetched before it. */
  predicate FollowsNext(src: Source, c: Ctx, requests: seq<string>) {
    forall i :: 0 <= i < |requests| - 1 ==>
      var p := Page(src, c, requests[i]);
      p.next.Some? && Str(p.next.value) == requests[i + 1]
  }

  lemma FollowsNextCons(src: Source, c: Ctx, u: string, rest: seq<string>)
    requires FollowsNext(src, c, rest)
    requires |rest| > 0 ==> Page(src, c, u).next.Some? && Str(Page(src, c, u).next.value) == rest[0]
    ensures FollowsNext(src, c, [u] + rest)
  {
    var w := [u] + rest;
    forall i | 0 <= i < |w| - 1
      ensures Page(src, c, w[i]).next.Some? && Str(Page(src, c, w[i]).next.value) == w[i + 1]
    {
      if i > 0 {
        assert w[i] == rest[i - 1] && w[i + 1] == rest[i];
      }
    }
  }

  /** The loop makes exactly one request of its own per playlist page: the page. */
  lemma PlaylistPageRequest(c: Ctx, u: string)
    ensures Page(Playlist, c, u).run.requests == [u]
  {
    match c.get(c.headers, u)
    case Err(_) =>
    case Ok(page) =>
      if PageItems(page).Ok? && PageItems(page).value.Some? {
        PlaylistItemsNoRequests(c, PageItems(page).value.value);
      }
  }

  /** On a playlist, the loop makes one request of its own per page, and each
      request after the first is the `next` of the page before it. */
  lemma {:induction false} PlaylistRequestsFollowNext(c: Ctx, url: JValue, fuel: nat)
    ensures FollowsNext(Playlist, c, Walk(Playlist, c, url, fuel).requests)
    decreases fuel
  {
    if Truthy(url) && fuel > 0 {
      var u := Str(url);
      var p := Page(Playlist, c, u);
      PlaylistPageRequest(c, u);
      if p.next.Some? {
        var rest := Walk(Playlist, c, p.next.value, fuel - 1);
        PlaylistRequestsFollowNext(c, p.next.value, fuel - 1);
        if Truthy(p.next.value) && fuel - 1 > 0 {
          WalkFirstRequest(Playlist, c, p.next.value, fuel - 1);
        }
        FollowsNextCons(Playlist, c, u, rest.requests);
      } else {
        FollowsNextCons(Playlist, c, u, []);
      }
    }
  }

  /** A playlist page's items that all succeed give one record per item, in
      order: `get_track_info` of that item's `track`. */
  lemma {:induction false} PlaylistItemsTracks(c: Ctx, items: seq<JValue>)
    ensures var r := Items(Playlist, c, items);
            r.outcome.Finished? ==>
              |r.outcome.tracks| == |items| &&
              forall i :: 0 <= i < |items| ==>
                Subscript(items[i], "track").Ok? && c.info(Subscript(items[i], "track").value).Ok? &&
                r.outcome.tracks[i] == c.info(Subscript(items[i], "track").value).value
    decreases |items|
  {
    if |items| > 0 {
      var init := items[..|items| - 1];
      PlaylistItemsTracks(c, init);
      var r := Items(Playlist, c, items);
      if r.outcome.Finished? {
        var a := Items(Playlist, c, init);
        assert a.outcome.Finished?;
        forall i | 0 <= i < |items| - 1 ensures items[i] == init[i] {
        }
      }
    }
  }

  /** Album item `item` was handled without failure: the loop requested `url`,
      the track URL of the id it links to, and `record` is `get_track_info` of
      the track that request returned. */
  predicate AlbumItemDone(c: Ctx, item: JValue, url: string, record: JValue) {
    AlbumItemId(item).Ok? && url == TrackUtils.TrackUrl(AlbumItemId(item).value) &&
    c.get(c.headers, url).Ok? && c.info(c.get(c.headers, url).value).Ok? &&
    record == c.info(c.get(c.headers, url).value).value
  }

  /** An album item that succeeds makes one request and one record, as AlbumItemDone says. */
  lemma AlbumItemFinished(c: Ctx, item: JValue)
    ensures var r := AlbumItem(c, item);
            r.outcome.Finished? ==>
              |r.requests| == 1 && |r.outcome.tracks| == 1 && AlbumItemDone(c, item, r.requests[0], r.outcome.tracks[0])
  {
  }

  /** An album page's items that all succeed give one record and one track
      request of the loop's own per item, in order: the request is for the id
      the item links to, and the record is `get_track_info` of the track it
      fetched. */
  lemma {:induction false} AlbumItemsTracks(c: Ctx, items: seq<JValue>)
    ensures var r := Items(Album, c, items);
            r.outcome.Finished? ==>
              |r.outcome.tracks| == |items| && |r.requests| == |items| &&
              forall i :: 0 <= i < |items| ==> AlbumItemDone(c, items[i], r.requests[i], r.outcome.tracks[i])
    decreases |items|
  {
    if |items| > 0 {
      var init := items[..|items| - 1];
      var last := items[|items| - 1];
      AlbumItemsTracks(c, init);
      AlbumItemFinished(c, last);
      var r := Items(Album, c, items);
      if r.outcome.Finished? {
        var a := Items(Album, c, init);
        var e := AlbumItem(c, last);
        assert r == Then(a, e);
        assert a.outcome.Finished? && e.outcome.Finished?;
        assert r.requests == a.requests + e.requests;
        assert r.outcome.tracks == a.outcome.tracks + e.outcome.tracks;
        forall i | 0 <= i < |items|
          ensures AlbumItemDone(c, items[i], r.requests[i], r.outcome.tracks[i])
        {
          if i < |items| - 1 {
            assert items[i] == init[i];
            assert r.requests[i] == a.requests[i] && r.outcome.tracks[i] == a.outcome.tracks[i];
          } else {
            assert r.requests[i] == e.requests[0] && r.outcome.tracks[i] == e.outcome.tracks[0];
          }
        }
      }
    }
  }

  /** The number of items on the page at `u`: none when it cannot be fetched or has no `items`. */
  function PageSize(c: Ctx, u: string): nat {
    match c.get(c.headers, u)
    case Ok(page) => (match PageItems(page) case Ok(Some(items)) => |items| case _ => 0)
    case _ => 0
  }

  /** The sum of `size(u)` over the pages `u` a walk visits. */
  function VisitedOf(step: string -> PageStep, size: string -> nat, url: JValue, fuel: nat): nat
    decreases fuel
  {
    if !Truthy(url) || fuel == 0 then 0
    else
      var p := step(Str(url));
      if p.next.None? then size(Str(url)) else size(Str(url)) + VisitedOf(step, size, p.next.value, fuel - 1)
  }

  /** The number of items on the pages a walk visits. */
  function ItemsVisited(src: Source, c: Ctx, url: JValue, fuel: nat): nat {
    VisitedOf(Pages(src, c), u => PageSize(c, u), url, fuel)
  }

  /** Each item yields at most one record, so the page's run has as many tracks as items. */
  lemma {:induction false} ItemsCount(src: Source, c: Ctx, items: seq<JValue>)
    ensures var r := Items(src, c, items);
            r.outcome.Finished? ==> |r.outcome.tracks| == |items|
    decreases |items|
  {
    if |items| > 0 {
      ItemsCount(src, c, items[..|items| - 1]);
      var last := items[|items| - 1];
      if src == Album {
        AlbumItemShape(c, last);
      }
    }
  }

  /** A page that ends normally has one record per item. */
  lemma PageTrackCount(src: Source, c: Ctx, u: string)
    ensures var p := Page(src, c, u);
            p.run.outcome.Finished? ==> |p.run.outcome.tracks| == PageSize(c, u)
  {
    match c.get(c.headers, u)
    case Err(_) =>
    case Ok(page) =>
      if PageItems(page).Ok? && PageItems(page).value.Some? {
        ItemsCount(src, c, PageItems(page).value.value);
      }
  }

  /** When every page that ends normally yields `size` records, a walk that
      ends normally yields the sum of `size` over the pages it visited. */
  lemma {:induction false} WalkOfTrackCount(step: string -> PageStep, size: string -> nat, url: JValue, fuel: nat)
    requires forall u :: step(u).run.outcome.Finished? ==> |step(u).run.outcome.tracks| == size(u)
    ensures var w := WalkOf(step, url, fuel);
            w.outcome.Finished? ==> |w.outcome.tracks| == VisitedOf(step, size, url, fuel)
    decreases fuel
  {
    if Truthy(url) && fuel > 0 {
      var p := step(Str(url));
      if p.next.Some? {
        WalkOfTrackCount(step, size, p.next.value, fuel - 1);
      }
    }
  }

  /** A walk that ends normally returns one record per item over the pages it visited. */
  lemma WalkTrackCount(src: Source, c: Ctx, url: JValue, fuel: nat)
    ensures var w := Walk(src, c, url, fuel);
            w.outcome.Finished? ==> |w.outcome.tracks| == ItemsVisited(src, c, url, fuel)
  {
    forall u: string
      ensures Page(src, c, u).run.outcome.Finished? ==> |Page(src, c, u).run.outcome.tracks| == PageSize(c, u)
    {
      PageTrackCount(src, c, u);
    }
    WalkOfTrackCount(Pages(src, c), u => PageSize(c, u), url, fuel);
  }

  // ---- Steps of the loops that walk the pages ----

  /** The run of a page up to item `i + 1` is its run up to item `i` followed by item `i`. */
  lemma ItemDone(src: Source, c: Ctx, u: string, items: seq<JValue>, i: nat)
    requires i < |items|
    ensures Then(Run([u], Finished([])), Items(src, c, items[..i + 1])) ==
            Then(Then(Run([u], Finished([])), Items(src, c, items[..i])), Item(src, c, items[i]))
  {
    assert items[..i + 1][..i] == items[..i];
    ThenAssociative(Run([u], Finished([])), Items(src, c, items[..i]), Item(src, c, items[i]));
  }

  /** Once an item has failed, the later items of the page change nothing. */
  lemma {:induction false} ItemsKeepFailure(src: Source, c: Ctx, items: seq<JValue>, k: nat)
    requires k <= |items| && !Items(src, c, items[..k]).outcome.Finished?
    ensures Items(src, c, items) == Items(src, c, items[..k])
    decreases |items| - k
  {
    if k < |items| {
      assert items[..k + 1][..k] == items[..k];
      ItemsKeepFailure(src, c, items, k + 1);
    } else {
      assert items[..k] == items;
    }
  }

  /** A failing item ends the page, with the requests made so far. */
  lemma PageFailsAtItem(src: Source, c: Ctx, u: string, page: JValue, items: seq<JValue>, i: nat)
    requires c.get(c.headers, u) == Ok(page) && PageItems(page) == Ok(Some(items))
    requires i < |items|
    requires Items(src, c, items[..i]).outcome.Finished? && !Item(src, c, items[i]).outcome.Finished?
    ensures Page(src, c, u) == PageStep(Then(Then(Run([u], Finished([])), Items(src, c, items[..i])), Item(src, c, items[i])), None)
  {
    assert items[..i + 1][..i] == items[..i];
    ItemsKeepFailure(src, c, items, i + 1);
    ItemDone(src, c, u, items, i);
  }

  /** A page whose items all succeed passes on the page's `next`. */
  lemma PageSucceeds(src: Source, c: Ctx, u: string, page: JValue, items: seq<JValue>)
    requires c.get(c.headers, u) == Ok(page) && PageItems(page) == Ok(Some(items))
    requires Items(src, c, items).outcome.Finished?
    ensures page.JObj?
    ensures Page(src, c, u) == PageStep(Then(Run([u], Finished([])), Items(src, c, items)), Some(Get(page, "next", JNull).value))
  {
    PageItemsOfObject(page);
  }

  /** One turn of `while url:` that ends the walk: the page failed or had no items. */
  lemma WalkStops(src: Source, c: Ctx, before: Run, url: JValue, left: nat, step: PageStep)
    requires Truthy(url) && step == Page(src, c, Str(url)) && step.next.None?
    requires Walk(src, c, url, left).outcome != Unfinished
    ensures Then(before, Walk(src, c, url, left)) == Then(before, step.run)
  {
  }

  /** One turn of `while url:` that goes on: the walk from `url` is its first
      page, then the walk from the page's `next` with one page less; the loop's
      new state is the old one extended by that page. */
  lemma WalkGoesOn(src: Source, c: Ctx, requests: seq<string>, tracks: seq<JValue>, url: JValue, left: nat, step: PageStep,
                   requests': seq<string>, tracks': seq<JValue>, url': JValue, left': nat)
    requires Truthy(url) && step == Page(src, c, Str(url)) && step.next.Some?
    requires Walk(src, c, url, left).outcome != Unfinished
    requires step.run.outcome.Finished? ==> requests' == requests + step.run.requests && tracks' == tracks + step.run.outcome.tracks
    requires url' == step.next.value && left' == left - 1
    ensures step.run.outcome.Finished?
    ensures Walk(src, c, url', left').outcome != Unfinished
    ensures Then(Run(requests', Finished(tracks')), Walk(src, c, url', left')) == Then(Run(requests, Finished(tracks)), Walk(src, c, url, left))
  {
    PageGoesOnFinished(src, c, Str(url));
    assert Pages(src, c)(Str(url)) == step;
    WalkOfGoesOn(Pages(src, c), requests, tracks, url, left, requests', tracks', url', left');
  }

  /** A page that passes on a `next` finished all its items. */
  lemma PageGoesOnFinished(src: Source, c: Ctx, u: string)
    requires Page(src, c, u).next.Some?
    ensures Page(src, c, u).run.outcome.Finished?
  {
  }

  /** WalkGoesOn for any page step function. */
  lemma WalkOfGoesOn(pages: string -> PageStep, requests: seq<string>, tracks: seq<JValue>, url: JValue, left: nat,
                     requests': seq<string>, tracks': seq<JValue>, url': JValue, left': nat)
    requires Truthy(url) && pages(Str(url)).next.Some? && pages(Str(url)).run.outcome.Finished?
    requires WalkOf(pages, url, left).outcome != Unfinished
    requires requests' == requests + pages(Str(url)).run.requests && tracks' == tracks + pages(Str(url)).run.outcome.tracks
    requires url' == pages(Str(url)).next.value && left' == left - 1
    ensures WalkOf(pages, url', left').outcome != Unfinished
    ensures Then(Run(requests', Finished(tracks')), WalkOf(pages, url', left')) ==
            Then(Run(requests, Finished(tracks)), WalkOf(pages, url, left))
  {
    var s := pages(Str(url));
    assert left > 0;
    var rest := WalkOf(pages, url', left');
    assert WalkOf(pages, url, left) == Then(s.run, rest);
    ThenAssociative(Run(requests, Finished(tracks)), s.run, rest);
    assert Then(Run(requests, Finished(tracks)), s.run) == Run(requests', Finished(tracks'));
  }
}
