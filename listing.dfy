/**
 * What `browse` and its helpers do to the three caches, as functions of the
 * caches before the call: the addressing scheme, the listing built for a page
 * of tracks and for the root, the cache entries each of them adds, the
 * invalidation by `refresh` and by age, and the properties these promise.
 */
module Listing {
  import opened Results
  import opened Base64
  import opened Text
  import opened Records
  import opened Tracks

  // ---------------------------------------------------------------- addressing

  /** The three shapes `browse` tells apart, with the page and user it cuts out of the address. */
  datatype Route = RootPage | FeedPage(page: string) | UserPage(user: string, page: string)

  /**
   * The dispatch of `browse`: the root address, any address starting with the
   * feed prefix (page after the last `:`), and anything else as a user address
   * (page after the last `:`, user between the last two).
   */
  function RouteOf(uri: string): (r: Route)
    ensures r.RootPage? <==> uri == RootUri
    ensures r.FeedPage? <==> uri != RootUri && StartsWith(uri, FeedBase)
    ensures !r.RootPage? ==> ':' !in r.page && |r.page| <= |uri| && uri[|uri| - |r.page|..] == r.page
    ensures !r.RootPage? && ':' in uri ==> |r.page| < |uri| && uri[|uri| - |r.page| - 1] == ':'
    ensures r.UserPage? ==> ':' !in r.user
  {
    if uri == RootUri then RootPage
    else if StartsWith(uri, FeedBase) then FeedPage(AfterLast(uri, ':'))
    else UserPage(AfterLast(SliceTo(uri, RFind(uri, ':')), ':'), AfterLast(uri, ':'))
  }

  /**
   * How `browse` cuts an address: without a `:` the page is the whole address
   * and the user all but its last character; with one, the user is the text
   * after the last `:` of what comes before the page's `:`.
   */
  lemma RouteOfCut(uri: string)
    ensures var r := RouteOf(uri);
      && (!r.RootPage? && ':' !in uri ==> r.page == uri)
      && (r.UserPage? && ':' in uri ==> |r.page| < |uri| && r.user == AfterLast(uri[..|uri| - |r.page| - 1], ':'))
      && (r.UserPage? && ':' !in uri ==> r.user == if uri == [] then [] else uri[..|uri| - 1])
  {
    if uri != RootUri && !StartsWith(uri, FeedBase) {
      if ':' in uri {
        UserCutAtSeparator(uri);
      } else {
        UserCutWithoutSeparator(uri);
      }
    }
  }

  /** With a `:`, the text `browse` cuts the user out of is everything before the page's `:`. */
  lemma UserCutAtSeparator(uri: string)
    requires ':' in uri
    ensures var page := AfterLast(uri, ':');
      |page| < |uri| && SliceTo(uri, RFind(uri, ':')) == uri[..|uri| - |page| - 1]
  {
    var t := RFind(uri, ':');
    var k :| 0 <= k < |uri| && uri[k] == ':';
    assert 0 <= t;
    var front, page := SliceTo(uri, t), AfterLast(uri, ':');
    assert |page| == |uri| - t - 1;
    assert |front| == t && front == uri[..t];
  }

  /** Without a `:`, it is all but the last character, and has no `:` either. */
  lemma UserCutWithoutSeparator(uri: string)
    requires ':' !in uri
    ensures var front := SliceTo(uri, RFind(uri, ':'));
      ':' !in front && front == if uri == [] then [] else uri[..|uri| - 1]
  {
    RFindAbsent(uri, ':');
    var n := if uri == [] then 0 else |uri| - 1;
    assert SliceTo(uri, -1) == uri[..n];
    PrefixLacks(uri, n, ':');
  }

  /** The prefix of every address the listing of a route contains. */
  function Base(r: Route): string
    requires !r.RootPage?
  {
    if r.FeedPage? then FeedBase else UserPrefix + r.user
  }

  /** The path of the remote service that lists the tracks of a route. */
  function Path(r: Route): string
    requires !r.RootPage?
  {
    if r.FeedPage? then "/feed" else "/" + r.user + "?type=tracks"
  }

  function PageUri(base: string, page: string): string
  {
    base + ":" + page
  }

  /**
   * The cache key a miss on `uri` writes its listing under: the root address
   * for the root, and for no other address; a feed key for a feed address.
   */
  function KeyOf(uri: string): (k: string)
    ensures k == RootUri <==> RouteOf(uri).RootPage?
    ensures StartsWith(k, FeedBase) <==> RouteOf(uri).FeedPage?
  {
    var r := RouteOf(uri);
    if r.RootPage? then
      RootIsNotFeed();
      RootUri
    else
      KeyShape(r);
      PageUri(Base(r), r.page)
  }

  lemma RootIsNotFeed()
    ensures !StartsWith(RootUri, FeedBase)
  {
    assert RootUri[15] == 'r' && FeedBase[15] == 'f';
  }

  /** A page key is never the root address, and starts with the feed prefix exactly for a feed page. */
  lemma KeyShape(r: Route)
    requires !r.RootPage?
    ensures PageUri(Base(r), r.page) != RootUri
    ensures StartsWith(PageUri(Base(r), r.page), FeedBase) <==> r.FeedPage?
  {
    var k := PageUri(Base(r), r.page);
    assert |k| > |RootUri|;
    if r.FeedPage? {
      assert k[..|FeedBase|] == FeedBase;
    } else {
      var b := UserPrefix + r.user;
      assert UserPrefix[15] == 'u';
      assert k == b + [':'] + r.page && b[15] == UserPrefix[15];
      assert k[..|FeedBase|][15] == 'u';
    }
  }

  /** A feed page address `hearthissimple:feed:<page>` is routed to that page and is its own cache key. */
  lemma FeedPageRoute(page: string)
    requires ':' !in page
    ensures RouteOf(PageUri(FeedBase, page)) == FeedPage(page)
    ensures KeyOf(PageUri(FeedBase, page)) == PageUri(FeedBase, page)
  {
    var uri := PageUri(FeedBase, page);
    assert uri[15] == 'f' && RootUri[15] == 'r';
    assert uri[..|FeedBase|] == FeedBase;
    AfterLastSeparator(FeedBase, ':', page);
  }

  /**
   * A user page address `hearthissimple:user:<user>:<page>` is routed to that
   * user and page and is its own cache key.
   */
  lemma UserPageRoute(user: string, page: string)
    requires ':' !in user && ':' !in page
    ensures RouteOf(PageUri(UserPrefix + user, page)) == UserPage(user, page)
    ensures KeyOf(PageUri(UserPrefix + user, page)) == PageUri(UserPrefix + user, page)
  {
    UserPageShape(user, page);
    UserPageCut(user, page);
  }

  /** A user page address is neither the root address nor a feed address. */
  lemma UserPageShape(user: string, page: string)
    ensures var uri := PageUri(UserPrefix + user, page);
      uri != RootUri && !StartsWith(uri, FeedBase)
  {
    var uri := PageUri(UserPrefix + user, page);
    assert uri[15] == 'u' && RootUri[15] == 'r' && FeedBase[15] == 'f';
    assert uri[..|FeedBase|][15] == 'u';
  }

  /** The cuts at the last two `:` of a user page address give back its page and its user. */
  lemma UserPageCut(user: string, page: string)
    requires ':' !in user && ':' !in page
    ensures var uri := PageUri(UserPrefix + user, page);
      && AfterLast(uri, ':') == page
      && AfterLast(SliceTo(uri, RFind(uri, ':')), ':') == user
  {
    var front := UserPrefix + user;
    var uri := PageUri(front, page);
    assert uri == front + [':'] + page;
    RFindSeparator(front, ':', page);
    AfterLastSeparator(front, ':', page);
    assert SliceTo(uri, |front|) == front;
    assert front == "hearthissimple:user" + [':'] + user;
    AfterLastSeparator("hearthissimple:user", ':', user);
  }

  /** The key of any address is routed like the address itself and is its own key. */
  lemma KeyOfRoute(uri: string)
    ensures RouteOf(KeyOf(uri)) == RouteOf(uri)
    ensures KeyOf(KeyOf(uri)) == KeyOf(uri)
  {
    var r := RouteOf(uri);
    if r.FeedPage? {
      FeedPageRoute(r.page);
    } else if r.UserPage? {
      UserPageRoute(r.user, r.page);
    }
  }

  // ------------------------------------------------------- a page of tracks

  /** The ordinal of the `k`-th record (from 0) of page `page`, 20 records to a page. */
  function TrackNo(page: int, k: nat): int
  {
    (page - 1) * PageSize + k + 1
  }

  /** The address of a listed track: the listing's prefix, `:`, and the Base64 of the stream URL. */
  function TrackUri(base: string, j: TrackJson): string
  {
    PageUri(base, Encode(j.streamUrl))
  }

  /** The addresses of the track entries of a page, in the order of its records. */
  function TrackUris(base: string, recs: seq<TrackJson>): (uris: seq<string>)
    ensures |uris| == |recs|
    decreases |recs|
  {
    if recs == [] then [] else TrackUris(base, recs[..|recs| - 1]) + [TrackUri(base, recs[|recs| - 1])]
  }

  /** The `k`-th address is the address of the `k`-th record. */
  lemma {:induction false} TrackUrisAt(base: string, recs: seq<TrackJson>, k: nat)
    requires k < |recs|
    ensures TrackUris(base, recs)[k] == TrackUri(base, recs[k])
    decreases |recs|
  {
    if k < |recs| - 1 {
      TrackUrisAt(base, recs[..|recs| - 1], k);
    }
  }

  /** The track entry of record `k` of page `page`: its address, and its ordinal before its title. */
  function TrackEntry(base: string, page: int, recs: seq<TrackJson>, k: nat): Ref
    requires k < |recs|
  {
    TrackRef(TrackUri(base, recs[k]), TrackName(TrackNo(page, k), recs[k].title))
  }

  /** One track entry for each of the first `n` records, in order. */
  function TrackRefs(base: string, page: int, recs: seq<TrackJson>, n: nat): (refs: seq<Ref>)
    requires n <= |recs|
    ensures |refs| == n
    decreases n
  {
    if n == 0 then [] else TrackRefs(base, page, recs, n - 1) + [TrackEntry(base, page, recs, n - 1)]
  }

  /** The `k`-th entry is the entry of the `k`-th record. */
  lemma {:induction false} TrackRefsAt(base: string, page: int, recs: seq<TrackJson>, n: nat, k: nat)
    requires k < n <= |recs|
    ensures TrackRefs(base, page, recs, n)[k] == TrackEntry(base, page, recs, k)
    decreases n
  {
    if k < n - 1 {
      TrackRefsAt(base, page, recs, n - 1, k);
      assert TrackRefs(base, page, recs, n)[k] == TrackRefs(base, page, recs, n - 1)[k];
    }
  }

  /** The entries of the first `m` records are a prefix of those of the first `n`. */
  lemma TrackRefsPrefix(base: string, page: int, recs: seq<TrackJson>, m: nat, n: nat)
    requires m <= n <= |recs|
    ensures TrackRefs(base, page, recs, n)[..m] == TrackRefs(base, page, recs, m)
  {
    forall k | 0 <= k < m
      ensures TrackRefs(base, page, recs, n)[k] == TrackRefs(base, page, recs, m)[k]
    {
      TrackRefsAt(base, page, recs, n, k);
      TrackRefsAt(base, page, recs, m, k);
    }
  }

  /** The trailing entry that leads to the next page. */
  function NextPageRef(base: string, page: int): Ref
  {
    DirectoryRef(PageUri(base, IntToString(page + 1)), "Page " + IntToString(page + 1))
  }

  /**
   * The listing of page `page`: the records in the order the remote service
   * gives them, each as a track entry carrying its ordinal, then exactly one
   * entry for the next page.
   */
  function TrackListing(base: string, page: int, recs: seq<TrackJson>): (l: seq<Ref>)
    ensures |l| == |recs| + 1 && l != []
    ensures l[|recs|] == NextPageRef(base, page)
  {
    TrackRefs(base, page, recs, |recs|) + [NextPageRef(base, page)]
  }

  /**
   * The `k`-th entry of a page's listing is the track entry of the `k`-th
   * record: the Base64 of its stream URL after the listing's prefix, and its
   * ordinal `(page - 1) * 20 + k + 1` before its title.
   */
  lemma ListingEntry(base: string, page: int, recs: seq<TrackJson>, k: nat)
    requires k < |recs|
    ensures TrackListing(base, page, recs)[k]
         == TrackRef(base + ":" + Encode(recs[k].streamUrl), TrackName((page - 1) * PageSize + k + 1, recs[k].title))
    ensures TrackListing(base, page, recs)[k].uri == TrackUris(base, recs)[k]
  {
    TrackRefsAt(base, page, recs, |recs|, k);
    TrackUrisAt(base, recs, k);
  }

  /** On page 2 the first track is named `21. <title>`. */
  lemma SecondPageNumbering(base: string, recs: seq<TrackJson>)
    requires |recs| > 0
    ensures TrackListing(base, 2, recs)[0].name == "21. " + recs[0].title
  {
    ListingEntry(base, 2, recs, 0);
    assert (2 - 1) * PageSize + 0 + 1 == 21;
    assert TrackListing(base, 2, recs)[0].name == TrackName(21, recs[0].title);
    TrackNameExample(recs[0].title);
  }

  /** The track record of the `k`-th record, at its address `uris[k]`, or the error its conversion raises. */
  function Converted(uris: seq<string>, page: int, recs: seq<TrackJson>, k: nat): Result<Track>
    requires |uris| == |recs| && k < |recs|
  {
    TrackFromJson(recs[k], TrackNo(page, k), uris[k])
  }

  function FirstFailureFrom(recs: seq<TrackJson>, i: nat): (b: nat)
    requires i <= |recs|
    ensures i <= b <= |recs|
    ensures b < |recs| ==> !Convertible(recs[b])
    decreases |recs| - i
  {
    if i == |recs| || !Convertible(recs[i]) then i
    else FirstFailureFrom(recs, i + 1)
  }

  lemma {:induction false} FirstFailureFromBefore(recs: seq<TrackJson>, i: nat, k: nat)
    requires i <= |recs| && i <= k < FirstFailureFrom(recs, i)
    ensures Convertible(recs[k])
    decreases |recs| - i
  {
    if k > i {
      FirstFailureFromBefore(recs, i + 1, k);
    }
  }

  lemma {:induction false} FirstFailureFromUnique(recs: seq<TrackJson>, i: nat, j: nat)
    requires i <= j <= |recs|
    requires forall k :: i <= k < j ==> Convertible(recs[k])
    requires j < |recs| ==> !Convertible(recs[j])
    ensures FirstFailureFrom(recs, i) == j
    decreases j - i
  {
    if i < j {
      FirstFailureFromUnique(recs, i + 1, j);
    }
  }

  /** The first record whose duration or date does not parse, or the number of records when none. */
  function FirstFailure(recs: seq<TrackJson>): (b: nat)
    ensures b <= |recs|
    ensures b < |recs| ==> !Convertible(recs[b])
  {
    FirstFailureFrom(recs, 0)
  }

  /** Every record before the first failure converts. */
  lemma FirstFailureBefore(recs: seq<TrackJson>, k: nat)
    requires k < FirstFailure(recs)
    ensures Convertible(recs[k])
  {
    FirstFailureFromBefore(recs, 0, k);
  }

  /** The first failure is the one index with only successes before it and a failure at it. */
  lemma FirstFailureUnique(recs: seq<TrackJson>, i: nat)
    requires i <= |recs|
    requires forall k :: 0 <= k < i ==> Convertible(recs[k])
    requires i < |recs| ==> !Convertible(recs[i])
    ensures FirstFailure(recs) == i
  {
    FirstFailureFromUnique(recs, 0, i);
  }

  /** Up to the first failure, a record converts exactly when it comes before the first failure. */
  lemma FirstFailureAt(recs: seq<TrackJson>, i: nat)
    requires i <= FirstFailure(recs) && i < |recs|
    ensures Convertible(recs[i]) <==> i < FirstFailure(recs)
  {
    if i < FirstFailure(recs) {
      FirstFailureBefore(recs, i);
    }
  }

  /** The track records of the first `n` records of a page, in order. */
  function ConvertedTracks(uris: seq<string>, page: int, recs: seq<TrackJson>, n: nat): (ts: seq<Track>)
    requires |uris| == |recs| && n <= FirstFailure(recs)
    ensures |ts| == n
    decreases n
  {
    if n == 0 then []
    else
      FirstFailureBefore(recs, n - 1);
      ConvertedTracks(uris, page, recs, n - 1) + [Converted(uris, page, recs, n - 1).value]
  }

  /** The `k`-th of them is the record the `k`-th record converts to, and it carries the `k`-th address. */
  lemma {:induction false} ConvertedTracksAt(uris: seq<string>, page: int, recs: seq<TrackJson>, n: nat, k: nat)
    requires |uris| == |recs| && n <= FirstFailure(recs) && k < n
    ensures Converted(uris, page, recs, k).Ok?
    ensures ConvertedTracks(uris, page, recs, n)[k] == Converted(uris, page, recs, k).value
    ensures ConvertedTracks(uris, page, recs, n)[k].uri == uris[k]
    decreases n
  {
    FirstFailureBefore(recs, k);
    if k < n - 1 {
      ConvertedTracksAt(uris, page, recs, n - 1, k);
      assert ConvertedTracks(uris, page, recs, n)[k] == ConvertedTracks(uris, page, recs, n - 1)[k];
    }
  }

  /** Among the first `n` addresses, none after the `k`-th is the same: the `k`-th write to it is the last. */
  predicate LastWriteAt(uris: seq<string>, n: nat, k: nat)
    requires k < n <= |uris|
  {
    forall j :: k < j < n ==> uris[j] != uris[k]
  }

  /**
   * The track cache after the first `n` track records `ts` of a page: each
   * stored under its entry's address, in order, so that a later record with
   * the same address replaces an earlier one.
   */
  function WithTracks(tracks: map<string, Track>, uris: seq<string>, ts: seq<Track>, n: nat): map<string, Track>
    requires |uris| >= n && |ts| >= n
    decreases n
  {
    if n == 0 then tracks
    else WithTracks(tracks, uris, ts, n - 1)[uris[n - 1] := ts[n - 1]]
  }

  /**
   * When each record carries its entry's address, after the first `n` of them
   * the addresses are exactly the old ones and theirs, each of their addresses
   * holds a record carrying that address, the last record written to an
   * address is the one it holds, and every other address keeps the record it
   * had.
   */
  lemma {:induction false} WithTracksCover(tracks: map<string, Track>, uris: seq<string>, ts: seq<Track>, n: nat)
    requires |uris| >= n && |ts| >= n
    requires forall k :: 0 <= k < n ==> ts[k].uri == uris[k]
    ensures var m := WithTracks(tracks, uris, ts, n);
      && (forall u :: u in m <==> u in tracks || u in uris[..n])
      && (forall k :: 0 <= k < n ==> uris[k] in m && m[uris[k]].uri == uris[k])
      && (forall k :: 0 <= k < n && LastWriteAt(uris, n, k) ==> m[uris[k]] == ts[k])
      && (forall u :: u in tracks && u !in uris[..n] ==> m[u] == tracks[u])
    decreases n
  {
    if n > 0 {
      WithTracksCover(tracks, uris, ts, n - 1);
      assert uris[..n] == uris[..n - 1] + [uris[n - 1]];
    }
    WithTracksLast(tracks, uris, ts, n);
  }

  /** Each of the first `n` addresses holds the last of the first `n` records written to it. */
  lemma {:induction false} WithTracksLast(tracks: map<string, Track>, uris: seq<string>, ts: seq<Track>, n: nat)
    requires |uris| >= n && |ts| >= n
    ensures var m := WithTracks(tracks, uris, ts, n);
      forall k :: 0 <= k < n && LastWriteAt(uris, n, k) ==> uris[k] in m && m[uris[k]] == ts[k]
    decreases n
  {
    if n > 0 {
      WithTracksLast(tracks, uris, ts, n - 1);
      var prev := WithTracks(tracks, uris, ts, n - 1);
      var m := WithTracks(tracks, uris, ts, n);
      forall k | 0 <= k < n && LastWriteAt(uris, n, k)
        ensures uris[k] in m && m[uris[k]] == ts[k]
      {
        if k < n - 1 {
          assert uris[n - 1] != uris[k] && LastWriteAt(uris, n - 1, k);
          assert m[uris[k]] == prev[uris[k]];
        }
      }
    }
  }

  /** The track cache after the first `n` records of a page that all convert. */
  function PageTracks(tracks: map<string, Track>, uris: seq<string>, page: int, recs: seq<TrackJson>, n: nat)
    : map<string, Track>
    requires |uris| == |recs| && n <= FirstFailure(recs)
  {
    WithTracks(tracks, uris, ConvertedTracks(uris, page, recs, FirstFailure(recs)), n)
  }

  /** One more record that converts stores its track record under its address. */
  lemma PageTracksStep(tracks: map<string, Track>, uris: seq<string>, page: int, recs: seq<TrackJson>, n: nat)
    requires |uris| == |recs| && n < FirstFailure(recs)
    ensures Converted(uris, page, recs, n).Ok?
    ensures PageTracks(tracks, uris, page, recs, n + 1)
         == PageTracks(tracks, uris, page, recs, n)[uris[n] := Converted(uris, page, recs, n).value]
  {
    ConvertedTracksAt(uris, page, recs, FirstFailure(recs), n);
  }

  /**
   * After the first `n` records of a page the addresses are exactly the old
   * ones and theirs, each of their addresses holds a record carrying that
   * address, an address no later record of them shares holds the record its
   * own record converts to, and every other address keeps the record it had.
   */
  lemma PageTracksCover(tracks: map<string, Track>, uris: seq<string>, page: int, recs: seq<TrackJson>, n: nat)
    requires |uris| == |recs| && n <= FirstFailure(recs)
    ensures var m := PageTracks(tracks, uris, page, recs, n);
      && (forall u :: u in m <==> u in tracks || u in uris[..n])
      && (forall k :: 0 <= k < n ==> uris[k] in m && m[uris[k]].uri == uris[k])
      && (forall k :: 0 <= k < n ==> Converted(uris, page, recs, k).Ok?)
      && (forall k :: 0 <= k < n && LastWriteAt(uris, n, k) ==> m[uris[k]] == Converted(uris, page, recs, k).value)
      && (forall u :: u in tracks && u !in uris[..n] ==> m[u] == tracks[u])
  {
    var ts := ConvertedTracks(uris, page, recs, FirstFailure(recs));
    forall k | 0 <= k < n
      ensures Converted(uris, page, recs, k).Ok?
      ensures ts[k] == Converted(uris, page, recs, k).value && ts[k].uri == uris[k]
    {
      ConvertedTracksAt(uris, page, recs, FirstFailure(recs), k);
    }
    WithTracksCover(tracks, uris, ts, n);
  }

  /** A record with a non-empty artwork URL gives its track entry an image. */
  predicate HasArtwork(j: TrackJson)
  {
    j.artworkUrl.Some? && j.artworkUrl.value != ""
  }

  /**
   * Among the first `n` records, the `k`-th has artwork and none after it
   * with artwork has the same address: its image is the last written there.
   */
  predicate LastArtworkAt(uris: seq<string>, recs: seq<TrackJson>, n: nat, k: nat)
    requires |uris| == |recs| && k < n <= |recs|
  {
    HasArtwork(recs[k]) && forall j :: k < j < n && HasArtwork(recs[j]) ==> uris[j] != uris[k]
  }

  /** The image cache after one record: its artwork under its address, if it has any. */
  function WithArtwork(images: map<string, Image>, uri: string, j: TrackJson): map<string, Image>
  {
    if HasArtwork(j) then images[uri := Image(j.artworkUrl)] else images
  }

  /** The image cache after the first `n` records of a page, in order. */
  function WithArtworks(images: map<string, Image>, uris: seq<string>, recs: seq<TrackJson>, n: nat)
    : map<string, Image>
    requires |uris| == |recs| && n <= |recs|
    decreases n
  {
    if n == 0 then images
    else WithArtwork(WithArtworks(images, uris, recs, n - 1), uris[n - 1], recs[n - 1])
  }

  /**
   * After the first `n` records no image is lost, every one of them with
   * artwork has an image at its address, which is its own artwork when no
   * later one of them with artwork shares the address, every new image
   * belongs to one of them, and every address outside them keeps the image
   * it had.
   */
  lemma {:induction false} WithArtworksCover(images: map<string, Image>, uris: seq<string>, recs: seq<TrackJson>,
                                             n: nat)
    requires |uris| == |recs| && n <= |recs|
    ensures var m := WithArtworks(images, uris, recs, n);
      && images.Keys <= m.Keys
      && (forall k :: 0 <= k < n && HasArtwork(recs[k]) ==> uris[k] in m)
      && (forall k :: 0 <= k < n && LastArtworkAt(uris, recs, n, k) ==> m[uris[k]] == Image(recs[k].artworkUrl))
      && (forall u :: u in m && u !in images ==> exists k :: 0 <= k < n && uris[k] == u && HasArtwork(recs[k]))
      && (forall u :: u in images && u !in uris[..n] ==> m[u] == images[u])
    decreases n
  {
    if n > 0 {
      WithArtworksCover(images, uris, recs, n - 1);
      assert uris[..n] == uris[..n - 1] + [uris[n - 1]];
    }
    WithArtworksLast(images, uris, recs, n);
  }

  /** Each address holds the artwork of the last record among the first `n` that wrote one there. */
  lemma {:induction false} WithArtworksLast(images: map<string, Image>, uris: seq<string>, recs: seq<TrackJson>,
                                            n: nat)
    requires |uris| == |recs| && n <= |recs|
    ensures var m := WithArtworks(images, uris, recs, n);
      forall k :: 0 <= k < n && LastArtworkAt(uris, recs, n, k) ==>
        uris[k] in m && m[uris[k]] == Image(recs[k].artworkUrl)
    decreases n
  {
    if n > 0 {
      WithArtworksLast(images, uris, recs, n - 1);
      var prev := WithArtworks(images, uris, recs, n - 1);
      var m := WithArtworks(images, uris, recs, n);
      forall k | 0 <= k < n && LastArtworkAt(uris, recs, n, k)
        ensures uris[k] in m && m[uris[k]] == Image(recs[k].artworkUrl)
      {
        if k < n - 1 {
          assert HasArtwork(recs[n - 1]) ==> uris[n - 1] != uris[k];
          assert LastArtworkAt(uris, recs, n - 1, k);
          assert m[uris[k]] == prev[uris[k]];
        }
      }
    }
  }

  // --------------------------------------------------------------- outcomes

  /** What one call does: its result (or the exception it raises), the caches after it, the GETs it sent. */
  datatype Outcome = Outcome(result: Result<seq<Ref>>, caches: Caches, requests: seq<Request>)

  /** `htAPICall(path, page)`: the credentials, the page size and the page as query parameters. */
  function ApiRequest(s: Session, path: string, page: string): Request
  {
    Request(HtApi + path, s.secret, s.key, PageSize, page)
  }

  /**
   * `loadTrackRefsFromHT(path, base, page)`: one GET; `int(page)` may raise;
   * then the records are listed.
   */
  function LoadTrackPage(c: Caches, s: Session, remote: Remote, path: string, base: string, page: string)
    : (r: Outcome)
    ensures r.requests == [ApiRequest(s, path, page)]
    ensures ParseInt(page).Err? ==> r.result == Err(ParseInt(page).error) && r.caches == c
    ensures r.result.Err? ==> r.caches.refs == c.refs
    ensures r.result.Ok? ==>
      && ParseInt(page).Ok? && r.result.value != []
      && r.caches.refs == c.refs[PageUri(base, page) := Some(r.result.value)]
  {
    var req := ApiRequest(s, path, page);
    match ParseInt(page)
    case Err(e) => Outcome(Err(e), c, [req])
    case Ok(p) =>
      var o := ListPage(c, base, page, p, remote.tracks(req));
      Outcome(o.result, o.caches, [req])
  }

  /**
   * The records of page `page` (numbered `p`) being listed: each adds its
   * image and its track record in turn, so a record whose duration or date
   * does not parse raises after the earlier records and its own image are
   * cached; only a complete listing is cached, under `base + ":" + page`.
   */
  function ListPage(c: Caches, base: string, page: string, p: int, recs: seq<TrackJson>): (r: Outcome)
    ensures r.requests == []
    ensures r.result.Ok? <==> FirstFailure(recs) == |recs|
    ensures r.result.Err? ==> r.caches.refs == c.refs
    ensures r.result.Ok? ==>
      && r.result.value == TrackListing(base, p, recs)
      && r.caches.refs == c.refs[PageUri(base, page) := Some(r.result.value)]
  {
    var uris := TrackUris(base, recs);
    var b := FirstFailure(recs);
    if b < |recs| then
      Outcome(Err(Converted(uris, p, recs, b).error),
              Caches(c.refs, PageTracks(c.tracks, uris, p, recs, b), WithArtworks(c.images, uris, recs, b + 1)),
              [])
    else
      var listing := TrackListing(base, p, recs);
      Outcome(Ok(listing),
              Caches(c.refs[PageUri(base, page) := Some(listing)],
                     PageTracks(c.tracks, uris, p, recs, |recs|),
                     WithArtworks(c.images, uris, recs, |recs|)),
              [])
  }

  // -------------------------------------------------------------- the root

  const FeedUri := PageUri(FeedBase, "1")

  /** The address of a followed user's first page. */
  function UserEntryUri(f: Follow): string
  {
    PageUri(UserPrefix + f.permalink, "1")
  }

  /** The entry of a followed user: the address of their first page, under their name. */
  function UserRef(f: Follow): Ref
  {
    DirectoryRef(UserEntryUri(f), f.username)
  }

  /** One entry for each of the first `n` followed users, in order. */
  function FollowRefs(follows: seq<Follow>, n: nat): (refs: seq<Ref>)
    requires n <= |follows|
    ensures |refs| == n
    decreases n
  {
    if n == 0 then [] else FollowRefs(follows, n - 1) + [UserRef(follows[n - 1])]
  }

  lemma {:induction false} FollowRefsAt(follows: seq<Follow>, n: nat, i: nat)
    requires i < n <= |follows|
    ensures FollowRefs(follows, n)[i] == UserRef(follows[i])
    decreases n
  {
    if i < n - 1 {
      FollowRefsAt(follows, n - 1, i);
    }
  }

  /** The root listing: the feed entry first, then one entry per followed user, in order. */
  function RootListing(s: Session, follows: seq<Follow>): (l: seq<Ref>)
    ensures |l| == |follows| + 1
    ensures l[0] == DirectoryRef(FeedUri, FeedLabel + s.username)
  {
    [DirectoryRef(FeedUri, FeedLabel + s.username)] + FollowRefs(follows, |follows|)
  }

  /** After the feed entry, the `i`-th followed user's entry comes at position `i + 1`. */
  lemma RootListingEntry(s: Session, follows: seq<Follow>, i: nat)
    requires i < |follows|
    ensures RootListing(s, follows)[i + 1] == DirectoryRef(UserEntryUri(follows[i]), follows[i].username)
  {
    FollowRefsAt(follows, |follows|, i);
  }

  /** The image cache after the root listing: the session avatar for the feed, then each user's avatar in turn. */
  function RootImages(images: map<string, Image>, s: Session, follows: seq<Follow>, n: nat): map<string, Image>
    requires n <= |follows|
    decreases n
  {
    if n == 0 then images[FeedUri := Image(Some(s.avatarUrl))]
    else RootImages(images, s, follows, n - 1)[UserEntryUri(follows[n - 1]) := Image(follows[n - 1].avatarUrl)]
  }

  lemma UserEntryIsNotFeed(f: Follow)
    ensures UserEntryUri(f) != FeedUri
  {
    assert UserEntryUri(f)[15] == 'u' && FeedUri[15] == 'f';
  }

  /** Two followed users share an entry address only when they share a permalink. */
  lemma UserEntryInjective(f: Follow, g: Follow)
    ensures UserEntryUri(f) == UserEntryUri(g) ==> f.permalink == g.permalink
  {
    if UserEntryUri(f) == UserEntryUri(g) {
      assert UserEntryUri(f)[..|UserEntryUri(f)| - 2] == UserPrefix + f.permalink;
      assert UserEntryUri(g)[..|UserEntryUri(g)| - 2] == UserPrefix + g.permalink;
      assert f.permalink == (UserPrefix + f.permalink)[|UserPrefix|..];
      assert g.permalink == (UserPrefix + g.permalink)[|UserPrefix|..];
    }
  }

  /** Among the first `n` followed users, none after the `i`-th has the same permalink. */
  predicate LastPermalinkAt(follows: seq<Follow>, n: nat, i: nat)
    requires i < n <= |follows|
  {
    forall j :: i < j < n ==> follows[j].permalink != follows[i].permalink
  }

  /** An address that is neither the feed entry's nor that of any of the first `n` followed users. */
  predicate OffRoot(u: string, follows: seq<Follow>, n: nat)
    requires n <= |follows|
  {
    u != FeedUri && forall i :: 0 <= i < n ==> u != UserEntryUri(follows[i])
  }

  /**
   * The feed entry's image is the session avatar, every followed user's entry
   * has an image, and it is that user's avatar unless a later user has the
   * same permalink; no image is lost, and every other address keeps the image
   * it had.
   */
  lemma {:induction false} RootImagesCover(images: map<string, Image>, s: Session, follows: seq<Follow>, n: nat)
    requires n <= |follows|
    ensures var m := RootImages(images, s, follows, n);
      && FeedUri in m && m[FeedUri] == Image(Some(s.avatarUrl))
      && (forall i :: 0 <= i < n ==> UserEntryUri(follows[i]) in m)
      && (forall i :: 0 <= i < n && LastPermalinkAt(follows, n, i) ==>
            m[UserEntryUri(follows[i])] == Image(follows[i].avatarUrl))
      && images.Keys <= m.Keys
      && (forall u :: u in images && OffRoot(u, follows, n) ==> m[u] == images[u])
    decreases n
  {
    if n > 0 {
      RootImagesCover(images, s, follows, n - 1);
      UserEntryIsNotFeed(follows[n - 1]);
      var prev := RootImages(images, s, follows, n - 1);
      var m := RootImages(images, s, follows, n);
      var last := UserEntryUri(follows[n - 1]);
      assert m == prev[last := Image(follows[n - 1].avatarUrl)];
      forall i | 0 <= i < n && LastPermalinkAt(follows, n, i)
        ensures m[UserEntryUri(follows[i])] == Image(follows[i].avatarUrl)
      {
        if i < n - 1 {
          UserEntryInjective(follows[i], follows[n - 1]);
          assert follows[n - 1].permalink != follows[i].permalink && LastPermalinkAt(follows, n - 1, i);
          assert m[UserEntryUri(follows[i])] == prev[UserEntryUri(follows[i])];
        }
      }
    }
  }

  /** The root listing gives images to the feed entry and the user entries and to nothing else. */
  lemma {:induction false} RootImagesOnly(images: map<string, Image>, s: Session, follows: seq<Follow>, n: nat)
    requires n <= |follows|
    ensures forall u :: u in RootImages(images, s, follows, n) && u !in images ==>
      u == FeedUri || exists i :: 0 <= i < n && u == UserEntryUri(follows[i])
    decreases n
  {
    if n > 0 {
      RootImagesOnly(images, s, follows, n - 1);
    }
  }

  /** `loadRootDirectoryRefs`: one GET for the users followed; the listing is cached under the root address. */
  function LoadRoot(c: Caches, s: Session, remote: Remote): (r: Outcome)
    ensures r.result.Ok? && r.result.value != []
    ensures r.caches.refs == c.refs[RootUri := Some(r.result.value)]
    ensures r.caches.tracks == c.tracks
    ensures |r.requests| == 1
  {
    var req := ApiRequest(s, "/" + s.username + "/following/", "1");
    var follows := remote.following(req);
    var listing := RootListing(s, follows);
    Outcome(Ok(listing),
            Caches(c.refs[RootUri := Some(listing)], c.tracks, RootImages(c.images, s, follows, |follows|)),
            [req])
  }

  // -------------------------------------------------- browse and invalidation

  /** A cache hit: the address has a listing, and the listing is not empty (Python truthiness). */
  predicate IsHit(refs: map<string, Option<seq<Ref>>>, uri: string)
  {
    uri in refs && refs[uri].Some? && refs[uri].value != []
  }

  /** `browse(uri)` once the age check is done: a hit is served from the cache, a miss is loaded. */
  function BrowseCached(c: Caches, s: Session, remote: Remote, uri: string): (r: Outcome)
    ensures IsHit(c.refs, uri) ==> r == Outcome(Ok(c.refs[uri].value), c, [])
    ensures !IsHit(c.refs, uri) ==> |r.requests| == 1
    ensures r.result.Ok? ==> r.result.value != []
    ensures r.result.Err? ==> r.caches.refs == c.refs
    ensures r.result.Ok? && !IsHit(c.refs, uri) ==> r.caches.refs == c.refs[KeyOf(uri) := Some(r.result.value)]
  {
    if IsHit(c.refs, uri) then Outcome(Ok(c.refs[uri].value), c, [])
    else
      var r := RouteOf(uri);
      if r.RootPage? then LoadRoot(c, s, remote)
      else LoadTrackPage(c, s, remote, Path(r), Base(r), r.page)
  }

  /** `refresh(uri)`: the empty address drops every listing, any other marks its own listing absent. */
  function Refreshed(refs: map<string, Option<seq<Ref>>>, uri: string): (r: map<string, Option<seq<Ref>>>)
    ensures uri == "" ==> r == map[]
    ensures uri != "" ==> r.Keys == refs.Keys + {uri} && r[uri] == None
    ensures forall u :: u in refs && u != uri && uri != "" ==> r[u] == refs[u]
  {
    if uri == "" then map[] else refs[uri := None]
  }

  /** After `refresh(uri)` the address is a miss, and a single-address refresh leaves every other hit a hit. */
  lemma RefreshMisses(refs: map<string, Option<seq<Ref>>>, uri: string, other: string)
    ensures !IsHit(Refreshed(refs, uri), uri)
    ensures uri == "" ==> !IsHit(Refreshed(refs, uri), other)
    ensures uri != "" && other != uri ==> (IsHit(Refreshed(refs, uri), other) <==> IsHit(refs, other))
  {
  }

  predicate Expired(lastRefresh: int, now: int)
  {
    now - lastRefresh > CacheTimeMin
  }

  /** The age check at the start of `browse`: data older than a day drops every listing. */
  function Expire(c: Caches, lastRefresh: int, now: int): (e: Caches)
    ensures Expired(lastRefresh, now) ==> e == Caches(map[], c.tracks, c.images)
    ensures !Expired(lastRefresh, now) ==> e == c
  {
    if Expired(lastRefresh, now) then c.(refs := Refreshed(c.refs, "")) else c
  }

  /**
   * The freshness marker after the age check: the data is never stale
   * afterwards, the marker never moves back, and it moves only to the current
   * time and only when the data was stale.
   */
  function NextRefresh(lastRefresh: int, now: int): (t: int)
    ensures !Expired(t, now)
    ensures lastRefresh <= t
    ensures t == lastRefresh || t == now
    ensures !Expired(lastRefresh, now) ==> t == lastRefresh
  {
    if Expired(lastRefresh, now) then now else lastRefresh
  }

  // ------------------------------------------------------------- properties

  /** Every track entry of a listing can be looked up in the track cache. */
  predicate Resolvable(listing: seq<Ref>, tracks: map<string, Track>)
  {
    forall i :: 0 <= i < |listing| && listing[i].TrackRef? ==> listing[i].uri in tracks
  }

  /**
   * The invariant of the caches: a track record sits under its own address,
   * and every track entry of a cached listing has its record.
   */
  predicate Consistent(c: Caches)
  {
    && (forall u :: u in c.tracks ==> c.tracks[u].uri == u)
    && (forall u :: u in c.refs && c.refs[u].Some? ==> Resolvable(c.refs[u].value, c.tracks))
  }

  lemma ResolvableGrows(listing: seq<Ref>, t: map<string, Track>, t': map<string, Track>)
    requires Resolvable(listing, t) && t.Keys <= t'.Keys
    ensures Resolvable(listing, t')
  {
  }

  /** A page whose number does not parse raises and changes nothing. */
  lemma LoadTrackPageBadPage(c: Caches, s: Session, remote: Remote, path: string, base: string, page: string)
    requires ParseInt(page).Err?
    ensures LoadTrackPage(c, s, remote, path, base, page)
         == Outcome(Err(ParseInt(page).error), c, [ApiRequest(s, path, page)])
  {
  }

  /** A page whose number parses sends its one GET and lists the records it gets. */
  lemma LoadTrackPageParsed(c: Caches, s: Session, remote: Remote, path: string, base: string, page: string, p: int)
    requires ParseInt(page) == Ok(p)
    ensures var req := ApiRequest(s, path, page);
      var o := ListPage(c, base, page, p, remote.tracks(req));
      LoadTrackPage(c, s, remote, path, base, page) == Outcome(o.result, o.caches, [req])
  {
  }

  /**
   * A page with a bad record raises that record's error and caches no
   * listing, but what came before it stays written: the track cache gains
   * exactly the addresses of the records before it, each holding the record
   * its own record converts to unless a later one of them shares the address,
   * every other track record is kept, and the image cache gains images only
   * for those records and the bad one, whose own artwork is written last.
   */
  lemma ListPageBadRecord(c: Caches, base: string, page: string, p: int, recs: seq<TrackJson>)
    requires FirstFailure(recs) < |recs|
    ensures var o, uris, b := ListPage(c, base, page, p, recs), TrackUris(base, recs), FirstFailure(recs);
      && Converted(uris, p, recs, b).Err?
      && o.result == Err(Converted(uris, p, recs, b).error)
      && o.caches.refs == c.refs
      && o.requests == []
      && (forall u :: u in o.caches.tracks <==> u in c.tracks || u in uris[..b])
      && (forall k :: 0 <= k < b ==> Converted(uris, p, recs, k).Ok?)
      && (forall k :: 0 <= k < b && LastWriteAt(uris, b, k) ==>
            o.caches.tracks[uris[k]] == Converted(uris, p, recs, k).value)
      && (forall u :: u in c.tracks && u !in uris[..b] ==> o.caches.tracks[u] == c.tracks[u])
      && c.images.Keys <= o.caches.images.Keys
      && (forall u :: u in o.caches.images && u !in c.images ==>
            exists k :: 0 <= k <= b && uris[k] == u && HasArtwork(recs[k]))
      && (forall u :: u in c.images && u !in uris[..b + 1] ==> o.caches.images[u] == c.images[u])
      && (HasArtwork(recs[b]) ==> o.caches.images[uris[b]] == Image(recs[b].artworkUrl))
  {
    var uris, b := TrackUris(base, recs), FirstFailure(recs);
    PageTracksCover(c.tracks, uris, p, recs, b);
    WithArtworksCover(c.images, uris, recs, b + 1);
    if HasArtwork(recs[b]) {
      assert LastArtworkAt(uris, recs, b + 1, b);
    }
  }

  /**
   * A page whose records all convert is listed and cached under
   * `base + ":" + page`; the track cache gains exactly the page's addresses,
   * each holding the record its own record converts to unless a later one
   * shares the address, the image cache gains images only for the page's
   * records with artwork, each holding its own artwork unless a later one
   * shares the address, and every other address keeps what it had.
   */
  lemma ListPageComplete(c: Caches, base: string, page: string, p: int, recs: seq<TrackJson>)
    requires FirstFailure(recs) == |recs|
    ensures var o, uris := ListPage(c, base, page, p, recs), TrackUris(base, recs);
      && o.result == Ok(TrackListing(base, p, recs))
      && o.caches.refs == c.refs[PageUri(base, page) := Some(o.result.value)]
      && o.requests == []
      && (forall u :: u in o.caches.tracks <==> u in c.tracks || u in uris)
      && (forall k :: 0 <= k < |recs| ==> Converted(uris, p, recs, k).Ok?)
      && (forall k :: 0 <= k < |recs| && LastWriteAt(uris, |recs|, k) ==>
            o.caches.tracks[uris[k]] == Converted(uris, p, recs, k).value)
      && (forall u :: u in c.tracks && u !in uris ==> o.caches.tracks[u] == c.tracks[u])
      && c.images.Keys <= o.caches.images.Keys
      && (forall k :: 0 <= k < |recs| && HasArtwork(recs[k]) ==> uris[k] in o.caches.images)
      && (forall k :: 0 <= k < |recs| && LastArtworkAt(uris, recs, |recs|, k) ==>
            o.caches.images[uris[k]] == Image(recs[k].artworkUrl))
      && (forall u :: u in o.caches.images && u !in c.images ==>
            exists k :: 0 <= k < |recs| && uris[k] == u && HasArtwork(recs[k]))
      && (forall u :: u in c.images && u !in uris ==> o.caches.images[u] == c.images[u])
  {
    var uris := TrackUris(base, recs);
    var o := ListPage(c, base, page, p, recs);
    assert o.caches.tracks == PageTracks(c.tracks, uris, p, recs, |recs|);
    assert o.caches.images == WithArtworks(c.images, uris, recs, |recs|);
    assert uris[..|recs|] == uris;
    PageTracksCover(c.tracks, uris, p, recs, |recs|);
    WithArtworksCover(c.images, uris, recs, |recs|);
  }

  /**
   * A page of tracks that loads completely is the listing of its records, is
   * cached under `base + ":" + page`, and every track entry of it resolves to a
   * record with that same address; nothing else of the listing cache changes,
   * the track cache gains exactly the page's addresses, and every address
   * outside the page keeps its track record and its image.
   */
  lemma {:induction false} LoadTrackPageSucceeds(c: Caches, s: Session, remote: Remote, path: string, base: string, page: string)
    requires LoadTrackPage(c, s, remote, path, base, page).result.Ok?
    ensures var o := LoadTrackPage(c, s, remote, path, base, page);
      var recs := remote.tracks(ApiRequest(s, path, page));
      && ParseInt(page).Ok?
      && o.result.value == TrackListing(base, ParseInt(page).value, recs)
      && o.caches.refs == c.refs[PageUri(base, page) := Some(o.result.value)]
      && o.result.value != []
      && (forall k :: 0 <= k < |recs| ==>
            var u := o.result.value[k].uri;
            u in o.caches.tracks && o.caches.tracks[u].uri == u)
      && (forall u :: u in o.caches.tracks <==> u in c.tracks || u in TrackUris(base, recs))
      && (forall u :: u in c.tracks && u !in TrackUris(base, recs) ==> o.caches.tracks[u] == c.tracks[u])
      && c.images.Keys <= o.caches.images.Keys
      && (forall u :: u in c.images && u !in TrackUris(base, recs) ==> o.caches.images[u] == c.images[u])
      && o.requests == [ApiRequest(s, path, page)]
  {
    var recs := remote.tracks(ApiRequest(s, path, page));
    var p := ParseInt(page).value;
    var uris := TrackUris(base, recs);
    assert FirstFailure(recs) == |recs|;
    assert uris[..|recs|] == uris;
    PageTracksCover(c.tracks, uris, p, recs, |recs|);
    WithArtworksCover(c.images, uris, recs, |recs|);
    forall k | 0 <= k < |recs|
      ensures TrackListing(base, p, recs)[k].uri == uris[k]
    {
      ListingEntry(base, p, recs, k);
    }
  }

  /**
   * What a page that loads completely stores: at the address of each record
   * that no later record shares, the record `TrackFromJson` builds for it with
   * its ordinal `TrackNo(p, k)` (so its name is `NN. title` and its `track_no`
   * is NN), and at the address of each record with artwork that no later
   * record with artwork shares, its artwork as the image.
   */
  lemma LoadTrackPageStores(c: Caches, s: Session, remote: Remote, path: string, base: string, page: string)
    requires LoadTrackPage(c, s, remote, path, base, page).result.Ok?
    ensures var o := LoadTrackPage(c, s, remote, path, base, page);
      var recs := remote.tracks(ApiRequest(s, path, page));
      var uris := TrackUris(base, recs);
      && ParseInt(page).Ok?
      && (forall k :: 0 <= k < |recs| ==> TrackFromJson(recs[k], TrackNo(ParseInt(page).value, k), uris[k]).Ok?)
      && (forall k :: 0 <= k < |recs| && LastWriteAt(uris, |recs|, k) ==>
            && uris[k] in o.caches.tracks
            && o.caches.tracks[uris[k]] == TrackFromJson(recs[k], TrackNo(ParseInt(page).value, k), uris[k]).value)
      && (forall k :: 0 <= k < |recs| && LastArtworkAt(uris, recs, |recs|, k) ==>
            uris[k] in o.caches.images && o.caches.images[uris[k]] == Image(recs[k].artworkUrl))
  {
    var recs := remote.tracks(ApiRequest(s, path, page));
    var uris := TrackUris(base, recs);
    var p := ParseInt(page).value;
    var l := ListPage(c, base, page, p, recs);
    assert LoadTrackPage(c, s, remote, path, base, page).caches == l.caches;
    assert FirstFailure(recs) == |recs|;
    assert l.caches.tracks == PageTracks(c.tracks, uris, p, recs, |recs|);
    assert l.caches.images == WithArtworks(c.images, uris, recs, |recs|);
    PageTracksCover(c.tracks, uris, p, recs, |recs|);
    WithArtworksLast(c.images, uris, recs, |recs|);
  }

  /**
   * A page that fails to load raises the error of its first bad record (or of
   * `int(page)`) and caches no listing.
   */
  lemma LoadTrackPageFails(c: Caches, s: Session, remote: Remote, path: string, base: string, page: string)
    requires LoadTrackPage(c, s, remote, path, base, page).result.Err?
    ensures var o := LoadTrackPage(c, s, remote, path, base, page);
      var recs := remote.tracks(ApiRequest(s, path, page));
      && o.caches.refs == c.refs
      && (ParseInt(page).Err? ==> o.result == Err(ParseInt(page).error) && o.caches == c)
      && (ParseInt(page).Ok? ==>
            var b := FirstFailure(recs);
            b < |recs| && o.result.error == Converted(TrackUris(base, recs), ParseInt(page).value, recs, b).error)
  {
  }

  /** Adding the track records of a page keeps the caches consistent. */
  lemma AddTracksConsistent(c: Caches, uris: seq<string>, page: int, recs: seq<TrackJson>, n: nat,
                            images: map<string, Image>)
    requires Consistent(c)
    requires |uris| == |recs| && n <= FirstFailure(recs)
    ensures Consistent(Caches(c.refs, PageTracks(c.tracks, uris, page, recs, n), images))
  {
    var m := PageTracks(c.tracks, uris, page, recs, n);
    PageTracksCover(c.tracks, uris, page, recs, n);
    forall u | u in c.refs && c.refs[u].Some?
      ensures Resolvable(c.refs[u].value, m)
    {
      ResolvableGrows(c.refs[u].value, c.tracks, m);
    }
  }

  /** Caching a listing whose track entries all resolve keeps the caches consistent. */
  lemma CacheListingConsistent(c: Caches, key: string, listing: seq<Ref>)
    requires Consistent(c) && Resolvable(listing, c.tracks)
    ensures Consistent(c.(refs := c.refs[key := Some(listing)]))
  {
  }

  lemma LoadTrackPageConsistent(c: Caches, s: Session, remote: Remote, path: string, base: string, page: string)
    requires Consistent(c)
    ensures Consistent(LoadTrackPage(c, s, remote, path, base, page).caches)
  {
    var o := LoadTrackPage(c, s, remote, path, base, page);
    var recs := remote.tracks(ApiRequest(s, path, page));
    if ParseInt(page).Ok? {
      var p := ParseInt(page).value;
      var uris := TrackUris(base, recs);
      var b := FirstFailure(recs);
      if b < |recs| {
        AddTracksConsistent(c, uris, p, recs, b, WithArtworks(c.images, uris, recs, b + 1));
      } else {
        var added := Caches(c.refs, PageTracks(c.tracks, uris, p, recs, |recs|), WithArtworks(c.images, uris, recs, |recs|));
        AddTracksConsistent(c, uris, p, recs, |recs|, added.images);
        LoadTrackPageSucceeds(c, s, remote, path, base, page);
        assert Resolvable(o.result.value, added.tracks);
        CacheListingConsistent(added, PageUri(base, page), o.result.value);
      }
    }
  }

  /**
   * The root listing is the feed entry and one entry per followed user, it is
   * cached under the root address, the feed entry's image is the session
   * avatar, every user entry has an image, which is that user's avatar unless
   * a later user has the same permalink, and every other address keeps the
   * image it had.
   */
  lemma LoadRootListing(c: Caches, s: Session, remote: Remote)
    ensures var o := LoadRoot(c, s, remote);
      var req := ApiRequest(s, "/" + s.username + "/following/", "1");
      var follows := remote.following(req);
      && o.result == Ok(RootListing(s, follows))
      && |o.result.value| == |follows| + 1
      && o.result.value[0] == DirectoryRef(FeedUri, FeedLabel + s.username)
      && (forall i :: 0 <= i < |follows| ==> o.result.value[i + 1] == UserRef(follows[i]))
      && o.caches.refs == c.refs[RootUri := Some(o.result.value)]
      && o.caches.tracks == c.tracks
      && FeedUri in o.caches.images && o.caches.images[FeedUri] == Image(Some(s.avatarUrl))
      && (forall i :: 0 <= i < |follows| ==> UserEntryUri(follows[i]) in o.caches.images)
      && (forall i :: 0 <= i < |follows| && LastPermalinkAt(follows, |follows|, i) ==>
            o.caches.images[UserEntryUri(follows[i])] == Image(follows[i].avatarUrl))
      && c.images.Keys <= o.caches.images.Keys
      && (forall u :: u in c.images && OffRoot(u, follows, |follows|) ==> o.caches.images[u] == c.images[u])
      && o.requests == [req]
  {
    var req := ApiRequest(s, "/" + s.username + "/following/", "1");
    var follows := remote.following(req);
    RootImagesCover(c.images, s, follows, |follows|);
    forall i | 0 <= i < |follows|
      ensures RootListing(s, follows)[i + 1] == UserRef(follows[i])
    {
      RootListingEntry(s, follows, i);
    }
  }

  lemma LoadRootConsistent(c: Caches, s: Session, remote: Remote)
    requires Consistent(c)
    ensures Consistent(LoadRoot(c, s, remote).caches)
  {
    var follows := remote.following(ApiRequest(s, "/" + s.username + "/following/", "1"));
    var listing := RootListing(s, follows);
    forall i | 0 <= i < |listing|
      ensures listing[i].DirectoryRef?
    {
      if i > 0 {
        RootListingEntry(s, follows, i - 1);
      }
    }
  }

  /** The invariant holds after every browse. */
  lemma BrowseConsistent(c: Caches, s: Session, remote: Remote, uri: string, lastRefresh: int, now: int)
    requires Consistent(c)
    ensures Consistent(Expire(c, lastRefresh, now))
    ensures Consistent(BrowseCached(Expire(c, lastRefresh, now), s, remote, uri).caches)
  {
    var e := Expire(c, lastRefresh, now);
    if !IsHit(e.refs, uri) {
      var r := RouteOf(uri);
      if r.RootPage? {
        LoadRootConsistent(e, s, remote);
      } else {
        LoadTrackPageConsistent(e, s, remote, Path(r), Base(r), r.page);
      }
    }
  }

  /**
   * Browsing the same address twice, with no refresh and no expiry in between,
   * returns the identical listing the second time, sends no request and changes
   * no cache, for any answers the remote service would give. This holds for an
   * address that is its own cache key (the root, `feed:<page>`,
   * `user:<user>:<page>`) and whose first browse succeeds: any other address is
   * cached under another key, and a failed browse caches nothing.
   */
  lemma {:induction false} BrowseTwice(c: Caches, s: Session, remote: Remote, remote': Remote, uri: string)
    requires KeyOf(uri) == uri
    requires BrowseCached(c, s, remote, uri).result.Ok?
    ensures var o := BrowseCached(c, s, remote, uri);
      BrowseCached(o.caches, s, remote', uri) == Outcome(o.result, o.caches, [])
  {
    var o := BrowseCached(c, s, remote, uri);
    if !IsHit(c.refs, uri) {
      var r := RouteOf(uri);
      if r.RootPage? {
        assert o.caches.refs[RootUri] == Some(o.result.value);
        assert o.result.value != [];
      } else {
        LoadTrackPageSucceeds(c, s, remote, Path(r), Base(r), r.page);
      }
    }
  }

  /**
   * A browse that does not expire the caches, following one that did, keeps
   * the freshness marker; so with the clock no more than a day past the last
   * flush, the second browse of an address that is its own cache key, after
   * a first browse that succeeded, is served from the cache.
   */
  lemma BrowseTwiceInTime(c: Caches, s: Session, remote: Remote, remote': Remote, uri: string,
                          lastRefresh: int, now: int, now': int)
    requires KeyOf(uri) == uri
    requires !Expired(NextRefresh(lastRefresh, now), now')
    requires BrowseCached(Expire(c, lastRefresh, now), s, remote, uri).result.Ok?
    ensures var o := BrowseCached(Expire(c, lastRefresh, now), s, remote, uri);
      && NextRefresh(NextRefresh(lastRefresh, now), now') == NextRefresh(lastRefresh, now)
      && BrowseCached(Expire(o.caches, NextRefresh(lastRefresh, now), now'), s, remote', uri)
         == Outcome(o.result, o.caches, [])
  {
    BrowseTwice(Expire(c, lastRefresh, now), s, remote, remote', uri);
  }
}
