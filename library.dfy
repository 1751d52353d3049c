/**
 * The library provider: the object that logs in to the remote service, keeps
 * the three caches and the time of the last flush, and answers the media
 * player's browse, lookup, image and search calls. Each state-changing method
 * is proved to leave exactly the state the functions of `Listing` describe.
 */
module Backend {
  import opened Results
  import opened Base64
  import opened Text
  import opened Records
  import opened Tracks
  import opened Listing

  /** The session after a login reply: status 200 installs the profile of the reply, any other status keeps the old one. */
  function LoggedIn(reply: LoginReply, before: Session): (s: Session)
    ensures reply.status == 200 ==> s == Session(reply.username, reply.secret, reply.key, reply.avatarUrl)
    ensures reply.status != 200 ==> s == before
  {
    if reply.status == 200 then Session(reply.username, reply.secret, reply.key, reply.avatarUrl) else before
  }

  class Library {
    const email: string
    const password: string
    var username: string
    var secret: string
    var key: string
    var avatarUrl: string
    var imageCache: map<string, Image>
    var trackCache: map<string, Track>
    /** A listing per address; `None` is what `refresh` leaves behind for one address. */
    var refCache: map<string, Option<seq<Ref>>>
    /** The clock reading, in minutes, of the last flush of `refCache`. */
    var lastRefresh: int
    /** Every GET sent to the remote service, oldest first. */
    ghost var requests: seq<Request>

    function CurrentSession(): Session
      reads this`username, this`secret, this`key, this`avatarUrl
    {
      Session(username, secret, key, avatarUrl)
    }

    function CurrentCaches(): Caches
      reads this`refCache, this`trackCache, this`imageCache
    {
      Caches(refCache, trackCache, imageCache)
    }

    ghost predicate Valid()
      reads this`refCache, this`trackCache, this`imageCache
    {
      Consistent(CurrentCaches())
    }

    /** Empty caches, the clock reading `now` as the last flush, then a login. */
    constructor (email: string, password: string, now: int, remote: Remote)
      ensures this.email == email && this.password == password
      ensures CurrentCaches() == Caches(map[], map[], map[]) && lastRefresh == now && requests == []
      ensures CurrentSession() == LoggedIn(remote.login(email, password), Session("", "", "", ""))
      ensures Valid()
    {
      this.email := email;
      this.password := password;
      username := "";
      imageCache := map[];
      trackCache := map[];
      refCache := map[];
      lastRefresh := now;
      secret := "";
      key := "";
      avatarUrl := "";
      requests := [];
      new;
      Login(remote);
    }

    /** The login POST; only a reply with status 200 changes the session. */
    method Login(remote: Remote)
      modifies this`username, this`secret, this`key, this`avatarUrl
      ensures CurrentSession() == LoggedIn(remote.login(email, password), old(CurrentSession()))
    {
      var r := remote.login(email, password);
      if r.status == 200 {
        secret := r.secret;
        key := r.key;
        avatarUrl := r.avatarUrl;
        username := r.username;
      }
    }

    /**
     * `browse(uri)`: first drop every listing if the last flush is more than a
     * day old, then serve the address from the cache or load it.
     */
    method Browse(uri: string, now: int, remote: Remote) returns (r: Result<seq<Ref>>)
      requires Valid()
      modifies this`refCache, this`trackCache, this`imageCache, this`lastRefresh, this`requests
      ensures Valid()
      ensures lastRefresh == NextRefresh(old(lastRefresh), now)
      ensures var o := BrowseCached(Expire(old(CurrentCaches()), old(lastRefresh), now), CurrentSession(), remote, uri);
        r == o.result && CurrentCaches() == o.caches && requests == old(requests) + o.requests
    {
      if now - lastRefresh > CacheTimeMin {
        Refresh("");
        lastRefresh := now;
      }
      if uri == RootUri {
        r := BrowseRoot(remote);
      } else if StartsWith(uri, FeedBase) {
        r := BrowseFeed(uri, remote);
      } else {
        r := BrowseUser(uri, remote);
      }
    }

    /** The root branch of `browse`: the cached root listing, or a fresh one. */
    method BrowseRoot(remote: Remote) returns (r: Result<seq<Ref>>)
      requires Valid()
      modifies this`refCache, this`trackCache, this`imageCache, this`requests
      ensures Valid()
      ensures var o := BrowseCached(old(CurrentCaches()), CurrentSession(), remote, RootUri);
        r == o.result && CurrentCaches() == o.caches && requests == old(requests) + o.requests
    {
      var uri := RootUri;
      if uri in refCache && refCache[uri].Some? && refCache[uri].value != [] {
        r := Ok(refCache[uri].value);
      } else {
        var refs := LoadRootDirectoryRefs(remote);
        r := Ok(refs);
      }
    }

    /** The feed branch of `browse`: the page is the text after the last `:`. */
    method BrowseFeed(uri: string, remote: Remote) returns (r: Result<seq<Ref>>)
      requires Valid() && StartsWith(uri, FeedBase)
      modifies this`refCache, this`trackCache, this`imageCache, this`requests
      ensures Valid()
      ensures var o := BrowseCached(old(CurrentCaches()), CurrentSession(), remote, uri);
        r == o.result && CurrentCaches() == o.caches && requests == old(requests) + o.requests
    {
      assert uri[15] == 'f' && RootUri[15] == 'r';
      if uri in refCache && refCache[uri].Some? && refCache[uri].value != [] {
        r := Ok(refCache[uri].value);
      } else {
        var t := RFind(uri, ':');
        var page := SliceFrom(uri, t + 1);
        assert RouteOf(uri) == FeedPage(page);
        r := LoadTrackRefs("/feed", FeedBase, page, remote);
      }
    }

    /** The user branch of `browse`: the page after the last `:`, the user between the last two. */
    method BrowseUser(uri: string, remote: Remote) returns (r: Result<seq<Ref>>)
      requires Valid() && uri != RootUri && !StartsWith(uri, FeedBase)
      modifies this`refCache, this`trackCache, this`imageCache, this`requests
      ensures Valid()
      ensures var o := BrowseCached(old(CurrentCaches()), CurrentSession(), remote, uri);
        r == o.result && CurrentCaches() == o.caches && requests == old(requests) + o.requests
    {
      if uri in refCache && refCache[uri].Some? && refCache[uri].value != [] {
        r := Ok(refCache[uri].value);
      } else {
        var t := RFind(uri, ':');
        var page := SliceFrom(uri, t + 1);
        var user := SliceTo(uri, t);
        user := SliceFrom(user, RFind(user, ':') + 1);
        assert page == AfterLast(uri, ':') && user == AfterLast(SliceTo(uri, t), ':');
        assert RouteOf(uri) == UserPage(user, page);
        r := LoadTrackRefs("/" + user + "?type=tracks", UserPrefix + user, page, remote);
      }
    }

    /** `loadRootDirectoryRefs()`: the feed entry, then one entry per followed user. */
    method LoadRootDirectoryRefs(remote: Remote) returns (refs: seq<Ref>)
      requires Valid()
      modifies this`refCache, this`imageCache, this`requests
      ensures Valid()
      ensures var o := LoadRoot(old(CurrentCaches()), CurrentSession(), remote);
        o.result == Ok(refs) && CurrentCaches() == o.caches && requests == old(requests) + o.requests
    {
      ghost var c0 := CurrentCaches();
      var s0 := CurrentSession();
      refs := [];
      var feedUri := FeedBase + ":1";
      var ref := DirectoryRef(feedUri, FeedLabel + username);
      imageCache := imageCache[feedUri := Image(Some(avatarUrl))];
      refs := refs + [ref];
      var req := ApiRequest(s0, "/" + username + "/following/", "1");
      var follows := remote.following(req);
      requests := requests + [req];
      assert feedUri == FeedUri;
      assert imageCache == RootImages(c0.images, s0, follows, 0);
      for i := 0 to |follows|
        invariant refs == [DirectoryRef(FeedUri, FeedLabel + s0.username)] + FollowRefs(follows, i)
        invariant imageCache == RootImages(c0.images, s0, follows, i)
        invariant refCache == c0.refs && requests == old(requests) + [req]
        invariant CurrentSession() == s0
      {
        var f := follows[i];
        var userUri := UserPrefix + f.permalink + ":1";
        ref := DirectoryRef(userUri, f.username);
        imageCache := imageCache[userUri := Image(f.avatarUrl)];
        assert ref == UserRef(follows[i]);
        refs := refs + [ref];
      }
      refCache := refCache[RootUri := Some(refs)];
      assert old(CurrentCaches()) == c0 && CurrentSession() == s0;
      assert LoadRoot(c0, s0, remote) == Outcome(Ok(refs), CurrentCaches(), [req]);
      LoadRootConsistent(c0, s0, remote);
    }

    /**
     * `loadTrackRefsFromHT(path, base, page)`: one entry and one track record
     * per record, then the next-page entry; the listing is cached only when
     * every record converts.
     */
    method LoadTrackRefs(path: string, base: string, page: string, remote: Remote) returns (r: Result<seq<Ref>>)
      requires Valid()
      modifies this`refCache, this`trackCache, this`imageCache, this`requests
      ensures Valid()
      ensures var o := LoadTrackPage(old(CurrentCaches()), CurrentSession(), remote, path, base, page);
        r == o.result && CurrentCaches() == o.caches && requests == old(requests) + o.requests
    {
      ghost var c0 := CurrentCaches();
      var s0 := CurrentSession();
      var req := ApiRequest(s0, path, page);
      var tracks := remote.tracks(req);
      requests := requests + [req];
      LoadTrackPageConsistent(c0, s0, remote, path, base, page);
      var parsed := ParseInt(page);
      if parsed.Err? {
        LoadTrackPageBadPage(c0, s0, remote, path, base, page);
        assert old(CurrentCaches()) == c0 && CurrentSession() == s0;
        return Err(parsed.error);
      }
      var p := parsed.value;
      r := ListTracks(base, page, p, tracks);
      LoadTrackPageParsed(c0, s0, remote, path, base, page, p);
    }

    /**
     * The rest of `loadTrackRefsFromHT`, once `int(page)` has given `p`: the
     * entries and records of the tracks, then the next-page entry and the
     * listing in the cache.
     */
    method ListTracks(base: string, page: string, p: int, tracks: seq<TrackJson>) returns (r: Result<seq<Ref>>)
      modifies this`refCache, this`trackCache, this`imageCache
      ensures var o := ListPage(old(CurrentCaches()), base, page, p, tracks);
        r == o.result && CurrentCaches() == o.caches
    {
      ghost var c0 := CurrentCaches();
      var refs, failure := AddPageTracks(base, p, tracks);
      if failure.Some? {
        return Err(failure.value);
      }
      var nextPage := p + 1;
      var ref := DirectoryRef(base + ":" + IntToString(nextPage), "Page " + IntToString(nextPage));
      refs := refs + [ref];
      refCache := refCache[base + ":" + page := Some(refs)];
      r := Ok(refs);
      ListPageComplete(c0, base, page, p, tracks);
    }

    /**
     * The loop of `loadTrackRefsFromHT`: for each record in turn, its track
     * entry, then its image and its track record; the first record that does
     * not convert stops the loop with its error, after its own image is cached.
     */
    method AddPageTracks(base: string, p: int, tracks: seq<TrackJson>) returns (refs: seq<Ref>, failure: Option<Error>)
      modifies this`trackCache, this`imageCache
      ensures var uris, b := TrackUris(base, tracks), FirstFailure(tracks);
        && trackCache == PageTracks(old(trackCache), uris, p, tracks, b)
        && (b < |tracks| ==> && failure == Some(Converted(uris, p, tracks, b).error)
                             && imageCache == WithArtworks(old(imageCache), uris, tracks, b + 1))
        && (b == |tracks| ==> && failure == None
                              && imageCache == WithArtworks(old(imageCache), uris, tracks, |tracks|)
                              && refs == TrackRefs(base, p, tracks, |tracks|))
    {
      ghost var uris := TrackUris(base, tracks);
      refs := [];
      var trackNo := (p - 1) * PageSize;
      var i := 0;
      while i < |tracks|
        invariant 0 <= i <= FirstFailure(tracks)
        invariant trackNo == (p - 1) * PageSize + i
        invariant refs == TrackRefs(base, p, tracks, i)
        invariant trackCache == PageTracks(old(trackCache), uris, p, tracks, i)
        invariant imageCache == WithArtworks(old(imageCache), uris, tracks, i)
      {
        trackNo := trackNo + 1;
        var trackRef, track := AddTrack(base, p, tracks, i, trackNo);
        refs := refs + [trackRef];
        if track.Err? {
          assert i == FirstFailure(tracks);
          return refs, Some(track.error);
        }
        PageTracksStep(old(trackCache), uris, p, tracks, i);
        i := i + 1;
      }
      assert i == FirstFailure(tracks);
      failure := None;
    }

    /**
     * One turn of that loop, for record `i` numbered `trackNo`: its entry at
     * the Base64 of its stream URL, its image, and its track record when it converts.
     */
    method AddTrack(base: string, p: int, tracks: seq<TrackJson>, i: nat, trackNo: int)
        returns (trackRef: Ref, track: Result<Track>)
      requires i <= FirstFailure(tracks) && i < |tracks| && trackNo == TrackNo(p, i)
      modifies this`trackCache, this`imageCache
      ensures var uri := TrackUris(base, tracks)[i];
        && trackRef == TrackEntry(base, p, tracks, i) && trackRef.uri == uri
        && track == Converted(TrackUris(base, tracks), p, tracks, i)
        && (track.Ok? <==> i < FirstFailure(tracks))
        && imageCache == WithArtwork(old(imageCache), uri, tracks[i])
        && trackCache == if track.Ok? then old(trackCache)[uri := track.value] else old(trackCache)
    {
      var trackJson := tracks[i];
      trackRef := TrackRef(base + ":" + Encode(trackJson.streamUrl), TrackName(trackNo, trackJson.title));
      TrackUrisAt(base, tracks, i);
      track := GetTrackFromJson(trackJson, trackNo, trackRef.uri);
      FirstFailureAt(tracks, i);
      if track.Ok? {
        trackCache := trackCache[trackRef.uri := track.value];
      }
    }

    /**
     * `getTrackFromJSON(j, trackNo, uri)`: a record with artwork first puts its
     * image in the cache, then its track record is built (or its conversion raises).
     */
    method GetTrackFromJson(j: TrackJson, trackNo: int, uri: string) returns (r: Result<Track>)
      modifies this`imageCache
      ensures imageCache == WithArtwork(old(imageCache), uri, j)
      ensures r == TrackFromJson(j, trackNo, uri)
    {
      if j.artworkUrl.Some? && j.artworkUrl.value != "" {
        var artwork := j.artworkUrl;
        imageCache := imageCache[uri := Image(artwork)];
      }
      r := TrackFromJson(j, trackNo, uri);
    }

    /** `refresh(uri)` */
    method Refresh(uri: string)
      requires Valid()
      modifies this`refCache
      ensures Valid()
      ensures refCache == Refreshed(old(refCache), uri)
    {
      if uri == "" {
        refCache := map[];
      } else {
        refCache := refCache[uri := None];
      }
    }

    /** `lookup(uri)`: the cached track record of the address, if there is one. */
    function Lookup(uri: string): (r: seq<Track>)
      reads this
      ensures |r| <= 1
      ensures r != [] <==> uri in trackCache
      ensures r != [] ==> r[0] == trackCache[uri]
      ensures Valid() ==> forall t :: t in r ==> t.uri == uri
    {
      if uri in trackCache then [trackCache[uri]] else []
    }

    /** Every track entry of a cached listing looks up to exactly one record, carrying the entry's address. */
    lemma CachedEntryLookup(listingUri: string, i: nat)
      requires Valid()
      requires listingUri in refCache && refCache[listingUri].Some?
      requires i < |refCache[listingUri].value| && refCache[listingUri].value[i].TrackRef?
      ensures var u := refCache[listingUri].value[i].uri;
        |Lookup(u)| == 1 && Lookup(u)[0].uri == u
    {
      assert Resolvable(refCache[listingUri].value, trackCache);
    }

    /** `get_images(uris)`: a singleton list of the cached image of every given address that has one. */
    method GetImages(uris: seq<string>) returns (ret: map<string, seq<Image>>)
      ensures ret.Keys == set u | u in uris && u in imageCache
      ensures forall u :: u in ret ==> ret[u] == [imageCache[u]]
    {
      ret := map[];
      for i := 0 to |uris|
        invariant ret.Keys == set u | u in uris[..i] && u in imageCache
        invariant forall u :: u in ret ==> ret[u] == [imageCache[u]]
      {
        var uri := uris[i];
        if uri in imageCache {
          var img := imageCache[uri];
          ret := ret[uri := [img]];
        }
        assert uris[..i + 1] == uris[..i] + [uri];
      }
      assert uris[..|uris|] == uris;
    }

    /** `search(...)`: this library offers no search. */
    function Search(query: map<string, seq<string>>, uris: seq<string>, exact: bool): (r: map<string, seq<Ref>>)
      ensures forall u :: u !in r
    {
      map[]
    }
  }
}
