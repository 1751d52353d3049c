# hearthissimple library provider, modelled in Dafny

This project is a model of the library and playback providers of
mopidy-hearthissimple, a Mopidy extension that lets a media player browse
hearthis.at. The model covers these parts:

- **Login.** The provider logs in once, with an e-mail address and a password.
- **Browsing.** The catalogue has three kinds of address:
  - the root address, which lists the user's own feed and the users they follow;
  - feed pages (`hearthissimple:feed:<page>`);
  - user pages (`hearthissimple:user:<user>:<page>`).

  A page lists every track record the service returns for it (the request
  asks for 20), then an entry for the next page.
- **Caches.** One cache holds listings, one holds track records and one holds
  images. All three are filled as a side effect of browsing.
- **Expiry.** Every listing is dropped when the last flush is more than a day old.
- **Other calls.** The model covers `refresh`, `lookup`, `get_images` and `search`.
- **Playback.** A track address carries the Base64 of the track's stream URL.
  `translate_uri` decodes it.

`Backend.Library` is a class with the fields of `HearthisSimpleLibrary`:
- the credentials and the session profile;
- `imageCache`, `trackCache` and `refCache` as maps;
- `lastRefresh` as an integer clock reading in minutes.

Its methods follow the source statement by statement. Each method is proved to
leave exactly the state that a function of the `Listing` module computes from
the old state, such as `LoadTrackPage`, `LoadRoot`, `BrowseCached` and `Expire`.
The properties of those functions are lemmas beside them:
- the listing shape and its numbering;
- the caching of complete pages only;
- the cache invariant (every cached track entry resolves to a track record
  under its own address);
- a second browse being served from the cache;
- the effect of `refresh`.

The remote service is the value `Records.Remote`. It is three deterministic
functions: the login reply for a pair of credentials, and the JSON list a GET
returns. A ghost field `requests` on the class records every GET that is sent.
This lets the lemmas say how many remote calls an operation makes.

Python semantics are written out where the addressing depends on them:
- `str.rfind` returns -1 when the character is absent;
- slices with negative or out-of-range bounds, so `uri[-1:]` is the last character;
- `str(int)` and `str.zfill`;
- `int(str)`, restricted to an optional sign followed by ASCII digits (see
  `Text.ParseInt` under "## Left out");
- the truthiness test `self.refCache[uri]`, under which an empty or `None`
  listing is a miss;
- CPython's non-strict `base64.b64decode`, which skips characters outside the
  alphabet and stops at padding.

Three behaviours of the code worth knowing:
- **The cut in `translate_uri`.**
  - The code slices from the last `:` itself (`uri[uri.rfind(":"):]`), not from
    the character after it. The `:` is then skipped by the non-strict decoder.
  - An address without `:` decodes only its last character.
  - `Playback.TranslateWithoutSeparator` states that this gives either no bytes
    or a length error.
- **Failed pages.** A record whose `duration` or `created_at` does not parse
  raises out of `browse`. Before it raises:
  - the earlier records' track records and images are cached;
  - the failing record's own image is cached.

  The exception is not caught, so `browse` returns no listing for that page,
  and no listing is cached for it. The model returns `Err` with the exception.
- **A bad page number.** If the page number is not an integer, `int(page)`
  raises after the GET has been sent. The model returns `Err` with the
  exception, and no cache changes.

## Model

| member | source | states |
|---|---|---|
| Base64.Encode | mopidy_hearthissimple/backend.py:156 | the encoding has length 4·⌈n/3⌉ and never contains `:`, so it can sit after the last `:` of an address |
| Base64.AlphabetInverse | mopidy_hearthissimple/backend.py:156 | every sextet's alphabet character decodes back to that sextet |
| Base64.Step | mopidy_hearthissimple/backend.py:246 | one data character advances the group position mod 4, resets the pad count and emits a byte from the second character of a group on |
| Base64.ScanWithoutPad | mopidy_hearthissimple/backend.py:246 | input with no `=` decodes exactly when its alphabet characters complete the current quad; one character past a quad boundary is a length error, two or three a padding error |
| Base64.Decode | mopidy_hearthissimple/backend.py:246 | `b64decode` of input without `=` succeeds exactly when its number of alphabet characters is a multiple of four; one more is a length error, two or three a padding error (`DecodeEncode` gives the round trip) |
| Base64.Scan | mopidy_hearthissimple/backend.py:246 | decoding only appends to the bytes already decoded |
| Base64.ScanSkips | mopidy_hearthissimple/backend.py:245-246 | a character outside the alphabet that is not `=` (such as the `:` the slice keeps) is skipped |
| Base64.ScanData | mopidy_hearthissimple/backend.py:246 | an alphabet character is one decoder step |
| Base64.GroupArithmetic | mopidy_hearthissimple/backend.py:156 | the sextets of a group of three bytes recombine into those bytes |
| Base64.ScanGroup | mopidy_hearthissimple/backend.py:156 | four characters of a full group decode to its three bytes |
| Base64.ScanOne | mopidy_hearthissimple/backend.py:156 | a final group of one byte and `==` decodes to that byte |
| Base64.ScanTwo | mopidy_hearthissimple/backend.py:156 | a final group of two bytes and `=` decodes to those bytes |
| Base64.AppendGroup | mopidy_hearthissimple/backend.py:156 | appending a group and then the rest appends the whole |
| Base64.ScanEncode | mopidy_hearthissimple/backend.py:156 | decoding the encoding of any bytes, after earlier output, appends exactly those bytes |
| Base64.DecodeEncode | mopidy_hearthissimple/backend.py:156 | `b64decode(b64encode(b)) == b` for every byte string |
| Text.RFind | mopidy_hearthissimple/backend.py:100 | the index of the last occurrence, or -1 when there is none |
| Text.Clamp | mopidy_hearthissimple/backend.py:101 | a slice bound inside the string is kept, one past the end becomes the length, and a negative bound counts from the end, stopping at 0 |
| Text.SliceFrom | mopidy_hearthissimple/backend.py:101 | `s[i:]` is a suffix of `s`: everything from `i` on for `i >= 0` (nothing past the end), the last `-i` characters for a negative bound (all of `s` when it is shorter) |
| Text.SliceTo | mopidy_hearthissimple/backend.py:112 | `s[:j]` is a prefix of `s`: the first `j` characters for `j >= 0` (all of `s` when it is shorter), all but the last `-j` for a negative bound (nothing when `s` is shorter) |
| Text.AfterLast | mopidy_hearthissimple/backend.py:110-113 | the text after the last separator is a suffix free of it, preceded by the separator, or the whole string when there is none |
| Text.RFindUnique | mopidy_hearthissimple/backend.py:110 | an occurrence with none after it is the one `rfind` reports |
| Text.RFindSeparator | mopidy_hearthissimple/backend.py:245 | in `prefix + ":" + t` with `t` free of `:`, `rfind` finds the separator |
| Text.AfterLastSeparator | mopidy_hearthissimple/backend.py:100-101 | the text after the last `:` of `prefix + ":" + t` is `t` |
| Text.DigitChar | mopidy_hearthissimple/backend.py:153 | a digit value is written as an ASCII digit |
| Text.DigitValue | mopidy_hearthissimple/backend.py:149 | an ASCII digit reads as a value below ten that writes back to it |
| Text.NatToString | mopidy_hearthissimple/backend.py:153 | `str(n)` of a natural number is never empty |
| Text.NatToStringDecimal | mopidy_hearthissimple/backend.py:153 | `str(n)` is all digits, reads back as `n`, and is one digit exactly below ten |
| Text.IntToString | mopidy_hearthissimple/backend.py:162 | `str(n)` is never empty |
| Text.ParseInt | mopidy_hearthissimple/backend.py:149 | `int(s)` fails only with the invalid-literal error of `s` |
| Text.ParseIntToString | mopidy_hearthissimple/backend.py:149-162 | `int(str(n)) == n` for every integer, so the next page number reads back |
| Text.Zeros | mopidy_hearthissimple/backend.py:153 | the padding has the requested length and every character of it is `0` |
| Text.DecimalValueLeadingZero | mopidy_hearthissimple/backend.py:153 | a leading zero does not change the value of a numeral |
| Text.ZFill | mopidy_hearthissimple/backend.py:153 | a string at least `width` long is kept; a shorter one becomes exactly `width` long: its sign first if it has one, then zeros, then the rest of it unchanged |
| Text.ZFillOrdinal | mopidy_hearthissimple/backend.py:153 | `str(n).zfill(2)` has at least two digits and reads back as `n`; below ten it is `0` and the digit, from ten on it is `str(n)` |
| Tracks.TrackName | mopidy_hearthissimple/backend.py:153 | the name ends with `. ` and the title, behind at least two characters that, for a non-negative ordinal, read back as the ordinal (the negative case is TrackNameNegative, kept apart so that every use of a name does not carry it) |
| Tracks.TrackNameNegative | mopidy_hearthissimple/backend.py:153 | a negative ordinal, as page 0 produces, also reads back from the front of the name |
| Tracks.NegativeOrdinal | mopidy_hearthissimple/backend.py:153 | a negative ordinal keeps its sign, is left unpadded by `zfill(2)` and reads back as itself |
| Tracks.TrackNameOrdinal | mopidy_hearthissimple/backend.py:153 | a track name is at least two digits reading back as the ordinal, `. `, then the title |
| Tracks.TrackNameExample | mopidy_hearthissimple/backend.py:149-153 | ordinal 21 is named `21. <title>` and ordinal 1 `01. <title>` |
| Tracks.DurationNumeral | mopidy_hearthissimple/backend.py:197 | a duration written as the numeral of a number reads as that number, the same as the number itself |
| Tracks.CreatedDate | mopidy_hearthissimple/backend.py:198-199 | the date succeeds exactly for a well-formed `%Y-%m-%d %H:%M:%S` timestamp, and fails with that string's error otherwise |
| Tracks.DecimalPositive | mopidy_hearthissimple/backend.py:199 | a numeral without a leading zero is positive |
| Tracks.NatToStringOfDecimal | mopidy_hearthissimple/backend.py:199 | a numeral without a leading zero is printed back as written |
| Tracks.YearDecimal | mopidy_hearthissimple/backend.py:198 | the four year digits read as a numeral give the year |
| Tracks.CreatedDatePrefix | mopidy_hearthissimple/backend.py:198-199 | for a year from 1000 on, the date is the first ten characters of the timestamp |
| Tracks.TrackFromJson | mopidy_hearthissimple/backend.py:188-209 | a record converts exactly when its duration and date parse, and the duration error comes first; the track record carries the given address and ordinal, the ordinal name, the uploader as album and as sole artist, the length in milliseconds and, for years from 1000 on, the date as the first ten characters of the timestamp |
| Listing.RouteOf | mopidy_hearthissimple/backend.py:87-113 | the root address alone routes to the root; an address with the feed prefix routes to a feed page, any other to a user page; the page is the tail after the last `:`, free of `:` and preceded by it, and the user is free of `:` (RouteOfCut pins the rest) |
| Listing.RouteOfCut | mopidy_hearthissimple/backend.py:100-113 | without a `:` the page is the whole address and the user all but its last character; with one, the user is the text after the last `:` of everything before the page's `:` |
| Listing.KeyOf | mopidy_hearthissimple/backend.py:137-164 | a listing is written under the root address exactly for the root route, and under a feed key exactly for a feed route |
| Listing.FeedPageRoute | mopidy_hearthissimple/backend.py:95-102 | `feed:<page>` is routed to that feed page and is its own cache key |
| Listing.UserPageRoute | mopidy_hearthissimple/backend.py:105-116 | `user:<user>:<page>` is routed to that user and page and is its own cache key |
| Listing.KeyOfRoute | mopidy_hearthissimple/backend.py:95-116 | the key of any address is routed like the address itself and is its own key |
| Listing.TrackUris | mopidy_hearthissimple/backend.py:154-156 | one track address per record |
| Listing.TrackUrisAt | mopidy_hearthissimple/backend.py:154-156 | the `k`-th address is the listing prefix, `:` and the Base64 of the `k`-th stream URL |
| Listing.TrackRefs | mopidy_hearthissimple/backend.py:150-158 | one track entry per record listed so far |
| Listing.TrackRefsPrefix | mopidy_hearthissimple/backend.py:150-158 | listing more records only appends entries |
| Listing.TrackRefsAt | mopidy_hearthissimple/backend.py:150-158 | the `k`-th entry is the entry of the `k`-th record |
| Listing.TrackListing | mopidy_hearthissimple/backend.py:150-163 | a page listing has one entry per record and then exactly one next-page entry, so it is never empty |
| Listing.ListingEntry | mopidy_hearthissimple/backend.py:149-157 | the `k`-th entry of page `p` is a track entry at the Base64 of the `k`-th stream URL, named with ordinal `(p-1)·20+k+1` |
| Listing.SecondPageNumbering | mopidy_hearthissimple/backend.py:149-153 | on page 2 the first track is named `21. <title>` |
| Listing.FirstFailureFrom | mopidy_hearthissimple/backend.py:150-160 | the first record from a position on that does not convert, or the end |
| Listing.FirstFailureFromBefore | mopidy_hearthissimple/backend.py:150-160 | every record between the start and the first failure converts |
| Listing.FirstFailureFromUnique | mopidy_hearthissimple/backend.py:150-160 | a position with only successes before it and a failure (or the end) at it is the first failure |
| Listing.FirstFailure | mopidy_hearthissimple/backend.py:150-160 | the record that stops the loop does not convert |
| Listing.FirstFailureBefore | mopidy_hearthissimple/backend.py:150-160 | every record before the one that stops the loop converts |
| Listing.FirstFailureUnique | mopidy_hearthissimple/backend.py:150-160 | the stopping record is characterised uniquely |
| Listing.FirstFailureAt | mopidy_hearthissimple/backend.py:159 | up to the stopping record, a record converts exactly when it comes before it |
| Listing.ConvertedTracks | mopidy_hearthissimple/backend.py:159 | one track record per record before the first failure |
| Listing.ConvertedTracksAt | mopidy_hearthissimple/backend.py:159-160 | the `k`-th track record is the conversion of the `k`-th record and carries its entry's address |
| Listing.WithTracksCover | mopidy_hearthissimple/backend.py:160 | storing the records leaves exactly the old addresses and the page's, each page address holding a record that carries it, namely the last record written there, and every other address keeping its old record |
| Listing.WithTracksLast | mopidy_hearthissimple/backend.py:160 | each page address holds the last record written there |
| Listing.PageTracksStep | mopidy_hearthissimple/backend.py:159-160 | one more converting record stores its track record under its address |
| Listing.PageTracksCover | mopidy_hearthissimple/backend.py:159-160 | after a page's records the track cache has exactly the old addresses and the page's; every record converts; each page address holds the conversion of the last record listed there, carrying that address; every other address keeps its record |
| Listing.WithArtworksCover | mopidy_hearthissimple/backend.py:185-187 | after a page's records no image is lost, every record with artwork has an image, which is `Image(artwork_url)` of the last such record at its address, each new image belongs to such a record, and every address outside the page keeps its image |
| Listing.WithArtworksLast | mopidy_hearthissimple/backend.py:185-187 | each address holds `Image(artwork_url)` of the last record with artwork written there |
| Listing.FollowRefs | mopidy_hearthissimple/backend.py:130-135 | one entry per followed user listed so far |
| Listing.FollowRefsAt | mopidy_hearthissimple/backend.py:130-135 | the `i`-th of them is the entry of the `i`-th followed user |
| Listing.RootListing | mopidy_hearthissimple/backend.py:124-135 | the root listing has the feed entry, labelled with the user's name, and one entry per followed user |
| Listing.RootListingEntry | mopidy_hearthissimple/backend.py:131-132 | after the feed entry comes each followed user's first page, under their name, in order |
| Listing.UserEntryIsNotFeed | mopidy_hearthissimple/backend.py:124-131 | no user entry has the feed entry's address |
| Listing.UserEntryInjective | mopidy_hearthissimple/backend.py:131 | two user entries share an address only when the users share a permalink |
| Listing.RootImagesCover | mopidy_hearthissimple/backend.py:126-133 | the feed entry's image is the session avatar, each followed user gets an image, which is their own avatar unless a later user has the same permalink, no image is lost, and every other address keeps its image |
| Listing.RootImagesOnly | mopidy_hearthissimple/backend.py:126-133 | the root listing adds images under the feed and user entries only |
| Listing.Refreshed | mopidy_hearthissimple/backend.py:211-218 | `refresh("")` empties the listing cache; `refresh(uri)` marks that address absent and keeps every other listing |
| Listing.RefreshMisses | mopidy_hearthissimple/backend.py:211-218 | after a refresh the refreshed address is a miss, a full refresh makes everything a miss, and a single-address refresh leaves every other hit or miss as it was |
| Listing.Expire | mopidy_hearthissimple/backend.py:81-84 | data older than 1440 minutes drops every listing but keeps track records and images; younger data is left alone |
| Listing.NextRefresh | mopidy_hearthissimple/backend.py:81-83 | after the age check the data is never more than 1440 minutes old; the marker never moves back, and it moves only to the current time and only when the data was stale |
| Listing.ResolvableGrows | mopidy_hearthissimple/backend.py:158-160 | a listing whose track entries resolve still resolves when the track cache grows |
| Listing.LoadTrackPage | mopidy_hearthissimple/backend.py:144-165 | exactly one GET; a page number that does not parse raises and changes no cache; a failure caches no listing; a success is a non-empty listing cached under `base:page` alone |
| Listing.ListPage | mopidy_hearthissimple/backend.py:149-165 | no GET; the records are listed exactly when all of them convert, as the page listing cached under `base:page`; a failure leaves the listing cache alone |
| Listing.ListPageBadRecord | mopidy_hearthissimple/backend.py:150-160 | a bad record raises its own error and no listing is cached, but the records before it stay written: the track cache gains exactly their addresses, holding their conversions, other records are kept, and images are added only for them and the bad record, whose own artwork is written last |
| Listing.ListPageComplete | mopidy_hearthissimple/backend.py:150-165 | a page whose records all convert is its listing, cached under `base:page`; the track cache gains exactly the page's addresses, each holding the conversion of the last record there; images are added only for records with artwork, each the artwork of the last one there; every other address keeps what it had |
| Listing.LoadTrackPageSucceeds | mopidy_hearthissimple/backend.py:144-165 | a loaded page is the listing of its records, cached under `base:page` alone; every track entry of it has a track record with that address; the track cache gains exactly the page's addresses; every other address keeps its track record and its image; exactly one GET |
| Listing.LoadTrackPageStores | mopidy_hearthissimple/backend.py:159-187 | after a loaded page, each address holds the record `TrackFromJson` builds for the last record listed there, with ordinal `TrackNo(p, k)` as name prefix and `track_no`, and the artwork of the last record with artwork there as its image |
| Listing.LoadTrackPageFails | mopidy_hearthissimple/backend.py:147-160 | a failed page caches no listing and raises the error of `int(page)` or of its first bad record |
| Listing.AddTracksConsistent | mopidy_hearthissimple/backend.py:159-160 | storing a page's track records keeps the cache invariant |
| Listing.CacheListingConsistent | mopidy_hearthissimple/backend.py:164 | caching a listing whose track entries resolve keeps the cache invariant |
| Listing.LoadTrackPageConsistent | mopidy_hearthissimple/backend.py:144-165 | loading a page, completely or not, keeps the cache invariant |
| Listing.LoadRootListing | mopidy_hearthissimple/backend.py:120-137 | the root listing is the feed entry then one entry per followed user; it is cached under the root address; track records are untouched; the feed image is the session avatar; every user entry has an image, their avatar unless a later user shares the permalink; no image is lost and every other address keeps its image; one GET |
| Listing.LoadRoot | mopidy_hearthissimple/backend.py:120-137 | the root always loads, as a non-empty listing cached under the root address, with one GET and no track record changed |
| Listing.LoadRootConsistent | mopidy_hearthissimple/backend.py:120-137 | loading the root keeps the cache invariant |
| Listing.BrowseConsistent | mopidy_hearthissimple/backend.py:69-118 | expiry and every browse keep the cache invariant |
| Listing.BrowseCached | mopidy_hearthissimple/backend.py:87-118 | a hit returns the cached listing with no GET and no change; a miss sends one GET; a returned listing is never empty; a failure caches no listing; a successful miss caches its listing under the address's key |
| Listing.BrowseTwice | mopidy_hearthissimple/backend.py:89-116 | for an address that is its own cache key (`KeyOf(uri) == uri`: the root, `feed:<page>`, `user:<user>:<page>`) and whose first browse succeeds, the second browse returns the identical listing with no GET and no cache change, whatever the remote service would answer |
| Listing.BrowseTwiceInTime | mopidy_hearthissimple/backend.py:72-116 | for an address that is its own cache key and whose first browse succeeds, with no expiry between the two browses, the second keeps the freshness marker and is served from the cache |
| Backend.Library.constructor | mopidy_hearthissimple/backend.py:38-51 | empty caches, the marker at the current time, no GET sent, then the login |
| Backend.Library.Login | mopidy_hearthissimple/backend.py:53-67 | the session becomes `LoggedIn` of the reply to the credentials: a 200 reply installs its secret, key, avatar and user name, any other status keeps the old session; nothing but the session changes |
| Backend.Library.Browse | mopidy_hearthissimple/backend.py:69-118 | the result, caches and GETs are those of `BrowseCached` after `Expire`; the marker is `NextRefresh`; the cache invariant is kept |
| Backend.Library.BrowseRoot | mopidy_hearthissimple/backend.py:87-92 | the root branch: the cached root listing on a hit, a fresh load on a miss |
| Backend.Library.BrowseFeed | mopidy_hearthissimple/backend.py:95-102 | the feed branch: the cached listing on a hit, on a miss the page after the last `:` of the feed |
| Backend.Library.BrowseUser | mopidy_hearthissimple/backend.py:105-116 | the user branch: the cached listing on a hit, on a miss the page after the last `:` of the user between the last two |
| Backend.Library.LoadRootDirectoryRefs | mopidy_hearthissimple/backend.py:120-142 | the loop builds exactly `LoadRoot`'s listing, images and GET, and keeps the invariant |
| Backend.Library.LoadTrackRefs | mopidy_hearthissimple/backend.py:144-165 | the result, caches and GET are exactly `LoadTrackPage`'s, and the invariant is kept |
| Backend.Library.ListTracks | mopidy_hearthissimple/backend.py:149-165 | the result and caches are exactly `ListPage`'s |
| Backend.Library.AddPageTracks | mopidy_hearthissimple/backend.py:149-160 | the loop stores the records before the first failure and the images up to and including it, then stops with that record's error; without one it returns every track entry |
| Backend.Library.AddTrack | mopidy_hearthissimple/backend.py:151-160 | one turn: the record's entry and address, its image, and its track record exactly when it converts |
| Backend.Library.GetTrackFromJson | mopidy_hearthissimple/backend.py:184-209 | the artwork is cached before the conversion, which may raise |
| Backend.Library.Refresh | mopidy_hearthissimple/backend.py:211-218 | only the listing cache changes, to `Refreshed`, so track records and images survive and the invariant is kept |
| Backend.Library.Lookup | mopidy_hearthissimple/backend.py:220-226 | `[track]` when the address is cached and `[]` otherwise; the record carries the address asked for |
| Backend.Library.CachedEntryLookup | mopidy_hearthissimple/backend.py:220-226 | every track entry of a cached listing looks up to exactly one record with that address |
| Backend.Library.GetImages | mopidy_hearthissimple/backend.py:228-236 | the keys are exactly the given addresses that have an image, each mapped to a singleton of its image |
| Backend.Library.Search | mopidy_hearthissimple/backend.py:238-239 | the result is empty whatever the query |
| Playback.TranslateTrackUri | mopidy_hearthissimple/backend.py:243-246 | translating a track address gives back exactly the stream URL encoded in it |
| Playback.ListingEntryPlays | mopidy_hearthissimple/backend.py:150-157 | every track entry of a page listing plays the stream URL of its record |
| Playback.TranslateUri | mopidy_hearthissimple/backend.py:243-248 | for an address with a `:`, exactly the text after the last `:` is decoded, the `:` the slice keeps being skipped |
| Playback.TranslateWithoutSeparator | mopidy_hearthissimple/backend.py:245-246 | an address without `:` decodes its last character alone, giving no bytes or a length error |

## Left out

- HTTP, JSON and the actor runtime (`htAPICall` at lines 167-182, `requests`,
  `pykka`) are not modelled. The remote service is a parameter of deterministic
  functions. A failed or unparsable call is modelled as the empty list that
  `htAPICall` returns.
- A response that is not a list is not modelled. This includes the `{}` that
  `htAPICall` returns on error, which iterates as empty anyway. Records with a
  missing key are not modelled either: every record has every field.
- The clock is not modelled. `browse` takes the current time as integer
  minutes, so the `round` of fractional minutes at line 72 is not modelled.
- Logging is not modelled. This includes the debug call at line 247, which
  would raise on bytes that are not UTF-8.
- UTF-8 is not modelled. Stream URLs are byte strings, and `Playback.TranslateUri`
  returns the decoded bytes without the final `.decode()`.
- The decoder skips a non-ASCII character as one character. CPython would skip
  its UTF-8 bytes one by one, with the same effect.
- `Tracks.CreatedDate` accepts only the fixed-width form `YYYY-MM-DD HH:MM:SS`.
  `strptime` also accepts fields written with fewer digits, which the model
  treats as errors.
- Text.ParseInt: accepts only an optional sign followed by ASCII digits, while
  Python's `int()` also accepts surrounding whitespace, `_` between digits and
  non-ASCII decimal digits. This affects both of its uses: the page number at
  lines 149 and 161 (`hearthissimple:feed: 2` loads page 2 in the code and
  raises in the model) and a duration given as a string at line 197.
- Tracks.DurationSeconds: does not model float durations.
- JSON values of the wrong type are not modelled. Every field of a record is
  a string (the duration a number or a numeral), and so is every field of a
  followed user. In the code a `null` value raises `TypeError` out of
  `browse`: `title` at line 153, the uploader's `permalink` at line 189 (after
  the record's image is cached), `duration` at line 197 and `created_at` at
  line 198. A followed user whose `permalink` is `null` raises at line 131,
  which the handlers of `loadRootDirectoryRefs` do not catch, so the root can
  fail to load in the code but never in the model.
- The exception handlers of `loadRootDirectoryRefs` (lines 138-141) are not
  modelled. `htAPICall` already catches every transport and JSON error. The
  handler at line 141 refers to an undefined `r`.
- The ways login can raise are not modelled: a transport error, or a 200 reply
  whose body is not the expected JSON.
- `get_images`' `img is not None` test is not modelled. The image cache only
  ever holds `Image` values, so the test never drops anything.
- The Mopidy classes `Ref`, `Track`, `Album`, `Artist` and `Image` are plain
  datatypes, so their validation is not modelled. `HearthisSimpleBackend`, the
  class attribute `root_directory` and `__init__.py` are not part of this model.
- `Backend.Library.Lookup` takes one address, as the source's `lookup` does,
  rather than a list of addresses.
