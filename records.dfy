/**
 * The data the library works on: the address constants of the catalogue, the
 * entries and track records it hands to the media player, the records the
 * remote service answers with, and the remote service itself, seen as a set of
 * deterministic functions from a request to its answer.
 */
module Records {
  import opened Results
  import opened Base64

  const HtUri := "hearthissimple:"
  const RootUri := HtUri + "root"
  const UserPrefix := HtUri + "user:"
  const FeedBase := HtUri + "feed"
  const HtApi := "https://api-v2.hearthis.at"
  const FeedLabel := "    Feed of "
  /** The page size the remote service is asked for. */
  const PageSize := 20
  /** Minutes after which every cached listing is dropped. */
  const CacheTimeMin := 60 * 24

  /** A catalogue entry: a browsable directory or a playable track. */
  datatype Ref = DirectoryRef(uri: string, name: string) | TrackRef(uri: string, name: string)

  /** Artwork: an image location, which the remote service may leave null. */
  datatype Image = Image(uri: Option<string>)
  datatype Album = Album(uri: string, name: string)
  datatype Artist = Artist(uri: string, name: string)

  /** The metadata record the player gets for a track entry. */
  datatype Track = Track(uri: string, name: string, album: Album, artists: seq<Artist>,
                         date: string, length: int, trackNo: int)

  /** A followed user as the remote service lists it. */
  datatype Follow = Follow(permalink: string, username: string, avatarUrl: Option<string>)

  datatype Uploader = Uploader(permalink: string, username: string)

  /** The JSON `duration` field, which may be a number or a numeric string. */
  datatype Duration = Number(seconds: int) | Numeral(text: string)

  /** A track as the remote service lists it; `streamUrl` holds the UTF-8 bytes of the URL. */
  datatype TrackJson = TrackJson(title: string, streamUrl: seq<Byte>, artworkUrl: Option<string>,
                                 user: Uploader, createdAt: string, duration: Duration)

  /** An authenticated GET of the remote service: its URL and its query parameters. */
  datatype Request = Request(url: string, secret: string, key: string, count: int, page: string)

  /** The answer to the login POST. */
  datatype LoginReply = LoginReply(status: int, secret: string, key: string, avatarUrl: string, username: string)

  /**
   * The remote service. `login` answers the login POST for an e-mail address and
   * a password; `following` and `tracks` answer a GET with the list it returns,
   * the empty list when the call or the parsing of its answer fails.
   */
  datatype Remote = Remote(login: (string, string) -> LoginReply,
                           following: Request -> seq<Follow>,
                           tracks: Request -> seq<TrackJson>)

  /** The session credentials and profile that login produces. */
  datatype Session = Session(username: string, secret: string, key: string, avatarUrl: string)

  /** The three caches of the library. */
  datatype Caches = Caches(refs: map<string, Option<seq<Ref>>>,
                           tracks: map<string, Track>,
                           images: map<string, Image>)
}
