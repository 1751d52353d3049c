/**
 * `translate_uri` of the playback provider: the address of a track entry is
 * turned back into the stream URL it was built from, by Base64-decoding
 * everything from its last `:` on.
 */
module Playback {
  import opened Results
  import opened Text
  import opened Base64
  import opened Records
  import opened Listing

  /**
   * `base64.b64decode(uri[uri.rfind(":"):].encode())`: the slice keeps the
   * last `:` itself, which the decoder skips like every other character
   * outside the alphabet; without any `:` the slice is the last character.
   */
  function TranslateUri(uri: string): (r: Result<seq<Byte>>)
    ensures ':' in uri ==> r == Decode(AfterLast(uri, ':'))
  {
    SeparatorSkipped(uri);
    Decode(SliceFrom(uri, RFind(uri, ':')))
  }

  /** The last `:` that the slice keeps decodes to nothing: only the text after it counts. */
  lemma SeparatorSkipped(uri: string)
    ensures ':' in uri ==> Decode(SliceFrom(uri, RFind(uri, ':'))) == Decode(AfterLast(uri, ':'))
  {
    if ':' in uri {
      var t := RFind(uri, ':');
      assert t >= 0;
      assert SliceFrom(uri, t) == [':'] + uri[t + 1..];
      assert AfterLast(uri, ':') == uri[t + 1..];
      ScanSkips(':', uri[t + 1..], Start);
    }
  }

  /** The address of a listed track translates to the bytes of that track's stream URL. */
  lemma TranslateTrackUri(base: string, j: TrackJson)
    ensures TranslateUri(TrackUri(base, j)) == Ok(j.streamUrl)
  {
    var e := Encode(j.streamUrl);
    var uri := base + [':'] + e;
    assert TrackUri(base, j) == uri;
    RFindSeparator(base, ':', e);
    assert SliceFrom(uri, |base|) == [':'] + e;
    ScanSkips(':', e, Start);
    DecodeEncode(j.streamUrl);
  }

  /** Every track entry of a page's listing plays the stream URL of its record. */
  lemma ListingEntryPlays(base: string, page: int, recs: seq<TrackJson>, k: nat)
    requires k < |recs|
    ensures TranslateUri(TrackListing(base, page, recs)[k].uri) == Ok(recs[k].streamUrl)
  {
    ListingEntry(base, page, recs, k);
    TrackUrisAt(base, recs, k);
    TranslateTrackUri(base, recs[k]);
  }

  /**
   * An address without any `:` leaves at most its last character to decode,
   * which gives no bytes at all or a length error, never a stream URL.
   */
  lemma TranslateWithoutSeparator(uri: string)
    requires ':' !in uri
    ensures TranslateUri(uri) == Ok([]) || TranslateUri(uri) == Err(Base64Length)
  {
    assert RFind(uri, ':') == -1;
    if |uri| == 0 {
      assert SliceFrom(uri, -1) == [];
    } else {
      var c := uri[|uri| - 1];
      assert SliceFrom(uri, -1) == [c];
      assert [c][1..] == [];
      if c == Pad {
        assert Scan([c], Start) == Scan([], Start);
      } else if SextetOf(c).None? {
        assert Scan([c], Start) == Scan([], Start);
      } else {
        assert Scan([c], Start) == Scan([], Step(Start, SextetOf(c).value));
      }
    }
  }
}
