/**
 * Building the player's track record from a track the remote service lists
 * (the pure part of `getTrackFromJSON`): the ordinal name, the uploader as both
 * album and artist, the duration in milliseconds and the date part of the
 * creation timestamp.
 */
module Tracks {
  import opened Results
  import opened Text
  import opened Records

  /**
   * `str(trackNo).zfill(2) + ". " + title`: the title after a dot and a
   * space, behind at least two characters that read back as a non-negative
   * ordinal; TrackNameNegative does the same for the negative ordinals of
   * page 0.
   */
  function TrackName(trackNo: int, title: string): (name: string)
    ensures |name| >= |title| + 4 && name[|name| - |title| - 2..] == ". " + title
    ensures trackNo >= 0 ==> ParseInt(name[..|name| - |title| - 2]) == Ok(trackNo)
  {
    var digits := ZFill(IntToString(trackNo), 2);
    var name := digits + ". " + title;
    assert name[..|digits|] == digits;
    if trackNo >= 0 then ZFillOrdinal(trackNo); name else name
  }

  /** A negative ordinal also reads back from the front of the name. */
  lemma TrackNameNegative(trackNo: int, title: string)
    requires trackNo < 0
    ensures var name := TrackName(trackNo, title);
      ParseInt(name[..|name| - |title| - 2]) == Ok(trackNo)
  {
    NegativeOrdinal(trackNo);
    var digits := IntToString(trackNo);
    var name := TrackName(trackNo, title);
    assert name == digits + ". " + title;
    assert name[..|name| - |title| - 2] == digits;
  }

  /** A negative ordinal is written with its sign and at least one digit, so `zfill(2)` keeps it. */
  lemma NegativeOrdinal(trackNo: int)
    requires trackNo < 0
    ensures ZFill(IntToString(trackNo), 2) == IntToString(trackNo)
    ensures ParseInt(IntToString(trackNo)) == Ok(trackNo)
  {
    assert |IntToString(trackNo)| >= 2;
    ParseIntToString(trackNo);
  }

  /**
   * A positive ordinal names the track with at least two digits, a dot and a
   * space in front of the title, and the digits read back as the ordinal.
   */
  lemma TrackNameOrdinal(trackNo: nat, title: string)
    ensures var digits := ZFill(IntToString(trackNo), 2);
      TrackName(trackNo, title) == digits + ". " + title &&
      |digits| >= 2 && IsDecimal(digits) && ParseInt(digits) == Ok(trackNo)
  {
    ZFillOrdinal(trackNo);
  }

  /** The first track of page 2 is number 21. */
  lemma TrackNameExample(title: string)
    ensures TrackName(21, title) == "21. " + title
    ensures TrackName(1, title) == "01. " + title
  {
    ZFillOrdinal(21);
    ZFillOrdinal(1);
    assert NatToString(21) == NatToString(2) + [DigitChar(1)];
  }

  /** `int(duration)` */
  function DurationSeconds(d: Duration): (r: Result<int>)
    ensures d.Number? ==> r == Ok(d.seconds)
    ensures d.Numeral? ==> r == ParseInt(d.text)
  {
    match d
    case Number(n) => Ok(n)
    case Numeral(t) => ParseInt(t)
  }

  /**
   * A duration the service writes as the numeral of a number, such as "180",
   * reads as that number, just as the number itself does.
   */
  lemma DurationNumeral(n: int)
    ensures DurationSeconds(Numeral(IntToString(n))) == Ok(n)
    ensures DurationSeconds(Numeral(IntToString(n))) == DurationSeconds(Number(n))
  {
    ParseIntToString(n);
  }

  /**
   * `s` has the shape `shape` character by character, where `d` in the shape
   * stands for any ASCII digit and any other character for itself.
   */
  predicate Matches(s: string, shape: string)
  {
    |s| == |shape| && forall k :: 0 <= k < |s| ==> if shape[k] == 'd' then IsDigit(s[k]) else s[k] == shape[k]
  }

  /** The value of the character `s[i]` read as a decimal digit. */
  function DigitAt(s: string, i: nat): int
    requires i < |s|
  {
    s[i] as int - '0' as int
  }

  /** The two-digit field at `s[i..i + 2]`. */
  function TwoDigits(s: string, i: nat): int
    requires i + 2 <= |s|
  {
    10 * DigitAt(s, i) + DigitAt(s, i + 1)
  }

  /** The four-digit year at the start of `s`. */
  function YearOf(s: string): int
    requires 4 <= |s|
  {
    1000 * DigitAt(s, 0) + 100 * DigitAt(s, 1) + 10 * DigitAt(s, 2) + DigitAt(s, 3)
  }

  const TimestampShape := "dddd-dd-dd dd:dd:dd"

  predicate IsLeapYear(y: int)
  {
    y % 4 == 0 && (y % 100 != 0 || y % 400 == 0)
  }

  function DaysInMonth(y: int, m: int): int
    requires 1 <= m <= 12
  {
    if m == 2 then (if IsLeapYear(y) then 29 else 28)
    else if m == 4 || m == 6 || m == 9 || m == 11 then 30
    else 31
  }

  /**
   * A timestamp `YYYY-MM-DD HH:MM:SS` written with every field at full width,
   * naming a real calendar day (year 1 onwards) and a time of day.
   */
  predicate WellFormedTimestamp(s: string)
  {
    && Matches(s, TimestampShape) && |s| == 19
    && 1 <= YearOf(s)
    && 1 <= TwoDigits(s, 5) <= 12
    && 1 <= TwoDigits(s, 8) <= DaysInMonth(YearOf(s), TwoDigits(s, 5))
    && TwoDigits(s, 11) < 24 && TwoDigits(s, 14) < 60 && TwoDigits(s, 17) < 60
  }

  /**
   * `strptime(s, "%Y-%m-%d %H:%M:%S").strftime("%Y-%m-%d")`: the year as the C
   * library prints it (no padding), then the month and day as written.
   */
  function CreatedDate(s: string): (r: Result<string>)
    ensures r.Ok? <==> WellFormedTimestamp(s)
    ensures r.Err? ==> r == Err(InvalidDate(s))
  {
    if WellFormedTimestamp(s) then Ok(IntToString(YearOf(s)) + s[4..10])
    else Err(InvalidDate(s))
  }

  lemma DecimalPositive(s: string)
    requires IsDecimal(s) && s[0] != '0'
    ensures DecimalValue(s) > 0
    decreases |s|
  {
    if |s| > 1 {
      DecimalPositive(s[..|s| - 1]);
    }
  }

  /** Digits without a leading zero are printed back as they are written. */
  lemma {:induction false} NatToStringOfDecimal(s: string)
    requires IsDecimal(s) && s[0] != '0'
    ensures NatToString(DecimalValue(s)) == s
    decreases |s|
  {
    if |s| > 1 {
      var front := s[..|s| - 1];
      DecimalPositive(front);
      NatToStringOfDecimal(front);
      var n := DecimalValue(s);
      assert n / 10 == DecimalValue(front) && n % 10 == DigitValue(s[|s| - 1]);
      assert s == front + [s[|s| - 1]];
    } else {
      assert s == [s[0]];
    }
  }

  /** Four digits read as a decimal number give the year they write. */
  lemma YearDecimal(s: string)
    requires 4 <= |s| && forall k :: 0 <= k < 4 ==> IsDigit(s[k])
    ensures var y := s[..4]; IsDecimal(y) && DecimalValue(y) == YearOf(s)
  {
    var y := s[..4];
    assert y[..3] == s[..3] && s[..3][..2] == s[..2] && s[..2][..1] == s[..1] && s[..1][..0] == [];
    assert DecimalValue(s[..1]) == DigitAt(s, 0);
    assert DecimalValue(s[..2]) == 10 * DigitAt(s, 0) + DigitAt(s, 1);
    assert DecimalValue(s[..3]) == 100 * DigitAt(s, 0) + 10 * DigitAt(s, 1) + DigitAt(s, 2);
  }

  /** For a year from 1000 on, the date is the first ten characters of the timestamp. */
  lemma CreatedDatePrefix(s: string)
    requires WellFormedTimestamp(s)
    ensures s[0] != '0' ==> CreatedDate(s) == Ok(s[..10])
  {
    if s[0] == '0' { return; }
    assert forall k :: 0 <= k < 4 ==> TimestampShape[k] == 'd';
    YearDecimal(s);
    NatToStringOfDecimal(s[..4]);
    assert IntToString(YearOf(s)) == s[..4];
    assert s[..10] == s[..4] + s[4..10];
  }

  /** A listed track whose duration and creation time both parse. */
  predicate Convertible(j: TrackJson)
  {
    DurationSeconds(j.duration).Ok? && WellFormedTimestamp(j.createdAt)
  }

  /** The record of a listed track, or the error that `int` or `strptime` raises. */
  function TrackFromJson(j: TrackJson, trackNo: int, uri: string): (r: Result<Track>)
    ensures r.Ok? <==> Convertible(j)
    ensures r.Err? ==> r.error == if DurationSeconds(j.duration).Err? then DurationSeconds(j.duration).error
                                  else InvalidDate(j.createdAt)
    ensures r.Ok? ==> && r.value.uri == uri
                      && r.value.trackNo == trackNo
                      && r.value.name == TrackName(trackNo, j.title)
                      && r.value.album == Album(UserPrefix + j.user.permalink, j.user.username)
                      && r.value.artists == [Artist(r.value.album.uri, r.value.album.name)]
                      && r.value.length == 1000 * DurationSeconds(j.duration).value
                      && (j.createdAt[0] != '0' ==> r.value.date == j.createdAt[..10])
  {
    var owner := UserPrefix + j.user.permalink;
    var album := Album(owner, j.user.username);
    var artist := Artist(owner, j.user.username);
    match DurationSeconds(j.duration)
    case Err(e) => Err(e)
    case Ok(seconds) =>
      match CreatedDate(j.createdAt)
      case Err(e) => Err(e)
      case Ok(date) =>
        CreatedDatePrefix(j.createdAt);
        Ok(Track(uri, TrackName(trackNo, j.title), album, [artist], date, seconds * 1000, trackNo))
  }
}
