/**
 * Base64 with the standard alphabet of RFC 4648, section 4: the encoder behind
 * `base64.b64encode` and the non-validating decoder behind `base64.b64decode`
 * (CPython's `binascii.a2b_base64` outside strict mode), which skips every
 * character outside the alphabet and stops at a complete pad sequence.
 */
module Base64 {
  import opened Results

  type Byte = b: int | 0 <= b < 256
  type Sextet = v: int | 0 <= v < 64

  const Pad: char := '='

  /** The character that stands for sextet `v`. */
  function Alphabet(v: Sextet): (c: char)
    ensures c != Pad && c != ':'
  {
    if v < 26 then ('A' as int + v) as char
    else if v < 52 then ('a' as int + (v - 26)) as char
    else if v < 62 then ('0' as int + (v - 52)) as char
    else if v == 62 then '+'
    else '/'
  }

  /** The sextet a character stands for; None for the characters the decoder skips. */
  function SextetOf(c: char): (r: Option<Sextet>)
    ensures r.Some? ==> c != Pad && c != ':'
  {
    if 'A' <= c <= 'Z' then Some(c as int - 'A' as int)
    else if 'a' <= c <= 'z' then Some(c as int - 'a' as int + 26)
    else if '0' <= c <= '9' then Some(c as int - '0' as int + 52)
    else if c == '+' then Some(62)
    else if c == '/' then Some(63)
    else None
  }

  /** Decoding a character of the alphabet gives back the sextet it encodes. */
  lemma AlphabetInverse(v: Sextet)
    ensures SextetOf(Alphabet(v)) == Some(v)
  {
  }

  /** Four output characters for every three input bytes, the last group padded with `=`. */
  function Encode(b: seq<Byte>): (s: string)
    ensures |s| == 4 * ((|b| + 2) / 3)
    ensures ':' !in s
    decreases |b|
  {
    if |b| == 0 then []
    else if |b| == 1 then
      [Alphabet(b[0] / 4), Alphabet(b[0] % 4 * 16), Pad, Pad]
    else if |b| == 2 then
      [Alphabet(b[0] / 4), Alphabet(b[0] % 4 * 16 + b[1] / 16), Alphabet(b[1] % 16 * 4), Pad]
    else
      [Alphabet(b[0] / 4), Alphabet(b[0] % 4 * 16 + b[1] / 16),
       Alphabet(b[1] % 16 * 4 + b[2] / 64), Alphabet(b[2] % 64)] + Encode(b[3..])
  }

  /**
   * The decoder's state between two input characters: the position inside the
   * current quad, the bits still owed to the next byte, the pad characters seen
   * since the last data character, and the bytes produced so far.
   */
  datatype Decoder = Decoder(quadPos: nat, leftChar: nat, pads: nat, out: seq<Byte>) {
    ghost predicate Valid() {
      quadPos < 4 && leftChar < 64 &&
      (quadPos == 2 ==> leftChar < 16) &&
      (quadPos == 3 ==> leftChar < 4)
    }
  }

  const Start := Decoder(0, 0, 0, [])

  /** One data character: completes a byte in every position of the quad but the first. */
  function Step(d: Decoder, v: Sextet): (e: Decoder)
    requires d.Valid()
    ensures e.Valid() && e.pads == 0 && e.quadPos == (d.quadPos + 1) % 4
    ensures |e.out| == |d.out| + (if d.quadPos == 0 then 0 else 1) && d.out <= e.out
  {
    match d.quadPos
    case 0 => Decoder(1, v, 0, d.out)
    case 1 => Decoder(2, v % 16, 0, d.out + [d.leftChar * 4 + v / 16])
    case 2 => Decoder(3, v % 4, 0, d.out + [d.leftChar * 16 + v / 4])
    case 3 => Decoder(0, 0, 0, d.out + [d.leftChar * 64 + v])
  }

  /** End of input: what is left of an unfinished quad decides between success and the two errors. */
  function Finish(d: Decoder): (r: Result<seq<Byte>>)
    ensures r.Ok? <==> d.quadPos == 0
    ensures r.Ok? ==> r.value == d.out
    ensures d.quadPos == 1 ==> r == Err(Base64Length)
    ensures d.quadPos >= 2 ==> r == Err(Base64Padding)
  {
    if d.quadPos == 0 then Ok(d.out)
    else if d.quadPos == 1 then Err(Base64Length)
    else Err(Base64Padding)
  }

  /** The decoding loop over the remaining characters `s`, from state `d`. */
  function Scan(s: string, d: Decoder): (r: Result<seq<Byte>>)
    requires d.Valid()
    ensures r.Ok? ==> d.out <= r.value
    decreases |s|
  {
    if |s| == 0 then Finish(d)
    else if s[0] == Pad then
      if d.quadPos >= 2 && d.quadPos + d.pads + 1 >= 4 then Ok(d.out)
      else Scan(s[1..], if d.quadPos >= 2 then d.(pads := d.pads + 1) else d)
    else match SextetOf(s[0])
      case None => Scan(s[1..], d)
      case Some(v) => Scan(s[1..], Step(d, v))
  }

  /** The number of characters of `s` that belong to the alphabet. */
  function DataCount(s: string): nat
    decreases |s|
  {
    if |s| == 0 then 0
    else (if SextetOf(s[0]).Some? then 1 else 0) + DataCount(s[1..])
  }

  /** The decoder after one character that is not the pad: a step for a data character, unchanged otherwise. */
  function Advance(d: Decoder, c: char): (e: Decoder)
    requires d.Valid()
    ensures e.Valid()
  {
    match SextetOf(c)
    case None => d
    case Some(v) => Step(d, v)
  }

  /** The first character of pad-free input advances the decoder and leaves pad-free input. */
  lemma ScanFirst(s: string, d: Decoder)
    requires d.Valid() && Pad !in s && |s| > 0
    ensures Pad !in s[1..]
    ensures Scan(s, d) == Scan(s[1..], Advance(d, s[0]))
  {
  }

  /** A skipped first character leaves both the quad position and the data count as they are. */
  lemma QuadSkip(s: string, d: Decoder)
    requires d.Valid() && |s| > 0 && SextetOf(s[0]).None?
    ensures (d.quadPos + DataCount(s)) % 4 == (Advance(d, s[0]).quadPos + DataCount(s[1..])) % 4
  {
    assert d == Advance(d, s[0]);
    assert DataCount(s) == DataCount(s[1..]);
  }

  /** A first data character moves the quad position by one and uses up one data character. */
  lemma QuadStep(s: string, d: Decoder)
    requires d.Valid() && |s| > 0 && SextetOf(s[0]).Some?
    ensures (d.quadPos + DataCount(s)) % 4 == (Advance(d, s[0]).quadPos + DataCount(s[1..])) % 4
  {
    AdvanceData(d, s[0]);
    QuadCount(d.quadPos, Advance(d, s[0]).quadPos, DataCount(s), DataCount(s[1..]));
  }

  /** A data character moves the quad position by one. */
  lemma AdvanceData(d: Decoder, c: char)
    requires d.Valid() && SextetOf(c).Some?
    ensures Advance(d, c) == Step(d, SextetOf(c).value)
    ensures Advance(d, c).quadPos == (d.quadPos + 1) % 4
  {
  }

  /** Advancing over the first character keeps the quad position the data characters reach. */
  lemma QuadAdvance(s: string, d: Decoder)
    requires d.Valid() && |s| > 0
    ensures (d.quadPos + DataCount(s)) % 4 == (Advance(d, s[0]).quadPos + DataCount(s[1..])) % 4
  {
    if SextetOf(s[0]).Some? {
      QuadStep(s, d);
    } else {
      QuadSkip(s, d);
    }
  }

  /** One more data character moves the quad position by one, modulo 4. */
  lemma QuadCount(q: nat, q': nat, m: nat, n: nat)
    requires q < 4 && q' == (q + 1) % 4 && m == n + 1
    ensures (q + m) % 4 == (q' + n) % 4
  {
    if q == 3 {
      assert q' == 0 && q + m == n + 4;
    }
  }

  /**
   * Input without a pad character decodes exactly when its data characters
   * complete the current quad; one data character past a quad boundary is a
   * length error, two or three are a padding error.
   */
  lemma {:induction false} ScanWithoutPad(s: string, d: Decoder)
    requires d.Valid() && Pad !in s
    ensures var q := (d.quadPos + DataCount(s)) % 4;
      && (Scan(s, d).Ok? <==> q == 0)
      && (q == 1 ==> Scan(s, d) == Err(Base64Length))
      && (q >= 2 ==> Scan(s, d) == Err(Base64Padding))
    decreases |s|
  {
    if |s| > 0 {
      ScanFirst(s, d);
      QuadAdvance(s, d);
      ScanWithoutPad(s[1..], Advance(d, s[0]));
    }
  }

  /**
   * `base64.b64decode(s)` with the default non-strict alphabet check:
   * characters outside the alphabet are skipped, and input without a pad
   * decodes exactly when its number of data characters is a multiple of four.
   */
  function Decode(s: string): (r: Result<seq<Byte>>)
    ensures Pad !in s ==> (r.Ok? <==> DataCount(s) % 4 == 0)
    ensures Pad !in s && DataCount(s) % 4 == 1 ==> r == Err(Base64Length)
    ensures Pad !in s && DataCount(s) % 4 >= 2 ==> r == Err(Base64Padding)
  {
    if Pad !in s then ScanWithoutPad(s, Start); Scan(s, Start) else Scan(s, Start)
  }

  /** A character outside the alphabet, other than the pad, is skipped wherever it stands. */
  lemma ScanSkips(c: char, s: string, d: Decoder)
    requires d.Valid() && c != Pad && SextetOf(c).None?
    ensures Scan([c] + s, d) == Scan(s, d)
  {
    assert ([c] + s)[1..] == s;
  }

  /** The three bytes of one full group are recovered from its four sextets. */
  lemma GroupArithmetic(b0: Byte, b1: Byte, b2: Byte)
    ensures (b0 / 4) * 4 + (b0 % 4 * 16 + b1 / 16) / 16 == b0
    ensures (b0 % 4 * 16 + b1 / 16) % 16 * 16 + (b1 % 16 * 4 + b2 / 64) / 4 == b1
    ensures (b1 % 16 * 4 + b2 / 64) % 4 * 64 + b2 % 64 == b2
  {
  }

  /** A data character moves the decoder one position through the quad. */
  lemma ScanData(v: Sextet, s: string, d: Decoder)
    requires d.Valid()
    ensures Scan([Alphabet(v)] + s, d) == Scan(s, Step(d, v))
  {
    AlphabetInverse(v);
    assert ([Alphabet(v)] + s)[1..] == s;
  }

  /** A full group of three bytes, decoded from a quad boundary. */
  lemma ScanGroup(b0: Byte, b1: Byte, b2: Byte, rest: string, out: seq<Byte>)
    ensures Scan([Alphabet(b0 / 4), Alphabet(b0 % 4 * 16 + b1 / 16),
                  Alphabet(b1 % 16 * 4 + b2 / 64), Alphabet(b2 % 64)] + rest, Decoder(0, 0, 0, out))
         == Scan(rest, Decoder(0, 0, 0, out + [b0, b1, b2]))
  {
    GroupArithmetic(b0, b1, b2);
    var v0: Sextet, v1: Sextet, v2: Sextet, v3: Sextet := b0 / 4, b0 % 4 * 16 + b1 / 16, b1 % 16 * 4 + b2 / 64, b2 % 64;
    var d0 := Decoder(0, 0, 0, out);
    var d1 := Step(d0, v0);
    var d2 := Step(d1, v1);
    var d3 := Step(d2, v2);
    var d4 := Step(d3, v3);
    assert d4 == Decoder(0, 0, 0, out + [b0, b1, b2]);
    var s3 := [Alphabet(v3)] + rest;
    var s2 := [Alphabet(v2)] + s3;
    var s1 := [Alphabet(v1)] + s2;
    assert [Alphabet(v0), Alphabet(v1), Alphabet(v2), Alphabet(v3)] + rest == [Alphabet(v0)] + s1;
    ScanData(v0, s1, d0);
    ScanData(v1, s2, d1);
    ScanData(v2, s3, d2);
    ScanData(v3, rest, d3);
  }

  /** A final group of one byte, padded with two `=`. */
  lemma ScanOne(b0: Byte, out: seq<Byte>)
    ensures Scan([Alphabet(b0 / 4), Alphabet(b0 % 4 * 16), Pad, Pad], Decoder(0, 0, 0, out)) == Ok(out + [b0])
  {
    GroupArithmetic(b0, 0, 0);
    var v0: Sextet, v1: Sextet := b0 / 4, b0 % 4 * 16;
    var d0 := Decoder(0, 0, 0, out);
    var d1 := Step(d0, v0);
    var d2 := Step(d1, v1);
    assert d2.quadPos == 2 && d2.pads == 0 && d2.out == out + [b0];
    assert [Alphabet(v0), Alphabet(v1), Pad, Pad] == [Alphabet(v0)] + ([Alphabet(v1)] + [Pad, Pad]);
    ScanData(v0, [Alphabet(v1)] + [Pad, Pad], d0);
    ScanData(v1, [Pad, Pad], d1);
    assert [Pad, Pad][1..] == [Pad];
    assert Scan([Pad, Pad], d2) == Scan([Pad], d2.(pads := 1));
  }

  /** A final group of two bytes, padded with one `=`. */
  lemma ScanTwo(b0: Byte, b1: Byte, out: seq<Byte>)
    ensures Scan([Alphabet(b0 / 4), Alphabet(b0 % 4 * 16 + b1 / 16), Alphabet(b1 % 16 * 4), Pad],
                 Decoder(0, 0, 0, out)) == Ok(out + [b0, b1])
  {
    GroupArithmetic(b0, b1, 0);
    var v0: Sextet, v1: Sextet, v2: Sextet := b0 / 4, b0 % 4 * 16 + b1 / 16, b1 % 16 * 4;
    var d0 := Decoder(0, 0, 0, out);
    var d1 := Step(d0, v0);
    var d2 := Step(d1, v1);
    var d3 := Step(d2, v2);
    assert d3.quadPos == 3 && d3.out == out + [b0, b1];
    var s2 := [Alphabet(v2)] + [Pad];
    var s1 := [Alphabet(v1)] + s2;
    assert [Alphabet(v0), Alphabet(v1), Alphabet(v2), Pad] == [Alphabet(v0)] + s1;
    ScanData(v0, s1, d0);
    ScanData(v1, s2, d1);
    ScanData(v2, [Pad], d2);
  }

  /** Scanning an encoded sequence from a quad boundary appends exactly the encoded bytes. */
  lemma {:induction false} ScanEncode(b: seq<Byte>, out: seq<Byte>)
    ensures Scan(Encode(b), Decoder(0, 0, 0, out)) == Ok(out + b)
    decreases |b|
  {
    if |b| == 0 {
      assert out + b == out;
    } else if |b| == 1 {
      ScanOne(b[0], out);
      assert b == [b[0]];
    } else if |b| == 2 {
      ScanTwo(b[0], b[1], out);
      assert b == [b[0], b[1]];
    } else {
      ScanGroup(b[0], b[1], b[2], Encode(b[3..]), out);
      ScanEncode(b[3..], out + [b[0], b[1], b[2]]);
      AppendGroup(out, b);
    }
  }

  /** Appending the first group and then the rest appends the whole sequence. */
  lemma AppendGroup(out: seq<Byte>, b: seq<Byte>)
    requires |b| >= 3
    ensures out + [b[0], b[1], b[2]] + b[3..] == out + b
  {
    assert b == [b[0], b[1], b[2]] + b[3..];
  }

  /** Decoding is a left inverse of encoding, for every byte sequence. */
  lemma {:induction false} DecodeEncode(b: seq<Byte>)
    ensures Decode(Encode(b)) == Ok(b)
  {
    ScanEncode(b, []);
    assert [] + b == b;
  }
}
