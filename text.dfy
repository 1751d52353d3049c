/**
 * The string operations of Python that the library's addressing relies on:
 * `str.rfind`, slicing with negative or out-of-range bounds, `str.startswith`,
 * `str(int)`, `int(str)` and `str.zfill`.
 */
module Text {
  import opened Results

  /** `s.rfind(c)`: the index of the last occurrence of `c`, or -1. */
  function RFind(s: string, c: char): (i: int)
    ensures -1 <= i < |s|
    ensures i >= 0 ==> s[i] == c
    ensures forall j :: i < j < |s| ==> s[j] != c
    decreases |s|
  {
    if |s| == 0 then -1
    else if s[|s| - 1] == c then |s| - 1
    else RFind(s[..|s| - 1], c)
  }

  /** The index Python uses for a slice bound `i` on a string of length `n`. */
  function Clamp(i: int, n: nat): (k: nat)
    ensures k <= n
    ensures 0 <= i <= n ==> k == i
    ensures i > n ==> k == n
    ensures i < 0 ==> k == if n + i < 0 then 0 else n + i
  {
    if i < 0 then (if n + i < 0 then 0 else n + i)
    else if i > n then n
    else i
  }

  /**
   * `s[i:]`: a suffix of `s`; from a bound `i >= 0` everything from position
   * `i` on (nothing past the end), from a negative bound the last `-i`
   * characters (all of `s` when it is shorter).
   */
  function SliceFrom(s: string, i: int): (t: string)
    ensures |t| <= |s| && s[|s| - |t|..] == t
    ensures i >= 0 ==> |t| == if i >= |s| then 0 else |s| - i
    ensures i < 0 ==> |t| == if -i >= |s| then |s| else -i
  {
    s[Clamp(i, |s|)..]
  }

  /**
   * `s[:j]`: a prefix of `s`; for a bound `j >= 0` the first `j` characters
   * (all of `s` when it is shorter), for a negative bound all but the last
   * `-j` (nothing when `s` is shorter).
   */
  function SliceTo(s: string, j: int): (t: string)
    ensures |t| <= |s| && s[..|t|] == t
    ensures j >= 0 ==> |t| == if j >= |s| then |s| else j
    ensures j < 0 ==> |t| == if -j >= |s| then 0 else |s| + j
  {
    s[..Clamp(j, |s|)]
  }

  /** `s[i:]` where `i` is the index just after the last `c`: the text after the last `c`. */
  function AfterLast(s: string, c: char): (t: string)
    ensures c !in t
    ensures |t| <= |s| && s[|s| - |t|..] == t
    ensures c in s ==> |t| < |s| && s[|s| - |t| - 1] == c
    ensures c !in s ==> t == s
  {
    SliceFrom(s, RFind(s, c) + 1)
  }

  /** `rfind` reports -1 for a character that does not occur. */
  lemma RFindAbsent(s: string, c: char)
    requires c !in s
    ensures RFind(s, c) == -1
  {
  }

  /** A prefix of a text without `c` has no `c` either. */
  lemma PrefixLacks(s: string, n: nat, c: char)
    requires n <= |s| && c !in s
    ensures c !in s[..n]
  {
    forall i | 0 <= i < n ensures s[..n][i] != c { assert s[..n][i] == s[i]; }
  }

  /** An occurrence of `c` with no `c` after it is the one `RFind` reports. */
  lemma RFindUnique(s: string, c: char, k: nat)
    requires k < |s| && s[k] == c
    requires forall j :: k < j < |s| ==> s[j] != c
    ensures RFind(s, c) == k
  {
  }

  /** The last `c` of `prefix + [c] + t` is the one after `prefix` when `t` holds no `c`. */
  lemma RFindSeparator(prefix: string, c: char, t: string)
    requires c !in t
    ensures RFind(prefix + [c] + t, c) == |prefix|
  {
    var s := prefix + [c] + t;
    assert s[|prefix|] == c;
    assert s[|prefix| + 1..] == t;
    forall j | |prefix| < j < |s|
      ensures s[j] != c
    {
      assert s[j] == t[j - |prefix| - 1];
    }
    RFindUnique(s, c, |prefix|);
  }

  /** The text after the last `c` of `prefix + [c] + t` is `t` when `t` holds no `c`. */
  lemma AfterLastSeparator(prefix: string, c: char, t: string)
    requires c !in t
    ensures AfterLast(prefix + [c] + t, c) == t
  {
    var s := prefix + [c] + t;
    RFindSeparator(prefix, c, t);
    calc {
      AfterLast(s, c);
      SliceFrom(s, |prefix| + 1);
      s[|prefix| + 1..];
      t;
    }
  }

  predicate StartsWith(s: string, prefix: string)
  {
    |prefix| <= |s| && s[..|prefix|] == prefix
  }

  predicate IsDigit(c: char)
  {
    '0' <= c <= '9'
  }

  function DigitChar(d: nat): (c: char)
    requires d < 10
    ensures IsDigit(c)
  {
    ('0' as int + d) as char
  }

  function DigitValue(c: char): (d: nat)
    requires IsDigit(c)
    ensures d < 10 && DigitChar(d) == c
  {
    c as int - '0' as int
  }

  /** A nonempty run of ASCII digits. */
  predicate IsDecimal(s: string)
  {
    |s| > 0 && forall i :: 0 <= i < |s| ==> IsDigit(s[i])
  }

  /** The value of a run of decimal digits, leading zeros allowed. */
  function DecimalValue(s: string): nat
    requires forall i :: 0 <= i < |s| ==> IsDigit(s[i])
    decreases |s|
  {
    if |s| == 0 then 0 else DecimalValue(s[..|s| - 1]) * 10 + DigitValue(s[|s| - 1])
  }

  /** The decimal digits of `n`, without leading zeros. */
  function NatToString(n: nat): (s: string)
    ensures |s| > 0
    decreases n
  {
    if n < 10 then [DigitChar(n)] else NatToString(n / 10) + [DigitChar(n % 10)]
  }

  /** The digits of `n` are decimal digits that read back as `n`, and one digit is enough exactly below ten. */
  lemma {:induction false} NatToStringDecimal(n: nat)
    ensures var s := NatToString(n);
      IsDecimal(s) && DecimalValue(s) == n && (|s| == 1 <==> n < 10)
    decreases n
  {
    if n >= 10 {
      NatToStringDecimal(n / 10);
      var front := NatToString(n / 10);
      var s := front + [DigitChar(n % 10)];
      assert s[..|s| - 1] == front;
    }
  }

  /** `str(n)` */
  function IntToString(n: int): (s: string)
    ensures |s| > 0
  {
    if n < 0 then "-" + NatToString(-n) else NatToString(n)
  }

  /**
   * `int(s)`: an optional sign followed by ASCII digits; anything else raises
   * ValueError.
   */
  function ParseInt(s: string): (r: Result<int>)
    ensures r.Err? ==> r == Err(InvalidLiteral(s))
  {
    if |s| > 0 && (s[0] == '-' || s[0] == '+') then
      if IsDecimal(s[1..]) then
        var v: int := DecimalValue(s[1..]);
        Ok(if s[0] == '-' then -v else v)
      else Err(InvalidLiteral(s))
    else if IsDecimal(s) then Ok(DecimalValue(s))
    else Err(InvalidLiteral(s))
  }

  /** `int(str(n)) == n` */
  lemma ParseIntToString(n: int)
    ensures ParseInt(IntToString(n)) == Ok(n)
  {
    if n < 0 {
      NatToStringDecimal(-n);
      var d := NatToString(-n);
      var s := "-" + d;
      assert s[0] == '-' && s[1..] == d;
      var v: int := DecimalValue(d);
      assert ParseInt(s) == Ok(-v);
    } else {
      NatToStringDecimal(n);
      var s := NatToString(n);
      assert s[0] != '-' && s[0] != '+';
      assert ParseInt(s) == Ok(DecimalValue(s));
    }
  }

  /** `n` zeros. */
  function Zeros(n: nat): (s: string)
    ensures |s| == n
    ensures forall i :: 0 <= i < n ==> s[i] == '0'
  {
    if n == 0 then "" else "0" + Zeros(n - 1)
  }

  /**
   * `s.zfill(width)`: a string already `width` long is kept; a shorter one is
   * brought to exactly `width` characters by zeros inserted on the left, after
   * a leading sign if there is one.
   */
  function ZFill(s: string, width: nat): (t: string)
    ensures |t| == if |s| >= width then |s| else width
    ensures |s| >= width ==> t == s
    ensures var lead := if |s| > 0 && (s[0] == '+' || s[0] == '-') then 1 else 0;
      |s| < width ==>
        && t[..lead] == s[..lead]
        && (forall i :: lead <= i < lead + width - |s| ==> t[i] == '0')
        && t[lead + width - |s|..] == s[lead..]
  {
    if |s| >= width then s
    else if |s| > 0 && (s[0] == '+' || s[0] == '-') then [s[0]] + Zeros(width - |s|) + s[1..]
    else Zeros(width - |s|) + s
  }

  lemma DecimalValueLeadingZero(s: string)
    requires forall i :: 0 <= i < |s| ==> IsDigit(s[i])
    ensures forall i :: 0 <= i < |"0" + s| ==> IsDigit(("0" + s)[i])
    ensures DecimalValue("0" + s) == DecimalValue(s)
    decreases |s|
  {
    if |s| > 0 {
      assert ("0" + s)[..|s|] == "0" + s[..|s| - 1];
      DecimalValueLeadingZero(s[..|s| - 1]);
    }
  }

  /**
   * The two-digit ordinal `str(n).zfill(2)` of a non-negative number is at
   * least two characters long and still reads back as `n`.
   */
  lemma {:induction false} ZFillOrdinal(n: nat)
    ensures var t := ZFill(IntToString(n), 2);
      |t| >= 2 && IsDecimal(t) && ParseInt(t) == Ok(n)
    ensures n >= 10 ==> ZFill(IntToString(n), 2) == IntToString(n)
    ensures n < 10 ==> ZFill(IntToString(n), 2) == ['0', DigitChar(n)]
  {
    var s := NatToString(n);
    NatToStringDecimal(n);
    if n < 10 {
      assert s == [DigitChar(n)];
      assert ZFill(s, 2) == "0" + s;
      DecimalValueLeadingZero(s);
    } else {
      assert ZFill(s, 2) == s;
    }
  }
}
