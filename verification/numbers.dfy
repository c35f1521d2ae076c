/**
 * Unsigned 32-bit ids, their decimal text and the `int.TryParse` / `uint.TryParse`
 * readings the daemon applies to the command code and to a cancel target.
 */
module Numbers {
  import opened Wrappers

  /** 2^32, the number of values of C#'s `uint`. */
  const Limit: nat := 0x1_0000_0000

  newtype uint32 = x: int | 0 <= x < 0x1_0000_0000

  /** `c++` on an unchecked `uint`: the successor, wrapping from 2^32 - 1 to 0. */
  function Next(c: uint32): (r: uint32)
    ensures r as int == (c as int + 1) % Limit
  {
    if c as int == Limit - 1 then 0 else c + 1
  }

  /** A counter that tracks `n` modulo 2^32 tracks `n + 1` after one increment. */
  lemma NextTracks(c: uint32, n: nat)
    requires c as int == n % Limit
    ensures Next(c) as int == (n + 1) % Limit
  {
  }

  predicate IsDigit(c: char)
  {
    '0' <= c <= '9'
  }

  predicate AllDigits(s: string)
  {
    forall i :: 0 <= i < |s| ==> IsDigit(s[i])
  }

  function DigitChar(d: nat): (c: char)
    requires d < 10
    ensures IsDigit(c)
  {
    ('0' as int + d) as char
  }

  /** The value of a run of decimal digits, most significant first. */
  function DigitsValue(s: string): nat
    requires AllDigits(s)
  {
    if s == [] then 0 else DigitsValue(s[..|s| - 1]) * 10 + (s[|s| - 1] as int - '0' as int)
  }

  /** The decimal text of `n`, as C# string interpolation writes an unsigned value. */
  function Dec(n: nat): (s: string)
    ensures |s| >= 1 && AllDigits(s)
    ensures DigitsValue(s) == n
    ensures s[0] == '0' ==> s == "0" && n == 0
  {
    if n < 10 then [DigitChar(n)]
    else
      var s := Dec(n / 10) + [DigitChar(n % 10)];
      assert s[..|s| - 1] == Dec(n / 10);
      s
  }

  /** Where a shorter text ends inside a longer run of digits, the next character is a digit. */
  lemma DigitAfter(x: string, s: string, y: string, t: string)
    requires x + s == y + t && AllDigits(y) && |x| < |y| && |s| > 0
    ensures IsDigit(s[0])
  {
    assert (x + s)[|x|] == s[0];
    assert (y + t)[|x|] == y[|x|];
  }

  /** Where a shorter run of trailing digits starts inside a longer one, the previous character is a digit. */
  lemma DigitBefore(s: string, x: string, t: string, y: string)
    requires s + x == t + y && AllDigits(y) && |x| < |y| && |s| > 0
    ensures IsDigit(s[|s| - 1])
  {
    assert (s + x)[|s| - 1] == s[|s| - 1];
    assert (t + y)[|s| - 1] == y[|s| - 1 - |t|];
  }

  /** Decimal text is unambiguous: two numbers whose digits are each followed by a non-digit agree. */
  lemma {:induction false} DecPrefix(a: nat, b: nat, s: string, t: string)
    requires Dec(a) + s == Dec(b) + t
    requires |s| > 0 && !IsDigit(s[0]) && |t| > 0 && !IsDigit(t[0])
    ensures a == b && s == t
  {
    var da, db := Dec(a), Dec(b);
    if |da| < |db| {
      DigitAfter(da, s, db, t);
      assert false;
    } else if |db| < |da| {
      DigitAfter(db, t, da, s);
      assert false;
    }
    assert da == (da + s)[..|da|] == (db + t)[..|db|] == db;
    assert s == (da + s)[|da|..] == (db + t)[|db|..] == t;
  }

  /** The same, with the digits at the end and a non-digit before them. */
  lemma {:induction false} DecSuffix(a: nat, b: nat, s: string, t: string)
    requires s + Dec(a) == t + Dec(b)
    requires |s| > 0 && !IsDigit(s[|s| - 1]) && |t| > 0 && !IsDigit(t[|t| - 1])
    ensures a == b && s == t
  {
    var da, db := Dec(a), Dec(b);
    if |da| < |db| {
      DigitBefore(s, da, t, db);
      assert false;
    } else if |db| < |da| {
      DigitBefore(t, db, s, da);
      assert false;
    }
    assert da == (s + da)[|s|..] == (t + db)[|t|..] == db;
    assert s == (s + da)[..|s|] == (t + db)[..|t|] == t;
  }

  /** The characters `NumberStyles.Integer` skips around a number. */
  predicate IsWhite(c: char)
  {
    c == ' ' || '\t' <= c <= '\r'
  }

  function TrimStart(s: string): string
    decreases |s|
  {
    if |s| > 0 && IsWhite(s[0]) then TrimStart(s[1..]) else s
  }

  function TrimEnd(s: string): string
    decreases |s|
  {
    if |s| > 0 && IsWhite(s[|s| - 1]) then TrimEnd(s[..|s| - 1]) else s
  }

  /** An optionally signed run of digits, read before the range of the target type is checked. */
  datatype Numeral = Numeral(negative: bool, magnitude: nat)

  /** Surrounding white space, then an optional '+' or '-', then one or more digits. */
  function ReadNumeral(s: string): Option<Numeral>
  {
    var t := TrimEnd(TrimStart(s));
    if |t| > 0 && (t[0] == '+' || t[0] == '-') then
      if |t| > 1 && AllDigits(t[1..]) then Some(Numeral(t[0] == '-', DigitsValue(t[1..]))) else None
    else if |t| > 0 && AllDigits(t) then Some(Numeral(false, DigitsValue(t)))
    else None
  }

  /** `uint.TryParse`: the value when it fits 32 unsigned bits ("-0" reads as 0). */
  function ParseUInt32(s: string): (r: Option<uint32>)
    ensures r.Some? <==> ReadNumeral(s).Some? && ReadNumeral(s).value.magnitude < Limit
                         && (ReadNumeral(s).value.negative ==> ReadNumeral(s).value.magnitude == 0)
    ensures r.Some? ==> ReadNumeral(s).value.magnitude == r.value as int
  {
    match ReadNumeral(s)
    case None => None
    case Some(Numeral(negative, m)) =>
      if negative then (if m == 0 then Some(0) else None)
      else if m < Limit then Some(m as uint32)
      else None
  }

  /** The value a numeral denotes. */
  function Signed(n: Numeral): int
  {
    if n.negative then -(n.magnitude as int) else n.magnitude
  }

  /** `int.TryParse`: the value when it fits 32 signed bits. */
  function ParseInt32(s: string): (r: Option<int>)
    ensures r.Some? <==> ReadNumeral(s).Some? && -0x8000_0000 <= Signed(ReadNumeral(s).value) < 0x8000_0000
    ensures r.Some? ==> r.value == Signed(ReadNumeral(s).value)
  {
    match ReadNumeral(s)
    case None => None
    case Some(Numeral(negative, m)) =>
      if negative then (if m <= 0x8000_0000 then Some(-(m as int)) else None)
      else if m < 0x8000_0000 then Some(m)
      else None
  }

  /** Decimal text reads back as the number it was written from. */
  lemma ReadDec(n: nat)
    ensures ReadNumeral(Dec(n)) == Some(Numeral(false, n))
  {
    var d := Dec(n);
    assert !IsWhite(d[0]) && !IsWhite(d[|d| - 1]);
    assert TrimStart(d) == d;
    assert TrimEnd(d) == d;
  }

  /** `uint.TryParse` recovers any id from its decimal text. */
  lemma ParseUInt32Dec(x: uint32)
    ensures ParseUInt32(Dec(x as nat)) == Some(x)
  {
    ReadDec(x as nat);
  }

  /** `int.TryParse` recovers any non-negative `int` from its decimal text. */
  lemma ParseInt32Dec(n: nat)
    requires n < 0x8000_0000
    ensures ParseInt32(Dec(n)) == Some(n)
  {
    ReadDec(n);
  }
}
