/**
 * Character classes and number rendering/parsing shared by the models:
 * Python 2's whitespace set and int() of a byte string (ASCII only: the
 * Unicode spaces and decimal digits int() also accepts in a unicode
 * string are not included), decimal "%d", and hex digits in either case.
 */
module Text {
  import opened Wrappers

  /** The whitespace of Python 2's str.split() and str.strip() on a byte string (C isspace, ASCII only). */
  predicate IsSpace(c: char)
  {
    c == ' ' || c == '\t' || c == '\n' || c == '\r' || c == 11 as char || c == 12 as char
  }

  predicate AllSpace(s: string)
  {
    forall i :: 0 <= i < |s| ==> IsSpace(s[i])
  }

  predicate NoSpace(s: string)
  {
    forall i :: 0 <= i < |s| ==> !IsSpace(s[i])
  }

  /** `s` without its leading whitespace. */
  function LStrip(s: string): (r: string)
    ensures |r| <= |s|
    ensures r == [] || !IsSpace(r[0])
  {
    if s == [] || !IsSpace(s[0]) then s else LStrip(s[1..])
  }

  /** `s` without its trailing whitespace. */
  function RStrip(s: string): (r: string)
    ensures |r| <= |s|
    ensures r == [] || !IsSpace(r[|r| - 1])
  {
    if s == [] || !IsSpace(s[|s| - 1]) then s else RStrip(s[..|s| - 1])
  }

  /**
   * str.strip(): both ends.  The result is a slice of `s` with only white
   * space before and after it, and it neither begins nor ends with white
   * space, which fixes it uniquely.
   */
  function Strip(s: string): (r: string)
    ensures |r| <= |s|
    ensures r == [] || (!IsSpace(r[0]) && !IsSpace(r[|r| - 1]))
    ensures exists i, j :: 0 <= i <= j <= |s| && r == s[i..j] && AllSpace(s[..i]) && AllSpace(s[j..])
  {
    RStripKeepsFirst(LStrip(s));
    StripSlice(s);
    RStrip(LStrip(s))
  }

  /** LStrip drops a run of white space from the front and nothing else. */
  lemma {:induction false} LStripDrops(s: string) returns (i: nat)
    ensures i <= |s| && LStrip(s) == s[i..] && AllSpace(s[..i])
    decreases |s|
  {
    if s == [] || !IsSpace(s[0]) {
      i := 0;
    } else {
      var k := LStripDrops(s[1..]);
      i := k + 1;
      assert s[1..][k..] == s[i..];
      forall m | 0 <= m < i
        ensures IsSpace(s[m])
      {
        if m > 0 {
          assert s[m] == s[1..][..k][m - 1];
        }
      }
    }
  }

  /** RStrip drops a run of white space from the back and nothing else. */
  lemma {:induction false} RStripDrops(s: string) returns (j: nat)
    ensures j <= |s| && RStrip(s) == s[..j] && AllSpace(s[j..])
    decreases |s|
  {
    if s == [] || !IsSpace(s[|s| - 1]) {
      j := |s|;
    } else {
      var t := s[..|s| - 1];
      j := RStripDrops(t);
      assert t[..j] == s[..j];
      forall m | j <= m < |s|
        ensures IsSpace(s[m])
      {
        if m < |s| - 1 {
          assert s[m] == t[j..][m - j];
        }
      }
    }
  }

  /** `r` is the slice of `s` between a white-space prefix and a white-space suffix. */
  predicate Trimmed(s: string, r: string)
  {
    exists i, j :: 0 <= i <= j <= |s| && r == s[i..j] && AllSpace(s[..i]) && AllSpace(s[j..])
  }

  /** Stripping both ends leaves the slice between a white-space prefix and a white-space suffix. */
  lemma StripSlice(s: string)
    ensures Trimmed(s, RStrip(LStrip(s)))
  {
    var i := LStripDrops(s);
    var k := RStripDrops(s[i..]);
    SliceOfSlice(s, i, k);
    TrimmedBy(s, RStrip(LStrip(s)), i, i + k);
  }

  /** Slicing a suffix of `s` is slicing `s`. */
  lemma SliceOfSlice(s: string, i: nat, k: nat)
    requires i + k <= |s|
    ensures s[i..][..k] == s[i..i + k] && s[i..][k..] == s[i + k..]
  {
  }

  /** A slice between a white-space prefix and a white-space suffix, given by its bounds. */
  lemma TrimmedBy(s: string, r: string, i: nat, j: nat)
    requires i <= j <= |s| && r == s[i..j] && AllSpace(s[..i]) && AllSpace(s[j..])
    ensures Trimmed(s, r)
  {
  }

  /** RStrip removes characters only from the end: a non-empty result starts like its input. */
  lemma {:induction false} RStripKeepsFirst(s: string)
    ensures RStrip(s) == [] || RStrip(s)[0] == s[0]
    decreases |s|
  {
    if s != [] && IsSpace(s[|s| - 1]) {
      RStripKeepsFirst(s[..|s| - 1]);
    }
  }

  /** White space in front of a string is dropped by LStrip. */
  lemma {:induction false} LStripSkipsSpace(ws: string, s: string)
    requires AllSpace(ws)
    ensures LStrip(ws + s) == LStrip(s)
  {
    if ws != [] {
      assert IsSpace((ws + s)[0]);
      assert (ws + s)[1..] == ws[1..] + s;
      LStripSkipsSpace(ws[1..], s);
    } else {
      assert ws + s == s;
    }
  }

  /** A string without white space at its front is left alone by LStrip. */
  lemma LStripNoLeading(s: string)
    requires s == [] || !IsSpace(s[0])
    ensures LStrip(s) == s
  {
  }

  predicate IsDigit(c: char)
  {
    '0' <= c <= '9'
  }

  function DigitValue(c: char): (d: nat)
    requires IsDigit(c)
    ensures d < 10
  {
    (c as int - '0' as int) as nat
  }

  function DigitChar(d: nat): (c: char)
    requires d < 10
    ensures IsDigit(c) && DigitValue(c) == d
  {
    ('0' as int + d) as char
  }

  predicate AllDigits(s: string)
  {
    forall i :: 0 <= i < |s| ==> IsDigit(s[i])
  }

  /** The value of a run of decimal digits, most significant first. */
  function DigitsValue(s: string): (n: nat)
    requires AllDigits(s)
  {
    if s == [] then 0 else DigitsValue(s[..|s| - 1]) * 10 + DigitValue(s[|s| - 1])
  }

  /** The decimal digits of a natural number, without leading zeros ("0" for 0). */
  function NatDigits(n: nat): (s: string)
    ensures |s| > 0 && AllDigits(s)
    ensures DigitsValue(s) == n
  {
    if n < 10 then [DigitChar(n)]
    else
      var s := NatDigits(n / 10) + [DigitChar(n % 10)];
      assert s[..|s| - 1] == NatDigits(n / 10);
      s
  }

  /** Python's "%d" % n. */
  function DecimalString(n: int): (s: string)
    ensures |s| > 0
  {
    if n < 0 then "-" + NatDigits(-n) else NatDigits(n)
  }

  /**
   * Python 2's int() of a byte string: surrounding white space, an
   * optional sign, white space after the sign (Python 2 allows it), then
   * one or more decimal digits; anything else is a ValueError (None).
   * Only a stripped text that starts with a digit or a sign is accepted,
   * and only a '-' gives a negative number.
   */
  function ParseInt(s: string): (r: Option<int>)
    ensures r.Some? ==> Strip(s) != [] && (IsDigit(Strip(s)[0]) || Strip(s)[0] == '-' || Strip(s)[0] == '+')
    ensures r.Some? && r.value < 0 ==> Strip(s)[0] == '-'
  {
    var t := Strip(s);
    if t == [] then None
    else
      var neg := t[0] == '-';
      var body := if t[0] == '-' || t[0] == '+' then LStrip(t[1..]) else t;
      if body != [] && AllDigits(body)
      then var v: int := DigitsValue(body); Some(if neg then -v else v)
      else None
  }

  /** Parsing "%d" gives back the number. */
  lemma ParseDecimal(n: int)
    ensures ParseInt(DecimalString(n)) == Some(n)
  {
    var s := DecimalString(n);
    var d := NatDigits(if n < 0 then -n else n);
    assert !IsSpace(s[0]) && !IsSpace(s[|s| - 1]);
    LStripNoLeading(s);
    assert RStrip(s) == s;
    assert Strip(s) == s;
    if n < 0 {
      assert s[0] == '-' && s[1..] == d;
      LStripNoLeading(d);
      assert LStrip(s[1..]) == d;
    } else {
      assert s == d && s[0] != '-' && s[0] != '+';
    }
  }

  /** Different numbers print differently with "%d". */
  lemma DecimalStringInjective(m: int, n: int)
    requires DecimalString(m) == DecimalString(n)
    ensures m == n
  {
    ParseDecimal(m);
    ParseDecimal(n);
  }

  predicate IsHexDigit(c: char)
  {
    IsDigit(c) || 'a' <= c <= 'f' || 'A' <= c <= 'F'
  }

  function HexValue(c: char): (d: nat)
    requires IsHexDigit(c)
    ensures d < 16
  {
    if IsDigit(c) then DigitValue(c)
    else if 'a' <= c <= 'f' then (c as int - 'a' as int + 10) as nat
    else (c as int - 'A' as int + 10) as nat
  }

  /** The upper-case hex digit of a value below 16 (printf's %X). */
  function HexUpper(d: nat): (c: char)
    requires d < 16
    ensures IsHexDigit(c) && HexValue(c) == d
    ensures !('a' <= c <= 'f')
  {
    if d < 10 then DigitChar(d) else ('A' as int + d - 10) as char
  }

  /** The lower-case hex digit of a value below 16 (printf's %x). */
  function HexLower(d: nat): (c: char)
    requires d < 16
    ensures IsHexDigit(c) && HexValue(c) == d
    ensures !('A' <= c <= 'F')
  {
    if d < 10 then DigitChar(d) else ('a' as int + d - 10) as char
  }
}
