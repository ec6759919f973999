/**
 * The integer conversions the scrapers rely on: `int(...)` of a digit string or of an option
 * value, `str(n)` when a page number or a distance id is written into a URL, and
 * `format(n, "x")` in the MobiiElite session id.
 */
module Numbers {
  import opened Wrappers
  import opened Text

  predicate AllDigits(s: string) {
    forall i :: 0 <= i < |s| ==> IsDigit(s[i])
  }

  function DigitValue(c: char): (d: nat)
    requires IsDigit(c)
    ensures d < 10
  {
    c as int - '0' as int
  }

  function DigitChar(d: nat): (c: char)
    requires d < 10
    ensures IsDigit(c) && DigitValue(c) == d
  {
    ('0' as int + d) as char
  }

  /** The value of a string of ASCII digits, most significant first (`int(s)` on such a string). */
  function DecimalValue(s: string): nat
    requires AllDigits(s)
  {
    if s == [] then 0 else DecimalValue(s[..|s| - 1]) * 10 + DigitValue(s[|s| - 1])
  }

  /** `str(n)` for a natural number: no sign, no leading zero. */
  function NatToString(n: nat): (s: string)
    ensures s != [] && AllDigits(s)
    ensures DecimalValue(s) == n
    ensures s[0] == '0' ==> n == 0
  {
    if n < 10 then
      [DigitChar(n)]
    else
      var t := NatToString(n / 10);
      var s := t + [DigitChar(n % 10)];
      assert s[..|s| - 1] == t;
      s
  }

  /** `str(i)` for any integer. */
  function IntToString(i: int): (s: string)
    ensures s != []
  {
    if i < 0 then "-" + NatToString(-i) else NatToString(i)
  }

  /** Number of leading ASCII digits. */
  function DigitRun(s: string): (n: nat)
    ensures n <= |s| && AllDigits(s[..n])
    ensures n < |s| ==> !IsDigit(s[n])
  {
    if s == [] || !IsDigit(s[0]) then 0
    else
      var n := 1 + DigitRun(s[1..]);
      assert s[..n] == [s[0]] + s[1..][..n - 1];
      n
  }

  /**
   * `int(s)` for a string: surrounding whitespace is ignored, one optional sign, then one or more
   * ASCII digits; anything else is the ValueError, here None.
   */
  function ParseInt(s: string): Option<int> {
    var t := Strip(s);
    if t == [] then None
    else
      var signed := t[0] == '-' || t[0] == '+';
      var body := if signed then t[1..] else t;
      if body == [] || !AllDigits(body) then None
      else
        var v: int := DecimalValue(body);
        Some(if t[0] == '-' then -v else v)
  }

  lemma StripUnchanged(s: string)
    requires s == [] || (!IsSpace(s[0]) && !IsSpace(s[|s| - 1]))
    ensures Strip(s) == s
  {
  }

  /** Writing an integer and reading it back gives the integer. */
  lemma ParseIntToString(i: int)
    ensures ParseInt(IntToString(i)) == Some(i)
  {
    if i < 0 {
      ParseIntNegative("-" + NatToString(-i), -i);
    } else {
      ParseIntDigits(NatToString(i), i);
    }
  }

  lemma ParseIntDigits(s: string, n: nat)
    requires s == NatToString(n)
    ensures ParseInt(s) == Some(n)
  {
    assert IsDigit(s[0]) && IsDigit(s[|s| - 1]);
    StripUnchanged(s);
  }

  lemma ParseIntNegative(s: string, n: int)
    requires n > 0 && s == "-" + NatToString(n)
    ensures ParseInt(s) == Some(-n)
  {
    var digits := NatToString(n);
    assert s[0] == '-' && s[1..] == digits && s[|s| - 1] == digits[|digits| - 1];
    assert IsDigit(digits[|digits| - 1]);
    StripUnchanged(s);
  }

  // ---------------------------------------------------------------------------------------
  // Hexadecimal

  predicate IsHexDigit(c: char) {
    IsDigit(c) || ('a' <= c <= 'f') || ('A' <= c <= 'F')
  }

  predicate AllHex(s: string) {
    forall i :: 0 <= i < |s| ==> IsHexDigit(s[i])
  }

  function HexDigitValue(c: char): (d: nat)
    requires IsHexDigit(c)
    ensures d < 16
  {
    if IsDigit(c) then DigitValue(c)
    else if 'a' <= c <= 'f' then c as int - 'a' as int + 10
    else c as int - 'A' as int + 10
  }

  /** The lower-case digit `format(d, "x")` writes for `d < 16`. */
  function HexDigit(d: nat): (c: char)
    requires d < 16
    ensures IsHexDigit(c) && HexDigitValue(c) == d
  {
    if d < 10 then DigitChar(d) else ('a' as int + d - 10) as char
  }

  function HexValue(s: string): nat
    requires AllHex(s)
  {
    if s == [] then 0 else HexValue(s[..|s| - 1]) * 16 + HexDigitValue(s[|s| - 1])
  }

  /** `format(n, "x")`: lower-case hexadecimal without prefix or leading zero. */
  function Hex(n: nat): (s: string)
    ensures s != [] && AllHex(s)
    ensures HexValue(s) == n
  {
    if n < 16 then
      [HexDigit(n)]
    else
      var t := Hex(n / 16);
      var s := t + [HexDigit(n % 16)];
      assert s[..|s| - 1] == t;
      s
  }

  function Pow16(k: nat): (p: nat)
    ensures p >= 1
  {
    if k == 0 then 1 else 16 * Pow16(k - 1)
  }

  lemma {:induction false} HexValueBound(s: string)
    requires AllHex(s)
    ensures HexValue(s) < Pow16(|s|)
  {
    if s != [] {
      HexValueBound(s[..|s| - 1]);
    }
  }

  /** Reading `a + b` as hexadecimal shifts `a` by the length of `b`. */
  lemma {:induction false} HexValueAppend(a: string, b: string)
    requires AllHex(a) && AllHex(b)
    ensures AllHex(a + b)
    ensures HexValue(a + b) == HexValue(a) * Pow16(|b|) + HexValue(b)
    decreases |b|
  {
    if b == [] {
      assert a + b == a;
    } else {
      var b' := b[..|b| - 1];
      var d := HexDigitValue(b[|b| - 1]);
      assert (a + b)[..|a + b| - 1] == a + b';
      assert (a + b)[|a + b| - 1] == b[|b| - 1];
      HexValueAppend(a, b');
      assert HexValue(a + b) == HexValue(a + b') * 16 + d;
      assert HexValue(b) == HexValue(b') * 16 + d;
      assert Pow16(|b|) == 16 * Pow16(|b'|);
      ShiftDistributes(HexValue(a), Pow16(|b'|), HexValue(b'), d);
    }
  }

  lemma ShiftDistributes(x: nat, p: nat, y: nat, d: nat)
    ensures (x * p + y) * 16 + d == x * (16 * p) + (y * 16 + d)
  {
  }

  /** The last four hexadecimal digits of a string hold its value modulo `16^4`. */
  lemma HexLastFour(s: string)
    requires AllHex(s) && 4 <= |s|
    ensures HexValue(s[|s| - 4..]) == HexValue(s) % 65536
  {
    var a, b := s[..|s| - 4], s[|s| - 4..];
    assert s == a + b;
    HexSplitFour(s, a, b);
    ModOfShift(HexValue(s), HexValue(a), HexValue(b));
  }

  lemma HexSplitFour(s: string, a: string, b: string)
    requires AllHex(a) && AllHex(b) && |b| == 4 && s == a + b
    ensures HexValue(s) == HexValue(a) * 65536 + HexValue(b) && HexValue(b) < 65536
  {
    HexValueAppend(a, b);
    HexValueBound(b);
    Pow16Four();
  }

  lemma Pow16Four()
    ensures Pow16(4) == 65536
  {
    assert Pow16(1) == 16;
  }

  lemma ModOfShift(v: int, x: nat, y: nat)
    requires v == x * 65536 + y && y < 65536
    ensures v % 65536 == y
  {
  }

  lemma HexLeadingZeros(s: string)
    requires AllHex(s)
    ensures AllHex("0000" + s) && HexValue("0000" + s) == HexValue(s)
  {
    HexValueAppend("0000", s);
    assert HexValue("0000") == 0 by {
      assert "0000"[..3] == "000";
      assert "000"[..2] == "00";
      assert "00"[..1] == "0";
    }
  }
}
