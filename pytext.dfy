/**
 * The few pieces of Python's string handling the model relies on: `str.strip()`,
 * `str(n)` for a non-negative integer, `int(s)` and `line.rsplit(" - ", 1)[-1]`.
 */
module PyText {
  import opened Base

  /**
   * `c.isspace()`: the characters Python counts as whitespace, by code point (the ASCII
   * controls 9-13 and 28-31, the space, and the Unicode separators).
   */
  predicate IsSpace(c: char) {
    var n := c as int;
    (9 <= n <= 13) || (28 <= n <= 32) || n == 0x85 || n == 0xA0 || n == 0x1680
    || (0x2000 <= n <= 0x200A) || n == 0x2028 || n == 0x2029 || n == 0x202F || n == 0x205F || n == 0x3000
  }

  /**
   * The zero of the run of Unicode decimal digits (category Nd, Unicode 15.0) holding
   * code point `n`, or -1 when `n` is none. Each of the 68 runs is ten consecutive code
   * points with the values 0 to 9; the runs are listed in four blocks of code points.
   */
  function DigitZero(n: int): (z: int)
    ensures z == -1 || (0x30 <= z <= n < z + 10)
  {
    if n < 0x1000 then ZeroBelow1000(n)
    else if n < 0x10000 then ZeroBelow10000(n)
    else if n < 0x11700 then ZeroBelow11700(n)
    else ZeroAbove11700(n)
  }

  /** `DigitZero` on the code points below 0x1000. */
  function ZeroBelow1000(n: int): (z: int)
    ensures z == -1 || (0x30 <= z <= n < z + 10)
  {
    if 0x30 <= n < 0x3A then 0x30
    else if 0x660 <= n < 0x66A then 0x660
    else if 0x6F0 <= n < 0x6FA then 0x6F0
    else if 0x7C0 <= n < 0x7CA then 0x7C0
    else if 0x966 <= n < 0x970 then 0x966
    else if 0x9E6 <= n < 0x9F0 then 0x9E6
    else if 0xA66 <= n < 0xA70 then 0xA66
    else if 0xAE6 <= n < 0xAF0 then 0xAE6
    else if 0xB66 <= n < 0xB70 then 0xB66
    else if 0xBE6 <= n < 0xBF0 then 0xBE6
    else if 0xC66 <= n < 0xC70 then 0xC66
    else if 0xCE6 <= n < 0xCF0 then 0xCE6
    else if 0xD66 <= n < 0xD70 then 0xD66
    else if 0xDE6 <= n < 0xDF0 then 0xDE6
    else if 0xE50 <= n < 0xE5A then 0xE50
    else if 0xED0 <= n < 0xEDA then 0xED0
    else if 0xF20 <= n < 0xF2A then 0xF20
    else -1
  }

  /** `DigitZero` on the code points from 0x1000 below 0x10000. */
  function ZeroBelow10000(n: int): (z: int)
    ensures z == -1 || (0x30 <= z <= n < z + 10)
  {
    if 0x1040 <= n < 0x104A then 0x1040
    else if 0x1090 <= n < 0x109A then 0x1090
    else if 0x17E0 <= n < 0x17EA then 0x17E0
    else if 0x1810 <= n < 0x181A then 0x1810
    else if 0x1946 <= n < 0x1950 then 0x1946
    else if 0x19D0 <= n < 0x19DA then 0x19D0
    else if 0x1A80 <= n < 0x1A8A then 0x1A80
    else if 0x1A90 <= n < 0x1A9A then 0x1A90
    else if 0x1B50 <= n < 0x1B5A then 0x1B50
    else if 0x1BB0 <= n < 0x1BBA then 0x1BB0
    else if 0x1C40 <= n < 0x1C4A then 0x1C40
    else if 0x1C50 <= n < 0x1C5A then 0x1C50
    else if 0xA620 <= n < 0xA62A then 0xA620
    else if 0xA8D0 <= n < 0xA8DA then 0xA8D0
    else if 0xA900 <= n < 0xA90A then 0xA900
    else if 0xA9D0 <= n < 0xA9DA then 0xA9D0
    else if 0xA9F0 <= n < 0xA9FA then 0xA9F0
    else if 0xAA50 <= n < 0xAA5A then 0xAA50
    else if 0xABF0 <= n < 0xABFA then 0xABF0
    else if 0xFF10 <= n < 0xFF1A then 0xFF10
    else -1
  }

  /** `DigitZero` on the code points from 0x10000 below 0x11700. */
  function ZeroBelow11700(n: int): (z: int)
    ensures z == -1 || (0x30 <= z <= n < z + 10)
  {
    if 0x104A0 <= n < 0x104AA then 0x104A0
    else if 0x10D30 <= n < 0x10D3A then 0x10D30
    else if 0x11066 <= n < 0x11070 then 0x11066
    else if 0x110F0 <= n < 0x110FA then 0x110F0
    else if 0x11136 <= n < 0x11140 then 0x11136
    else if 0x111D0 <= n < 0x111DA then 0x111D0
    else if 0x112F0 <= n < 0x112FA then 0x112F0
    else if 0x11450 <= n < 0x1145A then 0x11450
    else if 0x114D0 <= n < 0x114DA then 0x114D0
    else if 0x11650 <= n < 0x1165A then 0x11650
    else if 0x116C0 <= n < 0x116CA then 0x116C0
    else -1
  }

  /** `DigitZero` on the code points from 0x11700 on. */
  function ZeroAbove11700(n: int): (z: int)
    ensures z == -1 || (0x30 <= z <= n < z + 10)
  {
    if 0x11730 <= n < 0x1173A then 0x11730
    else if 0x118E0 <= n < 0x118EA then 0x118E0
    else if 0x11950 <= n < 0x1195A then 0x11950
    else if 0x11C50 <= n < 0x11C5A then 0x11C50
    else if 0x11D50 <= n < 0x11D5A then 0x11D50
    else if 0x11DA0 <= n < 0x11DAA then 0x11DA0
    else if 0x11F50 <= n < 0x11F5A then 0x11F50
    else if 0x16A60 <= n < 0x16A6A then 0x16A60
    else if 0x16AC0 <= n < 0x16ACA then 0x16AC0
    else if 0x16B50 <= n < 0x16B5A then 0x16B50
    else if 0x1D7CE <= n < 0x1D7D8 then 0x1D7CE
    else if 0x1D7D8 <= n < 0x1D7E2 then 0x1D7D8
    else if 0x1D7E2 <= n < 0x1D7EC then 0x1D7E2
    else if 0x1D7EC <= n < 0x1D7F6 then 0x1D7EC
    else if 0x1D7F6 <= n < 0x1D800 then 0x1D7F6
    else if 0x1E140 <= n < 0x1E14A then 0x1E140
    else if 0x1E2F0 <= n < 0x1E2FA then 0x1E2F0
    else if 0x1E4F0 <= n < 0x1E4FA then 0x1E4F0
    else if 0x1E950 <= n < 0x1E95A then 0x1E950
    else if 0x1FBF0 <= n < 0x1FBFA then 0x1FBF0
    else -1
  }

  /** `c.isdecimal()`: a decimal digit of any script, as `int()` reads them. */
  predicate IsDigit(c: char) { DigitZero(c as int) != -1 }

  /** No digit is whitespace. */
  lemma DigitNotSpace(c: char)
    requires IsDigit(c)
    ensures !IsSpace(c)
  {
  }

  function LStrip(s: string): string {
    if s != [] && IsSpace(s[0]) then LStrip(s[1..]) else s
  }

  function RStrip(s: string): string {
    if s != [] && IsSpace(s[|s| - 1]) then RStrip(s[..|s| - 1]) else s
  }

  /** `s.strip()`. */
  function Strip(s: string): string {
    RStrip(LStrip(s))
  }

  /** `lstrip()` drops the leading whitespace: a suffix, not starting with a space. */
  lemma {:induction false} LStripSpec(s: string)
    ensures |LStrip(s)| <= |s| && LStrip(s) == s[|s| - |LStrip(s)|..]
    ensures LStrip(s) == [] || !IsSpace(LStrip(s)[0])
    ensures forall i :: 0 <= i < |s| - |LStrip(s)| ==> IsSpace(s[i])
  {
    if s != [] && IsSpace(s[0]) {
      var t := s[1..];
      LStripSpec(t);
      assert LStrip(s) == LStrip(t);
      forall i | 0 <= i < |s| - |LStrip(s)|
        ensures IsSpace(s[i])
      {
        if i > 0 {
          assert s[i] == t[i - 1];
        }
      }
    }
  }

  /** `rstrip()` drops the trailing whitespace: a prefix, not ending with a space. */
  lemma {:induction false} RStripSpec(s: string)
    ensures |RStrip(s)| <= |s| && RStrip(s) == s[..|RStrip(s)|]
    ensures RStrip(s) == [] || !IsSpace(RStrip(s)[|RStrip(s)| - 1])
    ensures forall i :: |RStrip(s)| <= i < |s| ==> IsSpace(s[i])
  {
    if s != [] && IsSpace(s[|s| - 1]) {
      RStripSpec(s[..|s| - 1]);
    }
  }

  /**
   * `strip()` keeps a slice `s[i..j]` that neither starts nor ends with whitespace and
   * drops only whitespace around it.
   */
  lemma {:induction false} StripSpec(s: string)
    ensures exists i, j :: (0 <= i <= j <= |s| && Strip(s) == s[i..j]
      && forall k :: 0 <= k < i || j <= k < |s| ==> IsSpace(s[k]))
    ensures Strip(s) == [] || (!IsSpace(Strip(s)[0]) && !IsSpace(Strip(s)[|Strip(s)| - 1]))
  {
    var i, j := StripSlice(s);
    assert forall k :: 0 <= k < i || j <= k < |s| ==> IsSpace(s[k]);
  }

  /** The bounds of the slice `strip()` keeps. */
  lemma StripSlice(s: string) returns (i: nat, j: nat)
    ensures i <= j <= |s| && Strip(s) == s[i..j]
    ensures forall k :: 0 <= k < i ==> IsSpace(s[k])
    ensures forall k :: j <= k < |s| ==> IsSpace(s[k])
    ensures Strip(s) == [] || (!IsSpace(Strip(s)[0]) && !IsSpace(Strip(s)[|Strip(s)| - 1]))
  {
    var l := LStrip(s);
    LStripSpec(s);
    var r := RStrip(l);
    RStripSpec(l);
    i := |s| - |l|;
    j := i + |r|;
    assert r == s[i..j];
    forall k | j <= k < |s|
      ensures IsSpace(s[k])
    {
      assert s[k] == l[k - i];
    }
    if r != [] {
      assert r[0] == l[0];
    }
  }

  lemma {:induction false} LStripKeeps(s: string)
    requires s == [] || !IsSpace(s[0])
    ensures LStrip(s) == s
  {
  }

  lemma {:induction false} RStripKeeps(s: string)
    requires s == [] || !IsSpace(s[|s| - 1])
    ensures RStrip(s) == s
  {
  }

  lemma StripNoSpaceEnds(s: string)
    requires s != [] && !IsSpace(s[0]) && !IsSpace(s[|s| - 1])
    ensures Strip(s) == s
  {
    LStripKeeps(s);
    RStripKeeps(s);
  }

  /** The value of a digit: its distance from the zero of its run. */
  function DigitValue(c: char): (d: nat)
    requires IsDigit(c)
    ensures d < 10
  {
    (c as int) - DigitZero(c as int)
  }

  /** The ASCII digit `str` writes for `d`, which reads back as `d`. */
  function DigitChar(d: nat): (c: char)
    requires d < 10
    ensures '0' <= c <= '9' && IsDigit(c) && DigitValue(c) == d
  {
    (('0' as int) + d) as char
  }

  predicate AllDigits(s: string) {
    forall i :: 0 <= i < |s| ==> IsDigit(s[i])
  }

  /** `str(n)` for `n >= 0`: decimal digits, no sign, no leading zero. */
  function NatToString(n: nat): (s: string)
    ensures |s| >= 1 && AllDigits(s)
    ensures |s| > 1 ==> s[0] != '0'
  {
    if n < 10 then [DigitChar(n)] else NatToString(n / 10) + [DigitChar(n % 10)]
  }

  /** The value of a string of decimal digits. */
  function DigitsValue(s: string): nat
    requires AllDigits(s)
  {
    if s == [] then 0 else DigitsValue(s[..|s| - 1]) * 10 + DigitValue(s[|s| - 1])
  }

  lemma {:induction false} DigitsOfNat(n: nat)
    ensures DigitsValue(NatToString(n)) == n
  {
    if n >= 10 {
      DigitsOfNat(n / 10);
      var s := NatToString(n);
      assert s[..|s| - 1] == NatToString(n / 10);
    }
  }

  /** What `int()` accepts after the sign: digits, with single underscores between digits. */
  predicate WellFormedDigits(s: string) {
    |s| > 0 && IsDigit(s[0]) && IsDigit(s[|s| - 1])
    && (forall i :: 0 <= i < |s| ==> IsDigit(s[i]) || s[i] == '_')
    && (forall i :: 0 <= i < |s| - 1 && s[i] == '_' ==> IsDigit(s[i + 1]))
  }

  function DropUnderscores(s: string): (r: string)
    requires forall i :: 0 <= i < |s| ==> IsDigit(s[i]) || s[i] == '_'
    ensures AllDigits(r)
    ensures AllDigits(s) ==> r == s
  {
    if s == [] then []
    else if s[0] == '_' then DropUnderscores(s[1..])
    else [s[0]] + DropUnderscores(s[1..])
  }

  function ParseUnsigned(s: string): Option<nat> {
    if WellFormedDigits(s) then
      Some(DigitsValue(DropUnderscores(s)))
    else None
  }

  /**
   * `int(s)` on an already stripped string: an optional sign and decimal digits of any
   * script, with single underscores between digits; `None` where Python raises `ValueError`.
   */
  function ParseInt(s: string): (r: Option<int>)
    ensures r.Some? ==> |s| > 0 && (IsDigit(s[0]) || s[0] == '-' || s[0] == '+')
    ensures r.Some? ==> forall i :: 1 <= i < |s| ==> IsDigit(s[i]) || s[i] == '_'
    ensures s == [] ==> r.None?
    ensures |s| > 0 && AllDigits(s) ==> r == Some(DigitsValue(s))
    ensures |s| > 1 && s[0] == '-' && AllDigits(s[1..]) ==> r == Some(0 - DigitsValue(s[1..]))
  {
    if |s| > 0 && (s[0] == '-' || s[0] == '+') then
      match ParseUnsigned(s[1..])
      case None => None
      case Some(n) =>
        var v: int := if s[0] == '-' then 0 - n else n;
        Some(v)
    else
      match ParseUnsigned(s)
      case None => None
      case Some(n) => Some(n)
  }

  /** `int()` reads the digits of other scripts by their value, as it does ASCII ones. */
  lemma ParseIntDigits(s: string)
    requires s == "\U{0661}\U{0662}" || s == "\U{FF11}\U{FF12}"
    ensures ParseInt(s) == Some(12)
  {
    assert IsDigit(s[0]) && IsDigit(s[1]) && AllDigits(s);
    assert DigitValue(s[0]) == 1 && DigitValue(s[1]) == 2;
    var one := s[..1];
    assert one[..0] == [] && one[0] == s[0];
    assert DigitsValue(one) == 1;
    assert DigitsValue(s) == 12;
  }

  /** Writing a non-negative integer with `str` and reading it back with `int(... .strip())`. */
  lemma NatRoundTrip(n: nat)
    ensures ParseInt(Strip(NatToString(n))) == Some(n)
  {
    var s := NatToString(n);
    DigitNotSpace(s[0]);
    DigitNotSpace(s[|s| - 1]);
    StripNoSpaceEnds(s);
    DigitsOfNat(n);
    assert WellFormedDigits(s);
    assert DropUnderscores(s) == s;
    assert ParseUnsigned(s) == Some(n);
    assert !(s[0] == '-' || s[0] == '+');
  }

  /** `str` is injective on non-negative integers. */
  lemma NatToStringInjective(a: nat, b: nat)
    requires NatToString(a) == NatToString(b)
    ensures a == b
  {
    DigitsOfNat(a);
    DigitsOfNat(b);
  }

  const Sep: string := " - "

  predicate SepAt(s: string, i: int) {
    0 <= i && i + |Sep| <= |s| && s[i..i + |Sep|] == Sep
  }

  /** `str.rfind(" - ")` restricted to starts at or before `i`. */
  function LastSepAtOrBefore(s: string, i: int): (r: Option<nat>)
    ensures r.Some? ==> r.value + |Sep| <= |s|
    decreases i + 1
  {
    if i < 0 then None
    else if SepAt(s, i) then Some(i)
    else LastSepAtOrBefore(s, i - 1)
  }

  /** It finds the largest `j <= i` at which `" - "` starts in `s`, if there is one. */
  lemma {:induction false} LastSepSpec(s: string, i: int)
    ensures LastSepAtOrBefore(s, i).Some? ==>
      LastSepAtOrBefore(s, i).value <= i && SepAt(s, LastSepAtOrBefore(s, i).value)
      && forall j :: LastSepAtOrBefore(s, i).value < j <= i ==> !SepAt(s, j)
    ensures LastSepAtOrBefore(s, i).None? ==> forall j :: 0 <= j <= i ==> !SepAt(s, j)
    decreases i + 1
  {
    if 0 <= i && !SepAt(s, i) {
      var r := LastSepAtOrBefore(s, i - 1);
      LastSepSpec(s, i - 1);
      assert LastSepAtOrBefore(s, i) == r;
      if r.Some? {
        forall j | r.value < j <= i ensures !SepAt(s, j) {
          if j < i {
            assert r.value < j <= i - 1;
          }
        }
      } else {
        forall j | 0 <= j <= i ensures !SepAt(s, j) {
          if j < i {
            assert 0 <= j <= i - 1;
          }
        }
      }
    }
  }

  /** `s.rsplit(" - ", 1)[-1]`: the text after the last `" - "`, or all of `s` when there is none. */
  function AfterLastSep(s: string): string {
    match LastSepAtOrBefore(s, |s| - |Sep|)
    case None => s
    case Some(i) => s[i + |Sep|..]
  }

  /**
   * The part kept is a suffix of `s` holding no `" - "`; it is all of `s` when `s` has no
   * `" - "`, and otherwise follows one.
   */
  lemma AfterLastSepSpec(s: string)
    ensures |AfterLastSep(s)| <= |s| && AfterLastSep(s) == s[|s| - |AfterLastSep(s)|..]
    ensures forall j :: !SepAt(AfterLastSep(s), j)
    ensures (forall j :: !SepAt(s, j)) <==> AfterLastSep(s) == s
    ensures AfterLastSep(s) != s ==> SepAt(s, |s| - |AfterLastSep(s)| - |Sep|)
  {
    var r := AfterLastSep(s);
    LastSepSpec(s, |s| - |Sep|);
    match LastSepAtOrBefore(s, |s| - |Sep|)
    case None =>
    case Some(i) =>
      forall j | SepAt(r, j) ensures false {
        assert r[j..j + |Sep|] == s[i + |Sep| + j..i + |Sep| + j + |Sep|];
        assert SepAt(s, i + |Sep| + j);
      }
      assert |r| < |s|;
  }
}
