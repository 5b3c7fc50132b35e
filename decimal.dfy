/** Decimal rendering of frame numbers, as JavaScript template literals
    (`frame_${n}.png`) and Python f-strings (`f"frame_{i}.png"`) produce it for
    non-negative integers. */
module Decimal {

  predicate IsDigit(c: char) {
    '0' <= c <= '9'
  }

  predicate AllDigits(s: string) {
    forall i :: 0 <= i < |s| ==> IsDigit(s[i])
  }

  function DigitChar(d: nat): (c: char)
    requires d < 10
    ensures IsDigit(c) && c as int - '0' as int == d
  {
    ('0' as int + d) as char
  }

  /** The shortest decimal numeral for `n`. */
  function NatToString(n: nat): (s: string)
    ensures |s| >= 1 && AllDigits(s)
    ensures s[0] == '0' ==> n == 0
    decreases n
  {
    if n < 10 then [DigitChar(n)] else NatToString(n / 10) + [DigitChar(n % 10)]
  }

  /** The number a string of decimal digits denotes; the partner of
      `NatToString`. */
  function DigitsValue(s: string): nat
    requires AllDigits(s)
    decreases |s|
  {
    if s == [] then 0 else DigitsValue(s[..|s| - 1]) * 10 + (s[|s| - 1] as int - '0' as int)
  }

  lemma {:induction false} DigitsValueOfNatToString(n: nat)
    ensures DigitsValue(NatToString(n)) == n
    decreases n
  {
    var s := NatToString(n);
    if n >= 10 {
      assert s[..|s| - 1] == NatToString(n / 10);
      DigitsValueOfNatToString(n / 10);
    }
  }

  /** Different numbers are rendered differently. */
  lemma {:induction false} NatToStringInjective(m: nat, n: nat)
    requires NatToString(m) == NatToString(n)
    ensures m == n
  {
    DigitsValueOfNatToString(m);
    DigitsValueOfNatToString(n);
  }

  /** `frame_<n><extension>`, the naming convention of the image sequences. */
  function FrameFileName(n: nat, extension: string): (name: string)
    ensures |name| == |"frame_"| + |NatToString(n)| + |extension|
    ensures name[..6] == "frame_" && name[|name| - |extension|..] == extension
  {
    "frame_" + NatToString(n) + extension
  }

  /** Two frame numbers with the same extension never share a file name. */
  lemma {:induction false} FrameFileNameInjective(m: nat, n: nat, extension: string)
    requires FrameFileName(m, extension) == FrameFileName(n, extension)
    ensures m == n
  {
    var a, b := FrameFileName(m, extension), FrameFileName(n, extension);
    var dm, dn := NatToString(m), NatToString(n);
    assert |dm| == |dn|;
    assert a[6..6 + |dm|] == dm;
    assert b[6..6 + |dn|] == dn;
    NatToStringInjective(m, n);
  }

  /** The same fact read forwards: different frame numbers give different
      file names. */
  lemma {:induction false} FrameFileNamesDiffer(m: nat, n: nat, extension: string)
    requires m != n
    ensures FrameFileName(m, extension) != FrameFileName(n, extension)
  {
    DigitsValueOfNatToString(m);
    DigitsValueOfNatToString(n);
    var dm, dn := NatToString(m), NatToString(n);
    assert dm != dn;
    var a, b := FrameFileName(m, extension), FrameFileName(n, extension);
    if |dm| == |dn| {
      assert a[6..6 + |dm|] == dm;
      assert b[6..6 + |dn|] == dn;
    }
  }

}
