/** The few Python `str` built-ins the path builders use: `find`, `rfind`, slicing, `str(int)` and `zfill`. */
module PyStr {

  /** `s.find(c)`: the index of the first `c`, or -1. */
  function Find(s: string, c: char): (r: int)
    ensures -1 <= r < |s|
    ensures r == -1 <==> c !in s
    ensures r >= 0 ==> s[r] == c && c !in s[..r]
  {
    if |s| == 0 then -1
    else if s[0] == c then 0
    else
      var r := Find(s[1..], c);
      if r == -1 then -1
      else
        assert s[..r + 1] == [s[0]] + s[1..][..r];
        r + 1
  }

  /** `s.rfind(c)`: the index of the last `c`, or -1. */
  function RFind(s: string, c: char): (r: int)
    ensures -1 <= r < |s|
    ensures r == -1 <==> c !in s
    ensures r >= 0 ==> s[r] == c && c !in s[r + 1..]
  {
    if |s| == 0 then -1
    else if s[|s| - 1] == c then |s| - 1
    else
      var r := RFind(s[..|s| - 1], c);
      RFindStep(s, c, r);
      r
  }

  /** The last `c` of `s` is the last `c` of `s` without its final character, when that character is not `c`. */
  lemma RFindStep(s: string, c: char, r: int)
    requires |s| > 0 && s[|s| - 1] != c && -1 <= r < |s| - 1
    requires r == -1 <==> c !in s[..|s| - 1]
    requires r >= 0 ==> s[r] == c && c !in s[..|s| - 1][r + 1..]
    ensures r == -1 <==> c !in s
    ensures r >= 0 ==> c !in s[r + 1..]
  {
    var init := s[..|s| - 1];
    if c in s {
      var i :| 0 <= i < |s| && s[i] == c;
      assert i < |s| - 1 && init[i] == c;
    }
    if r >= 0 {
      assert s[r] == c;
      forall i | r + 1 <= i < |s|
        ensures s[i] != c
      {
        if i < |s| - 1 {
          assert init[r + 1..][i - r - 1] == s[i];
        }
      }
    }
  }

  /** A Python slice bound `i` of a string of length `n`: a negative bound counts from the end; both are clamped. */
  function SliceBound(n: nat, i: int): (r: nat)
    ensures r <= n
  {
    if i < 0 then (if n + i < 0 then 0 else n + i)
    else if i > n then n
    else i
  }

  /** `s[:i]` */
  function Before(s: string, i: int): string {
    s[..SliceBound(|s|, i)]
  }

  /** `s[i:]` */
  function From(s: string, i: int): string {
    s[SliceBound(|s|, i)..]
  }

  predicate IsDigit(c: char) {
    '0' <= c <= '9'
  }

  predicate AllDigits(s: string) {
    forall i :: 0 <= i < |s| ==> IsDigit(s[i])
  }

  function DigitChar(d: nat): (c: char)
    requires d < 10
    ensures IsDigit(c) && c as int - '0' as int == d
  {
    ('0' as int + d) as char
  }

  /** `str(n)` for a natural number: its decimal digits, without leading zeros. */
  function NatToStr(n: nat): (r: string)
    ensures |r| >= 1 && AllDigits(r)
    ensures |r| > 1 ==> r[0] != '0'
  {
    if n < 10 then [DigitChar(n)] else NatToStr(n / 10) + [DigitChar(n % 10)]
  }

  /** `str(n)` for any integer: a minus sign before the digits of `-n` when `n` is negative. */
  function IntToStr(n: int): string {
    if n < 0 then "-" + NatToStr(-n) else NatToStr(n)
  }

  /** `k` copies of the character '0'. */
  function Zeros(k: nat): (r: string)
    ensures |r| == k && forall i :: 0 <= i < k ==> r[i] == '0'
  {
    if k == 0 then "" else Zeros(k - 1) + "0"
  }

  /** `s.zfill(width)`: pads with '0' on the left up to `width`; the zeros go after a leading sign. */
  function ZFill(s: string, width: int): string {
    if |s| >= width then s
    else if |s| > 0 && (s[0] == '+' || s[0] == '-') then [s[0]] + Zeros(width - |s|) + s[1..]
    else Zeros(width - |s|) + s
  }

  /** The number a string of decimal digits denotes. */
  function DigitsValue(s: string): nat
    requires AllDigits(s)
  {
    if s == [] then 0 else DigitsValue(s[..|s| - 1]) * 10 + (s[|s| - 1] as int - '0' as int)
  }

  /** `str(n)` reads back as `n`. */
  lemma {:induction false} NatToStrValue(n: nat)
    ensures DigitsValue(NatToStr(n)) == n
  {
    if n >= 10 {
      NatToStrValue(n / 10);
      var s := NatToStr(n);
      assert s[..|s| - 1] == NatToStr(n / 10);
    }
  }

  /** Leading zeros do not change the value of a digit string. */
  lemma {:induction false} LeadingZerosValue(k: nat, s: string)
    requires AllDigits(s)
    ensures AllDigits(Zeros(k) + s) && DigitsValue(Zeros(k) + s) == DigitsValue(s)
  {
    var z := Zeros(k) + s;
    assert AllDigits(z) by {
      forall i | 0 <= i < |z| ensures IsDigit(z[i]) {
        if i >= k { assert z[i] == s[i - k]; }
      }
    }
    if s == [] {
      assert z == Zeros(k);
      ZerosValue(k);
    } else {
      var s' := s[..|s| - 1];
      LeadingZerosValue(k, s');
      assert z[..|z| - 1] == Zeros(k) + s';
    }
  }

  lemma {:induction false} ZerosValue(k: nat)
    ensures AllDigits(Zeros(k)) && DigitsValue(Zeros(k)) == 0
  {
    if k > 0 {
      ZerosValue(k - 1);
      assert Zeros(k)[..k - 1] == Zeros(k - 1);
    }
  }

  function Pow10(k: nat): (r: nat)
    ensures r >= 1
  {
    if k == 0 then 1 else 10 * Pow10(k - 1)
  }

  /** A number below `10^k` (k >= 1) has at most `k` digits. */
  lemma {:induction false} NatToStrLength(n: nat, k: nat)
    requires k >= 1 && n < Pow10(k)
    ensures |NatToStr(n)| <= k
  {
    if n >= 10 {
      assert k >= 2;
      NatToStrLength(n / 10, k - 1);
    }
  }

  /** `str(n).zfill(w)` of a natural number is all digits, at least `w` long, and still reads back as `n`;
      below `10^w` it is exactly `w` long. */
  lemma ZFillNat(n: nat, w: nat)
    ensures var z := ZFill(IntToStr(n), w);
      && AllDigits(z) && DigitsValue(z) == n
      && |z| >= w && |z| >= |NatToStr(n)|
      && (w >= 1 && n < Pow10(w) ==> |z| == w)
  {
    var s := NatToStr(n);
    NatToStrValue(n);
    if |s| < w {
      ZFillPads(s, w);
    }
    if w >= 1 && n < Pow10(w) {
      NatToStrLength(n, w);
    }
  }

  /** A digit string shorter than `w` is padded with zeros ahead of it. */
  lemma ZFillPads(s: string, w: nat)
    requires AllDigits(s) && 1 <= |s| < w
    ensures ZFill(s, w) == Zeros(w - |s|) + s
    ensures AllDigits(ZFill(s, w)) && DigitsValue(ZFill(s, w)) == DigitsValue(s)
  {
    assert IsDigit(s[0]);
    LeadingZerosValue(w - |s|, s);
  }
}
