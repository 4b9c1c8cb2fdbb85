/**
 * The playback-rate string handed to the speech service. The sidebar slider
 * yields an integer percentage between -50 and 50 in steps of 5, and the
 * application renders it with Python's `{:+d}` format followed by '%', so
 * that 0 becomes "+0%", 10 becomes "+10%" and -5 becomes "-5%".
 */
module Speed {
  import opened Wrappers

  const SliderMin: int := -50
  const SliderMax: int := 50
  const SliderStep: int := 5

  /** The values the slider can produce. */
  predicate SliderValue(pct: int) {
    SliderMin <= pct <= SliderMax && pct % SliderStep == 0
  }

  predicate IsDigit(c: char) {
    '0' <= c <= '9'
  }

  predicate AllDigits(s: string) {
    forall i :: 0 <= i < |s| ==> IsDigit(s[i])
  }

  function DigitChar(d: nat): (c: char)
    requires d < 10
    ensures IsDigit(c) && (c == '0' <==> d == 0)
  {
    ('0' as int + d) as char
  }

  function DigitValue(c: char): (d: nat)
    requires IsDigit(c)
    ensures d < 10 && DigitChar(d) == c
  {
    (c as int - '0' as int) as nat
  }

  /** Decimal rendering of a natural number, as Python's `str` gives it. */
  function Digits(n: nat): (s: string)
    ensures 1 <= |s|
    ensures AllDigits(s)
    ensures |s| > 1 ==> s[0] != '0'
    ensures n < 10 <==> |s| == 1
    decreases n
  {
    if n < 10 then [DigitChar(n)] else Digits(n / 10) + [DigitChar(n % 10)]
  }

  /** The number a string of decimal digits denotes. */
  function NatOf(s: string): nat
    requires AllDigits(s)
  {
    if s == [] then 0 else NatOf(s[..|s| - 1]) * 10 + DigitValue(s[|s| - 1])
  }

  /** `f"{pct:+d}%"`: an explicit sign, the digits of the magnitude, a percent sign. */
  function SpeedString(pct: int): (s: string)
    ensures 3 <= |s| && s[|s| - 1] == '%'
    ensures s[0] == '+' <==> pct >= 0
    ensures s[0] == '-' <==> pct < 0
    ensures AllDigits(s[1..|s| - 1])
  {
    var magnitude := if pct >= 0 then pct else -pct;
    [if pct >= 0 then '+' else '-'] + Digits(magnitude) + ['%']
  }

  /**
   * The rate syntax the speech service accepts: a sign, one or more decimal
   * digits and a trailing '%'. None when the string is not of that form.
   */
  function ParseSpeed(s: string): (r: Option<int>)
    ensures r.Some? ==> 3 <= |s| && s[|s| - 1] == '%'
  {
    if 3 <= |s| && (s[0] == '+' || s[0] == '-') && s[|s| - 1] == '%' && AllDigits(s[1..|s| - 1]) then
      var magnitude: int := NatOf(s[1..|s| - 1]);
      Some(if s[0] == '+' then magnitude else -magnitude)
    else
      None
  }

  lemma {:induction false} NatOfDigits(n: nat)
    ensures NatOf(Digits(n)) == n
    decreases n
  {
    var s := Digits(n);
    if n >= 10 {
      NatOfDigits(n / 10);
      assert s[..|s| - 1] == Digits(n / 10);
    }
  }

  /** The rendered rate reads back as the slider value it came from. */
  lemma SpeedRoundTrip(pct: int)
    ensures ParseSpeed(SpeedString(pct)) == Some(pct)
  {
    var magnitude := if pct >= 0 then pct else -pct;
    var s := SpeedString(pct);
    assert s[1..|s| - 1] == Digits(magnitude);
    NatOfDigits(magnitude);
  }

  /** Distinct slider values give distinct rate strings. */
  lemma SpeedStringInjective(a: int, b: int)
    requires SpeedString(a) == SpeedString(b)
    ensures a == b
  {
    SpeedRoundTrip(a);
    SpeedRoundTrip(b);
  }

  lemma SpeedStringZero()
    ensures SpeedString(0) == "+0%"
  {
  }

  /** For every slider value the magnitude has at most two digits. */
  lemma SliderSpeedString(pct: int)
    requires SliderValue(pct)
    ensures 3 <= |SpeedString(pct)| <= 4
    ensures |SpeedString(pct)| == 3 <==> -10 < pct < 10
  {
  }
}
