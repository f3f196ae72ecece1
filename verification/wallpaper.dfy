/** The file name of the wallpaper variant for a bucket:
    `IMAGE_PREFIX + str(index) + IMAGE_EXTENSION`. */
module Wallpaper {
  import SolarPhase

  const ImagePrefix: string := "mojave_dynamic_"
  const ImageExtension: string := ".jpeg"

  predicate IsDigit(c: char) {
    '0' <= c <= '9'
  }

  predicate AllDigits(s: string) {
    forall i :: 0 <= i < |s| ==> IsDigit(s[i])
  }

  /** `str(n)` for a natural number: its decimal digits, no leading zero. */
  function Decimal(n: nat): (s: string)
    ensures s != [] && AllDigits(s)
    ensures s[0] == '0' ==> s == "0"
    decreases n
  {
    if n < 10 then [('0' as int + n) as char]
    else Decimal(n / 10) + [('0' as int + n % 10) as char]
  }

  /** The number a string of decimal digits denotes. */
  function DigitsValue(s: string): nat
    requires AllDigits(s)
  {
    if s == [] then 0
    else DigitsValue(s[..|s| - 1]) * 10 + (s[|s| - 1] as int - '0' as int)
  }

  /** Reading the digits back gives the number. */
  lemma {:induction false} DecimalValue(n: nat)
    ensures DigitsValue(Decimal(n)) == n
    decreases n
  {
    if n >= 10 {
      DecimalValue(n / 10);
      var s := Decimal(n);
      assert s[..|s| - 1] == Decimal(n / 10);
    }
  }

  /** Digits without a leading zero and not all zero denote a positive number. */
  lemma {:induction false} LeadingDigitPositive(s: string)
    requires s != [] && AllDigits(s) && s[0] != '0'
    ensures DigitsValue(s) >= 1
    decreases |s|
  {
    if |s| > 1 {
      LeadingDigitPositive(s[..|s| - 1]);
    }
  }

  /** A string of digits with no leading zero is `str` of the number it
      denotes, so such a string is fixed by its value. */
  lemma {:induction false} DigitsDecimal(s: string)
    requires s != [] && AllDigits(s) && (s[0] == '0' ==> s == "0")
    ensures Decimal(DigitsValue(s)) == s
    decreases |s|
  {
    if |s| > 1 {
      var init := s[..|s| - 1];
      LeadingDigitPositive(init);
      DigitsDecimal(init);
      var n := DigitsValue(s);
      assert n / 10 == DigitsValue(init) && n % 10 == s[|s| - 1] as int - '0' as int;
    }
  }

  /** The name of the image for bucket `index`: the prefix, then digits that
      read back as `index`, then the extension. */
  function ImageFileName(index: nat): (f: string)
    ensures |f| > |ImagePrefix| + |ImageExtension|
    ensures f[..|ImagePrefix|] == ImagePrefix && f[|f| - |ImageExtension|..] == ImageExtension
    ensures var digits := f[|ImagePrefix|..|f| - |ImageExtension|];
      && digits != [] && AllDigits(digits) && (digits[0] == '0' ==> digits == "0")
      && DigitsValue(digits) == index
  {
    var digits := Decimal(index);
    var f := ImagePrefix + digits + ImageExtension;
    assert f[|ImagePrefix|..|f| - |ImageExtension|] == digits;
    DecimalValue(index);
    f
  }

  /** Different buckets never share an image file. */
  lemma ImageFileNameInjective(i: nat, j: nat)
    requires ImageFileName(i) == ImageFileName(j)
    ensures i == j
  {
  }

  /** The image the script applies at `now`, chosen by the selector as
      written: always one of the sixteen pre-rendered variants. */
  function ImageFor(d: SolarPhase.SolarDay, yesterdayDusk: int, now: int): (f: string)
    ensures exists k :: 1 <= k <= 16 && f == ImageFileName(k)
  {
    var k := SolarPhase.PhaseIndex(d, yesterdayDusk, now);
    ImageFileName(k)
  }

  /** The image the corrected selector would choose. */
  function ImageForHalfOpen(d: SolarPhase.SolarDay, yesterdayDusk: int, now: int): (f: string)
    ensures exists k :: 1 <= k <= 16 && f == ImageFileName(k)
  {
    var k := SolarPhase.PhaseIndexHalfOpen(d, yesterdayDusk, now);
    ImageFileName(k)
  }

  /** At the dusk instant the script applies the late-night image 16, where
      the corrected selector gives the evening image 15; at every other
      instant the two images agree. */
  lemma ImageAtDusk(d: SolarPhase.SolarDay, yesterdayDusk: int, now: int)
    requires SolarPhase.Ordered(d)
    ensures yesterdayDusk <= d.dawn ==> ImageFor(d, yesterdayDusk, d.dusk) == ImageFileName(16)
    ensures d.dusk + 2 <= d.dawn + SolarPhase.Day ==>
      ImageForHalfOpen(d, yesterdayDusk, d.dusk) == ImageFileName(15)
    ensures now != d.dusk ==> ImageFor(d, yesterdayDusk, now) == ImageForHalfOpen(d, yesterdayDusk, now)
  {
    if yesterdayDusk <= d.dawn {
      SolarPhase.DuskInstantAsWritten(d, yesterdayDusk);
    }
    if d.dusk + 2 <= d.dawn + SolarPhase.Day {
      SolarPhase.DuskInstantHalfOpen(d, yesterdayDusk);
    }
    SolarPhase.HalfOpenNight(d, yesterdayDusk, now);
  }
}
