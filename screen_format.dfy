/** The two pure mappings of the binary-subtitle editor form: the frame-rate
    code of a PGS stream to the frame-rate combo box entry
    (`BinEdit.SetFrameRate`), and the screen size to the `VideoFormat`
    attribute of a BDN XML file (`BinEdit.WriteBdnXmlFile`). */
module ScreenFormat {
  import opened Basics

  /** The entries of the frame-rate combo box, in order. */
  const FrameRateItems: seq<string> := ["23.976", "24", "25", "29.97", "30", "50", "59.94", "60"]

  /** `SetFrameRate`: the combo index chosen for a frame-rate code; unknown
      codes choose the first entry. */
  function FrameRateIndex(fpsId: int): (idx: nat)
    ensures idx < |FrameRateItems|
  {
    match fpsId
    case 0x20 => 1
    case 0x30 => 2
    case 0x40 => 3
    case 0x50 => 4
    case 0x60 => 5
    case 0x70 => 6
    case 0x80 => 7
    case _ => 0
  }

  /** The frame rate each PGS code stands for; any other code stands for 23.976. */
  const NominalRates: map<int, string> :=
    map[0x20 := "24", 0x30 := "25", 0x40 := "29.97", 0x50 := "30",
        0x60 := "50", 0x70 := "59.94", 0x80 := "60"]

  /** The combo entry selected for a code is the code's nominal rate. */
  lemma FrameRateIndexSelectsNominalRate(fpsId: int)
    ensures FrameRateItems[FrameRateIndex(fpsId)] ==
      if fpsId in NominalRates then NominalRates[fpsId] else "23.976"
  {
  }

  /** Entry `i` other than the first is chosen by code `(i + 1) * 0x10` and
      by no other code; every other code chooses the first entry. */
  lemma FrameRateIndexIff(fpsId: int, i: int)
    requires 1 <= i < |FrameRateItems|
    ensures FrameRateIndex(fpsId) == i <==> fpsId == (i + 1) * 0x10
    ensures FrameRateIndex(fpsId) == 0 <==> fpsId !in NominalRates
  {
  }

  /** The character of a decimal digit. */
  function DigitChar(d: nat): (c: char)
    requires d < 10
    ensures '0' <= c <= '9' && c as int - '0' as int == d
  {
    (d + '0' as int) as char
  }

  predicate IsDigit(c: char)
  {
    '0' <= c <= '9'
  }

  predicate AllDigits(s: string)
  {
    forall i :: 0 <= i < |s| ==> IsDigit(s[i])
  }

  /** `int.ToString()` of a non-negative number: its decimal digits. */
  function Decimal(n: nat): (s: string)
    ensures |s| > 0 && AllDigits(s)
    decreases n
  {
    if n < 10 then [DigitChar(n)] else Decimal(n / 10) + [DigitChar(n % 10)]
  }

  /** The number a string of decimal digits denotes. */
  function ParseDecimal(s: string): nat
    requires AllDigits(s)
  {
    if |s| == 0 then 0
    else ParseDecimal(s[..|s| - 1]) * 10 + (s[|s| - 1] as int - '0' as int)
  }

  lemma {:induction false} DecimalRoundTrip(n: nat)
    ensures ParseDecimal(Decimal(n)) == n
    decreases n
  {
    if n >= 10 {
      var s := Decimal(n);
      assert s[..|s| - 1] == Decimal(n / 10);
      DecimalRoundTrip(n / 10);
    }
  }

  /** `WriteBdnXmlFile`'s choice of `VideoFormat`: the three presets, else
      "{width}x{height}" for a positive size, else the default "1080p". */
  function VideoFormat(screenWidth: int, screenHeight: int): string
  {
    if screenWidth == 1920 && screenHeight == 1080 then "1080p"
    else if screenWidth == 1280 && screenHeight == 720 then "720p"
    else if screenWidth == 848 && screenHeight == 480 then "480p"
    else if screenWidth > 0 && screenHeight > 0 then Decimal(screenWidth) + "x" + Decimal(screenHeight)
    else "1080p"
  }

  /** Reads a `VideoFormat` value back as a screen size. */
  function ParseVideoFormat(s: string): Option<(int, int)>
  {
    if s == "1080p" then Some((1920, 1080))
    else if s == "720p" then Some((1280, 720))
    else if s == "480p" then Some((848, 480))
    else
      var i := IndexOfAny(s, {'x'}, 0);
      if i < 0 then None
      else
        var w, h := s[..i], s[i + 1..];
        if |w| > 0 && |h| > 0 && AllDigits(w) && AllDigits(h) then Some((ParseDecimal(w), ParseDecimal(h)))
        else None
  }

  /** Every positive screen size is recovered from its `VideoFormat`: the
      presets map to their sizes and any other size is written out in full. */
  lemma VideoFormatRoundTrip(screenWidth: int, screenHeight: int)
    requires screenWidth > 0 && screenHeight > 0
    ensures ParseVideoFormat(VideoFormat(screenWidth, screenHeight)) == Some((screenWidth, screenHeight))
  {
    var f := VideoFormat(screenWidth, screenHeight);
    if !(screenWidth == 1920 && screenHeight == 1080) && !(screenWidth == 1280 && screenHeight == 720) &&
       !(screenWidth == 848 && screenHeight == 480) {
      var w, h := Decimal(screenWidth), Decimal(screenHeight);
      assert f == w + "x" + h;
      assert f[|w|] == 'x';
      assert forall j :: 0 <= j < |w| ==> f[j] == w[j] && IsDigit(f[j]);
      assert f != "1080p" && f != "720p" && f != "480p" by {
        assert f[|w|] == 'x';
        assert "1080p"[0] == '1' && "720p"[0] == '7' && "480p"[0] == '4';
        if |w| >= 4 {
          assert "1080p"[4] == 'p' && "720p"[3] == 'p' && "480p"[3] == 'p';
        }
      }
      assert IndexOfAny(f, {'x'}, 0) == |w|;
      assert f[..|w|] == w && f[|w| + 1..] == h;
      DecimalRoundTrip(screenWidth);
      DecimalRoundTrip(screenHeight);
    }
  }

  /** A size with a non-positive side keeps the default. */
  lemma NonPositiveSizeKeepsDefault(screenWidth: int, screenHeight: int)
    requires screenWidth <= 0 || screenHeight <= 0
    ensures VideoFormat(screenWidth, screenHeight) == "1080p"
  {
  }
}
