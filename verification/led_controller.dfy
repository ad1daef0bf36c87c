/**
 * The LED controller (class CLED of the Preload firmware): it writes colours
 * into an 18-byte LED buffer it was given, and on Update scales a copy of
 * that buffer per colour channel, reorders it to the board's physical
 * channel order (hardware revision A) and hands it to the IS31FL3218 driver.
 */
module LedController {
  import opened Bytes
  import opened Color
  import IS31FL3218

  /** Revision A wiring: scaled byte i is written to driver channel Swap[i]. */
  const Swap: seq<nat> := [0, 1, 2, 9, 10, 11, 3, 4, 5, 12, 13, 14, 6, 7, 8, 15, 16, 17]

  /** The inverse wiring: driver channel j shows scaled byte Unswap[j]. */
  const Unswap: seq<nat> := [0, 1, 2, 6, 7, 8, 12, 13, 14, 3, 4, 5, 9, 10, 11, 15, 16, 17]

  /** Swap is a permutation of 0..17, with Unswap as its inverse. */
  lemma SwapIsPermutation()
    ensures |Swap| == LED && |Unswap| == LED
    ensures forall i :: 0 <= i < LED ==> Swap[i] < LED && Unswap[Swap[i]] == i
    ensures forall j :: 0 <= j < LED ==> Unswap[j] < LED && Swap[Unswap[j]] == j
  {
  }

  /**
   * The buffer `reorder` that Update builds from the scaled bytes: the six
   * pixels in the order 0, 2, 4, 1, 3, 5.
   */
  function Reordered(s: seq<byte>): (r: seq<byte>)
    requires |s| == LED
    ensures |r| == LED
  {
    s[..3] + s[6..9] + s[12..15] + s[3..6] + s[9..12] + s[15..]
  }

  /** Reordered is the wiring: scaled byte i lands on driver channel Swap[i]. */
  lemma ReorderedFollowsSwap(s: seq<byte>)
    requires |s| == LED
    ensures forall i :: 0 <= i < LED ==> Reordered(s)[Swap[i]] == s[i]
    ensures forall j :: 0 <= j < LED ==> Reordered(s)[j] == s[Unswap[j]]
  {
    var r := Reordered(s);
    forall i | 0 <= i < LED
      ensures r[Swap[i]] == s[i]
    {
      if i < 3 {
      } else if i < 6 {
      } else if i < 9 {
      } else if i < 12 {
      } else if i < 15 {
      } else {
      }
    }
    SwapIsPermutation();
    forall j | 0 <= j < LED
      ensures r[j] == s[Unswap[j]]
    {
      assert r[Swap[Unswap[j]]] == s[Unswap[j]];
    }
  }

  /** The reordering only moves bytes: the same bytes, each as often. */
  lemma ReorderedIsPermutation(s: seq<byte>)
    requires |s| == LED
    ensures multiset(Reordered(s)) == multiset(s)
  {
    assert s == s[..3] + s[3..6] + s[6..9] + s[9..12] + s[12..15] + s[15..];
  }

  /** The copy Update scales: byte i multiplied by factor i % 3. */
  function ScaledCopy(s: seq<byte>, factors: seq<byte>, scale8: (byte, byte) -> byte): (r: seq<byte>)
    requires |s| == LED && |factors| == 3
    ensures |r| == LED
  {
    seq(LED, i requires 0 <= i < LED => scale8(s[i], factors[i % 3]))
  }

  class Led {
    var leds: array?<byte>            // m_leds (nullptr until AssignLEDs)
    const scale: array<byte>          // m_scale: red, green, blue factors
    const driver: IS31FL3218.Driver   // m_driver
    const spectrum: Hsv -> Rgb        // hsv2rgb_spectrum
    const scale8: (byte, byte) -> byte  // nscale8_LEAVING_R1_DIRTY
    const revisionA: bool             // whether REVISION_A is defined

    ghost predicate Valid()
      reads this, driver
    {
      scale.Length == 3 && driver.Valid() &&
      scale != driver.pwm &&
      (leds != null ==> leds.Length == LED && leds != scale && leds != driver.pwm)
    }

    constructor (rScale: byte, gScale: byte, bScale: byte,
                 spectrum: Hsv -> Rgb, scale8: (byte, byte) -> byte, revisionA: bool)
      ensures Valid() && leds == null && fresh(scale) && fresh(driver) && fresh(driver.pwm)
      ensures scale[..] == [rScale, gScale, bScale]
      ensures this.spectrum == spectrum && this.scale8 == scale8 && this.revisionA == revisionA
    {
      leds := null;
      scale := new byte[3];
      driver := new IS31FL3218.Driver();
      this.spectrum := spectrum;
      this.scale8 := scale8;
      this.revisionA := revisionA;
      new;
      SetScale(rScale, gScale, bScale);
    }

    /** Initialize(): the driver's initialisation; every LED channel enabled at PWM 0. */
    method Initialize()
      requires Valid()
      modifies driver, driver.pwm, driver.control
      ensures Valid() && driver.deviceState == IS31FL3218.Enable
      ensures forall i :: 0 <= i < LED ==> driver.pwm[i] == 0
      ensures forall led :: 0 <= led < LED ==> driver.GetLEDState(led) == IS31FL3218.Enable
    {
      driver.Initialize();
    }

    method AssignLEDs(buffer: array<byte>)
      requires Valid() && buffer.Length == LED && buffer != scale && buffer != driver.pwm
      modifies this
      ensures Valid() && leds == buffer
    {
      leds := buffer;
    }

    /** SetColor(CRGB): every pixel of the buffer becomes the colour. */
    method SetColor(color: Rgb)
      requires Valid() && leds != null
      modifies leds
      ensures forall i :: 0 <= i < LED ==> leds[i] == Channel(color, i % 3)
    {
      var led := 0;
      while led < LED
        invariant 0 <= led <= LED && led % 3 == 0
        invariant forall i :: 0 <= i < led ==> leds[i] == Channel(color, i % 3)
      {
        leds[led] := color.r;
        leds[led + 1] := color.g;
        leds[led + 2] := color.b;
        led := led + 3;
      }
    }

    /** SetColor(CHSV): the colour converted by hsv2rgb_spectrum. */
    method SetColorHsv(hsv: Hsv)
      requires Valid() && leds != null
      modifies leds
      ensures forall i :: 0 <= i < LED ==> leds[i] == Channel(spectrum(hsv), i % 3)
    {
      SetColor(spectrum(hsv));
    }

    /** SetColor(CRGB, pixel): bytes 3p..3p+2 for a pixel below 6, nothing otherwise. */
    method SetPixelColor(color: Rgb, pixel: byte)
      requires Valid() && leds != null
      modifies leds
      ensures pixel < RGB ==> Pixel(leds[..], pixel) == color
      ensures forall i :: 0 <= i < LED && i / 3 != pixel ==> leds[i] == old(leds[i])
      ensures forall p :: 0 <= p < RGB && p != pixel ==> Pixel(leds[..], p) == Pixel(old(leds[..]), p)
    {
      if pixel < RGB {
        leds[3 * pixel] := color.r;
        leds[3 * pixel + 1] := color.g;
        leds[3 * pixel + 2] := color.b;
      }
    }

    /** SetColor(CHSV, pixel). */
    method SetPixelColorHsv(hsv: Hsv, pixel: byte)
      requires Valid() && leds != null
      modifies leds
      ensures pixel < RGB ==> Pixel(leds[..], pixel) == spectrum(hsv)
      ensures forall i :: 0 <= i < LED && i / 3 != pixel ==> leds[i] == old(leds[i])
      ensures forall p :: 0 <= p < RGB && p != pixel ==> Pixel(leds[..], p) == Pixel(old(leds[..]), p)
    {
      SetPixelColor(spectrum(hsv), pixel);
    }

    method SetScale(rScale: byte, gScale: byte, bScale: byte)
      requires scale.Length == 3
      modifies scale
      ensures scale[..] == [rScale, gScale, bScale]
    {
      scale[0] := rScale;
      scale[1] := gScale;
      scale[2] := bScale;
    }

    /** The scaling loop of Update, on a fresh copy of the LED buffer. */
    method ScaledBuffer() returns (scaled: array<byte>)
      requires Valid() && leds != null
      ensures fresh(scaled) && scaled[..] == ScaledCopy(leds[..], scale[..], scale8)
    {
      scaled := new byte[LED];
      var led := 0;
      while led < LED
        invariant 0 <= led <= LED
        invariant forall i :: 0 <= i < led ==> scaled[i] == scale8(leds[i], scale[i % 3])
        modifies scaled
      {
        scaled[led] := leds[led];
        scaled[led] := scale8(scaled[led], scale[led % 3]);
        led := led + 1;
      }
    }

    /**
     * Update(): without an assigned buffer it returns 0xFF (-1 as uint8_t)
     * and leaves the driver alone; otherwise it writes the scaled, reordered
     * copy to the driver's PWM registers and returns the status of the
     * driver's update write. `i2cPwm` and `i2cUpdate` are what the two I2C
     * writes return.
     */
    method Update(i2cPwm: byte, i2cUpdate: byte) returns (status: byte)
      requires Valid()
      modifies driver.pwm
      ensures leds == null ==> status == 255 && unchanged(driver.pwm)
      ensures leds != null ==> status == i2cUpdate && unchanged(leds)
      ensures leds != null ==> var scaled := ScaledCopy(old(leds[..]), scale[..], scale8);
        driver.pwm[..] == if revisionA then Reordered(scaled) else scaled
    {
      if leds == null {
        return 255;
      }
      var scaled := ScaledBuffer();
      if revisionA {
        var reorder := ReorderBuffer(scaled);
        var _ := driver.SetAllPWM(reorder[..], i2cPwm);
      } else {
        var _ := driver.SetAllPWM(scaled[..], i2cPwm);
      }
      status := driver.Update(i2cUpdate);
    }
  }

  /** The REVISION_A loop of Update: reorder[Swap[i]] := scaled[i]. */
  method ReorderBuffer(scaled: array<byte>) returns (reorder: array<byte>)
    requires scaled.Length == LED
    ensures fresh(reorder) && reorder[..] == Reordered(scaled[..])
  {
    reorder := new byte[LED];
    var index := 0;
    while index < LED
      invariant 0 <= index <= LED
      invariant forall k :: 0 <= k < index ==> reorder[Swap[k]] == scaled[k]
      modifies reorder
    {
      reorder[Swap[index]] := scaled[index];
      index := index + 1;
    }
    SwapIsPermutation();
    ReorderedFollowsSwap(scaled[..]);
    forall j | 0 <= j < LED
      ensures reorder[j] == Reordered(scaled[..])[j]
    {
      assert reorder[Swap[Unswap[j]]] == scaled[Unswap[j]];
    }
  }
}
