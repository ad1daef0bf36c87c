/**
 * FastLED colour values as the effects see them (CRGB and CHSV), the
 * 4-stop palette used by Fire, and the 18-byte LED buffer viewed as six
 * RGB pixels.
 */
module Color {
  import opened Bytes

  /** Number of LED channels and of RGB pixels. */
  const LED: nat := 18
  const RGB: nat := 6

  datatype Rgb = Rgb(r: byte, g: byte, b: byte)
  datatype Hsv = Hsv(h: byte, s: byte, v: byte)

  /** CRGBPalette16 built from four stop colours (black, low, mid, high). */
  datatype Palette = Palette(c0: Rgb, c1: Rgb, c2: Rgb, c3: Rgb)

  const Black := Rgb(0, 0, 0)

  /** Channel k (0 = red, 1 = green, 2 = blue) of a colour, as `color[k]`. */
  function Channel(c: Rgb, k: nat): byte
    requires k < 3
  {
    if k == 0 then c.r else if k == 1 then c.g else c.b
  }

  /** The colour of pixel p in an LED buffer (bytes 3p, 3p+1, 3p+2). */
  function Pixel(s: seq<byte>, p: nat): Rgb
    requires 3 * p + 2 < |s|
  {
    Rgb(s[3 * p], s[3 * p + 1], s[3 * p + 2])
  }

  /** The LED buffer that shows six pixel colours. */
  function Frame(colors: seq<Rgb>): (buf: seq<byte>)
    requires |colors| == RGB
    ensures |buf| == LED
  {
    seq(LED, i requires 0 <= i < LED => Channel(colors[i / 3], i % 3))
  }

  /** Six pixels of one colour. */
  function Uniform(c: Rgb): (colors: seq<Rgb>)
    ensures |colors| == RGB && forall p :: 0 <= p < RGB ==> colors[p] == c
  {
    seq(RGB, _ => c)
  }

  /** A buffer whose six pixels show the colours is their frame. */
  lemma FrameOfPixels(buf: seq<byte>, colors: seq<Rgb>)
    requires |buf| == LED && |colors| == RGB
    requires forall p :: 0 <= p < RGB ==> Pixel(buf, p) == colors[p]
    ensures buf == Frame(colors)
  {
    forall i | 0 <= i < LED
      ensures buf[i] == Frame(colors)[i]
    {
      assert Pixel(buf, i / 3) == colors[i / 3];
    }
  }
}
