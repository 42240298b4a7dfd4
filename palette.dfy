/** The demo's colour table and its brightness adjustment (demo/palette.cpp). */
module Palette {
  import opened Bytes

  datatype Color = Color(r: byte, g: byte, b: byte)

  const NumColors: nat := 6

  /** The six base colours, indexed by a rectangle's index modulo NumColors. */
  const Colors: seq<Color> := [
    Color(0xFF, 0x77, 0x77),
    Color(0x77, 0xFF, 0x77),
    Color(0x77, 0x77, 0xFF),
    Color(0xFF, 0x77, 0xFF),
    Color(0xFF, 0xFF, 0x77),
    Color(0x77, 0xFF, 0xFF)
  ]

  /** adjustComponent: c + a, clamped into the range of a channel. */
  function AdjustComponent(c: int, a: int): (r: byte)
    ensures c + a < 0 ==> r == 0
    ensures 0 <= c + a <= 255 ==> r as int == c + a
    ensures c + a > 255 ==> r == 255
  {
    var v := c + a;
    if v < 0 then 0
    else if v > 255 then 255
    else v as byte
  }

  /** The clamp is monotone in the adjustment: a larger a never gives a darker channel. */
  lemma {:induction false} AdjustComponentMonotone(c: int, a: int, a': int)
    requires a <= a'
    ensures AdjustComponent(c, a) <= AdjustComponent(c, a')
  {
  }

  /** adjustBrightness: a new colour with every channel adjusted by the same amount. */
  function AdjustBrightness(c: Color, a: int): (r: Color)
    ensures r.r == AdjustComponent(c.r as int, a)
    ensures r.g == AdjustComponent(c.g as int, a)
    ensures r.b == AdjustComponent(c.b as int, a)
  {
    Color(AdjustComponent(c.r as int, a), AdjustComponent(c.g as int, a), AdjustComponent(c.b as int, a))
  }

  /** Adjusting by 0 gives the colour back; a negative adjustment never brightens a channel. */
  lemma {:induction false} AdjustBrightnessDarkens(c: Color, a: int)
    requires a <= 0
    ensures var d := AdjustBrightness(c, a);
      d.r <= c.r && d.g <= c.g && d.b <= c.b && (a == 0 ==> d == c)
  {
    AdjustComponentMonotone(c.r as int, a, 0);
    AdjustComponentMonotone(c.g as int, a, 0);
    AdjustComponentMonotone(c.b as int, a, 0);
  }

  /**
   * The palette written into each PNG file: white for the background, then the
   * base colours for the fills, then the same colours darkened by 0x33 for the
   * strokes.
   */
  function PngPalette(): (p: seq<Color>)
    ensures |p| == 1 + 2 * NumColors
  {
    [Color(0xFF, 0xFF, 0xFF)] + Colors + seq(NumColors, i requires 0 <= i < NumColors => AdjustBrightness(Colors[i], -0x33))
  }

  /** Every darkened colour keeps its hue: 0xFF becomes 0xCC and 0x77 becomes 0x44. */
  lemma {:induction false} DarkenedColors()
    ensures forall i :: 0 <= i < NumColors ==>
      var c, d := Colors[i], PngPalette()[1 + NumColors + i];
      (c.r == 0xFF ==> d.r == 0xCC) && (c.r == 0x77 ==> d.r == 0x44) &&
      (c.g == 0xFF ==> d.g == 0xCC) && (c.g == 0x77 ==> d.g == 0x44) &&
      (c.b == 0xFF ==> d.b == 0xCC) && (c.b == 0x77 ==> d.b == 0x44)
  {
  }
}
