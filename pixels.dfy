/** Colours, the LED library's colour operations, and the frames the
    animations of state.cpp put on the strip. */
module Pixels {
  import opened Types

  /** `CRGB`. */
  datatype Color = Rgb(r: uint8, g: uint8, b: uint8)

  const Black: Color := Rgb(0, 0, 0)

  /** The colour operations of the LED library, which this model does not
      define; the animations are stated in terms of them. */
  datatype Palette = Palette(
    hsv: (uint8, uint8, uint8) -> Color,     // CHSV(hue, saturation, value) as a CRGB
    fadeToBlackBy: (Color, uint8) -> Color,  // what fadeToBlackBy does to one LED
    blend: (Color, Color, uint8) -> Color,   // blend(p1, p2, amountOfP2)
    rainbow: (nat, uint8) -> Color,          // LED i of fill_rainbow with hue 0 and step delta
    heatColor: uint8 -> Color)               // ColorFromPalette(HeatColors_p, scale8(heat, 240))

  /** An `int` passed where the library takes an 8-bit value: it is taken
      modulo 256. */
  function Byte(x: int): (b: uint8)
    ensures 0 <= x < 256 ==> b == x
    ensures (x - b) % 256 == 0
  {
    x % 256
  }

  /** Every one of `n` LEDs showing `c` (`showColor`, `fill_solid`). */
  function Solid(n: nat, c: Color): (f: seq<Color>)
    ensures |f| == n
    ensures forall i :: 0 <= i < n ==> f[i] == c
  {
    seq(n, _ => c)
  }

  /** The knight-rider frame: `c` at `position`, black elsewhere. */
  function KnightRiderFrame(n: nat, position: int, c: Color): (f: seq<Color>)
    ensures |f| == n
  {
    seq(n, i => if i == position then c else Black)
  }

  /** A lit colour lights exactly one LED when the position is on the strip,
      and none otherwise. */
  lemma KnightRiderOneLit(n: nat, position: int, c: Color)
    requires c != Black
    ensures var f := KnightRiderFrame(n, position, c);
      && (forall i, j :: 0 <= i < j < n && f[i] != Black ==> f[j] == Black)
      && ((exists i :: 0 <= i < n && f[i] != Black) <==> 0 <= position < n)
      && (0 <= position < n ==> f[position] == c)
  {
    var f := KnightRiderFrame(n, position, c);
    if 0 <= position < n {
      assert f[position] != Black;
    }
  }

  /** The blend amount the balls animation passes: the `double` 0.5 converted
      to the library's 8-bit fraction. */
  const BallBlendAmount: uint8 := 0

  /** The frame after the first `k` balls are drawn on a black strip of `n`
      LEDs: a ball on a black LED paints it, a ball on a lit LED blends. */
  function BallsFrame(n: nat, positions: seq<int>, colors: seq<Color>, pal: Palette, k: nat): (f: seq<Color>)
    requires k <= |positions| && k <= |colors|
    requires forall i :: 0 <= i < k ==> 0 <= positions[i] < n
    ensures |f| == n
  {
    if k == 0 then Solid(n, Black)
    else
      var prev := BallsFrame(n, positions, colors, pal, k - 1);
      var p := positions[k - 1];
      var c := colors[k - 1];
      prev[p := if prev[p] == Black then c else pal.blend(c, prev[p], BallBlendAmount)]
  }

  /** An LED no ball sits on stays black. */
  lemma {:induction false} BallsFrameDark(n: nat, positions: seq<int>, colors: seq<Color>, pal: Palette, k: nat, p: nat)
    requires k <= |positions| && k <= |colors|
    requires forall i :: 0 <= i < k ==> 0 <= positions[i] < n
    requires p < n
    requires forall i :: 0 <= i < k ==> positions[i] != p
    ensures BallsFrame(n, positions, colors, pal, k)[p] == Black
  {
    if k > 0 {
      BallsFrameDark(n, positions, colors, pal, k - 1, p);
    }
  }

  /** When no two balls share an LED, each ball shows its own colour. */
  lemma {:induction false} BallsFrameDistinct(n: nat, positions: seq<int>, colors: seq<Color>, pal: Palette, k: nat, i: nat)
    requires k <= |positions| && k <= |colors|
    requires forall j :: 0 <= j < k ==> 0 <= positions[j] < n
    requires forall j, l :: 0 <= j < l < k ==> positions[j] != positions[l]
    requires i < k
    ensures BallsFrame(n, positions, colors, pal, k)[positions[i]] == colors[i]
  {
    if i == k - 1 {
      BallsFrameDark(n, positions, colors, pal, k - 1, positions[i]);
    } else {
      BallsFrameDistinct(n, positions, colors, pal, k - 1, i);
    }
  }
}
