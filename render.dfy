/** The animation loop of state.cpp: the LED buffer, the animations that
    fill it, and `stateLoop`, which throttles to the configured frame rate
    and dispatches on the mode.

    The clock and the random draws are inputs (`FrameInputs`); the easing
    curves are the parameter `shape`; the LED library's colour operations
    are a `Palette`; `shown` records what the driver last put on the strip. */
module Render {
  import opened Types
  import opened Names
  import opened StateMachine
  import opened Ease
  import opened ConfigStore
  import opened Pixels
  import opened Heat

  /** The integer easing curve for an easing, a period and a multiplier:
      `ts` maps to `round(f(ts / (period - 1)) * mult)` in the source. */
  type Shape = (Easing, uint32, int) -> (nat -> int)

  /** One entry of the balls animation's `ballsInfo`: a time offset, a speed
      multiplier `1 + jitter / 50` and a colour, chosen on first use. */
  datatype Ball = Ball(timeOffset: nat, jitter: nat, color: Color)

  /** The readings of the clock and of the random generator one frame uses. */
  datatype FrameInputs = FrameInputs(
    now: nat,                 // millis()
    offsets: seq<nat>,        // random(period * 2), one per ball, on first use
    jitters: seq<nat>,        // random(50), one per ball, on first use
    coolDraws: seq<uint8>,    // random8(0, limit), one per cell
    sparkRoll: uint8,         // random8()
    sparkCell: nat,           // random8(7)
    sparkHeat: uint8)         // random8(160, 255)

  /** The cooling limit: `(fire_cooling * 10) / num_leds + 2`, passed to
      `random8` as an 8-bit value. */
  function CoolingLimit(cooling: uint8, n: nat): uint8
    requires n > 0
  {
    Byte(cooling * 10 / n + 2)
  }

  /** `random8(0, limit)` yields a value below the limit, or 0 for a limit of 0. */
  predicate CoolDraw(d: uint8, limit: uint8) {
    if limit == 0 then d == 0 else d < limit
  }

  /** Largest value of the `long` that `random` takes. */
  const MaxLong: nat := 0x7FFF_FFFF

  /** `random(period * 2)` yields a value below the 32-bit doubled period,
      or 0 when that is 0. A doubled period past `MaxLong` reaches `random`
      as a negative `long`, and the draw is then left unconstrained. */
  predicate OffsetDraw(d: nat, twice: nat) {
    if twice == 0 then d == 0 else twice <= MaxLong ==> d < twice
  }

  /** The draws are ones the random generator can produce. */
  predicate Drawn(inp: FrameInputs, s: StateValue, n: nat) {
    && 0 < n <= MaxLeds
    && |inp.offsets| >= MaxBalls as nat && |inp.jitters| >= MaxBalls as nat
    && (forall i :: 0 <= i < |inp.offsets| ==> OffsetDraw(inp.offsets[i], DoubledPeriod(s.period)))
    && (forall i :: 0 <= i < |inp.jitters| ==> inp.jitters[i] < 50)
    && |inp.coolDraws| >= MaxLeds
    && (forall i :: 0 <= i < n ==> CoolDraw(inp.coolDraws[i], CoolingLimit(s.fireCooling, n)))
    && inp.sparkCell < SparkCells
    && 160 <= inp.sparkHeat < 255
  }

  /** `initializeBalls`: ball `i` gets hue `i * 255 / MAX_BALLS` at the
      current saturation and value. */
  function InitialBalls(inp: FrameInputs, s: StateValue, pal: Palette): (bs: seq<Ball>)
    requires |inp.offsets| >= MaxBalls as nat && |inp.jitters| >= MaxBalls as nat
    ensures |bs| == MaxBalls as nat
    ensures forall i :: 0 <= i < MaxBalls as nat ==>
      bs[i].color == pal.hsv(i * 255 / MaxBalls as nat, s.saturation, s.value)
  {
    seq(MaxBalls as nat, i requires 0 <= i < MaxBalls as nat =>
      Ball(inp.offsets[i], inp.jitters[i], pal.hsv(i * 255 / MaxBalls as nat, s.saturation, s.value)))
  }

  /** The time a ball's position is eased at: `round(millis() * multiplier) + timeOffset`. */
  function BallTime(now: nat, b: Ball): nat {
    var x := now as real * (1.0 + b.jitter as real / 50.0);
    MulNonNegative(now as real, 1.0 + b.jitter as real / 50.0);
    RoundNonNegative(x);
    Round(x) + b.timeOffset
  }

  /** Every ball position lands on the strip: what `balls` needs for its
      unchecked `leds[position]`. */
  predicate BallsOnStrip(s: StateValue, n: nat, shape: Shape) {
    CurveBetween(shape(s.easing, s.period, n - 1), s.period, 0, n - 1)
  }

  /** The LED a ball is drawn on. */
  function BallPosition(s: StateValue, b: Ball, now: nat, n: nat, shape: Shape): (p: int)
    requires s.period != ZeroDivisorPeriod
    ensures 0 < n && BallsOnStrip(s, n, shape) ==> 0 <= p < n
  {
    var p := EaseTime(s.period, BallTime(now, b), shape(s.easing, s.period, n - 1));
    assert 0 < n && BallsOnStrip(s, n, shape) ==> 0 <= p < n by {
      if 0 < n && BallsOnStrip(s, n, shape) {
        EaseTimeWithin(s.period, BallTime(now, b), shape(s.easing, s.period, n - 1), 0, n - 1);
      }
    }
    p
  }

  function BallPositions(s: StateValue, bs: seq<Ball>, now: nat, n: nat, shape: Shape): (ps: seq<int>)
    requires s.period != ZeroDivisorPeriod
    ensures |ps| == |bs|
  {
    seq(|bs|, i requires 0 <= i < |bs| => BallPosition(s, bs[i], now, n, shape))
  }

  function BallColors(bs: seq<Ball>): (cs: seq<Color>)
    ensures |cs| == |bs|
  {
    seq(|bs|, i requires 0 <= i < |bs| => bs[i].color)
  }

  /** The curves `easeTime` yields with the corrected normalisation. */
  function CorrectedShape(curves: Easing -> (real -> real)): Shape {
    (e, p, m) => Curve(curves(e), p, m)
  }

  /** The curves `easeTime` yields as written. */
  function ShapeAsWritten(curves: Easing -> (real -> real)): Shape {
    (e, p, m) => CurveAsWritten(curves(e), p, m)
  }

  /** With the corrected normalisation, easing curves that map [0, 1] into
      itself put every ball on the strip, for any state and strip length. */
  lemma CorrectedShapeKeepsBallsOnStrip(curves: Easing -> (real -> real), s: StateValue, n: nat)
    requires forall e :: UnitCurve(curves(e))
    requires 0 < n
    ensures BallsOnStrip(s, n, CorrectedShape(curves))
  {
    var curve := CorrectedShape(curves)(s.easing, s.period, n - 1);
    forall ts | 0 <= ts <= s.period
      ensures 0 <= curve(ts) <= n - 1
    {
      assert UnitCurve(curves(s.easing));
      CurveWithin(curves(s.easing), s.period, n - 1, ts);
    }
  }

  /** As written, the linear curve with a period of 2 on a 16-LED strip
      puts a ball at LED 30, past the end of the strip. */
  lemma ShapeAsWrittenLeavesStrip(curves: Easing -> (real -> real), s: StateValue)
    requires s.period == 2 && curves(s.easing)(2.0) == 2.0
    ensures ShapeAsWritten(curves)(s.easing, s.period, 15)(2) == 30
    ensures !BallsOnStrip(s, 16, ShapeAsWritten(curves))
  {
    assert NormalizedAsWritten(2, 2) == 2.0;
    assert (30.0 + 0.5).Floor == 30;
  }

  /** `fill_rainbow(leds, n, 0, 255 / n)`. */
  function RainbowFrame(n: nat, pal: Palette): (f: seq<Color>)
    requires n > 0
    ensures |f| == n
  {
    seq(n, i requires 0 <= i < n => pal.rainbow(i, 255 / n))
  }

  /** The fire frame: each LED coloured by its cell's heat. */
  function HeatFrame(h: seq<uint8>, n: nat, pal: Palette): (f: seq<Color>)
    requires n <= |h|
    ensures |f| == n
  {
    seq(n, j requires 0 <= j < n => pal.heatColor(h[j]))
  }

  /** The modes whose animation calls `easeTime`: only these divide by
      `period * 2`. */
  predicate Eases(m: Mode) {
    m == Pulse || m == Colorloop || m == Balls || m == KnightRider
  }

  /** The level `pulse` fades by and the hue `colorloop` shows. */
  function Level(s: StateValue, now: nat, shape: Shape): int
    requires s.period != ZeroDivisorPeriod
  {
    EaseTime(s.period, now, shape(s.easing, s.period, 255))
  }

  /** What the strip shows after `stateLoop` renders `s`, given the ball
      table and the heat after the frame. An unrecognised mode shows black. */
  function Frame(s: StateValue, inp: FrameInputs, pal: Palette, shape: Shape, n: nat, bs: seq<Ball>, h: seq<uint8>): (f: seq<Color>)
    requires Eases(s.mode) ==> s.period != ZeroDivisorPeriod
    requires 0 < n <= |h|
    requires s.mode == Balls ==> s.numBalls as nat <= |bs| && BallsOnStrip(s, n, shape)
    ensures |f| == n
  {
    var color := pal.hsv(s.hue, s.saturation, s.value);
    match s.mode
    case Off => Solid(n, Black)
    case On => Solid(n, color)
    case Pulse => Solid(n, pal.fadeToBlackBy(color, Byte(Level(s, inp.now, shape))))
    case Colorloop => Solid(n, pal.hsv(Byte(Level(s, inp.now, shape)), s.saturation, s.value))
    case Rainbow => RainbowFrame(n, pal)
    case Balls =>
      BallsFrame(n, BallPositions(s, bs, inp.now, n, shape), BallColors(bs), pal, s.numBalls as nat)
    case KnightRider => KnightRiderFrame(n, EaseTime(s.period, inp.now, shape(s.easing, s.period, n - 1)), color)
    case Fire => HeatFrame(h, n, pal)
    case Count => Solid(n, Black)
  }

  /** `stateLoop` renders when the time left in the frame, `1000 / fps`
      minus the time since the last render, is no longer positive. */
  predicate Due(lastUpdate: int, now: int, fps: int)
    requires fps > 0
  {
    CDiv(1000, fps) - (now - lastUpdate) <= 0
  }

  /** A frame is due once a whole frame time has passed. */
  lemma DueIff(lastUpdate: int, now: int, fps: int)
    requires fps > 0
    ensures Due(lastUpdate, now, fps) <==> now - lastUpdate >= 1000 / fps
    ensures fps == DefaultFps ==> (Due(lastUpdate, now, fps) <==> now - lastUpdate >= 8)
  {
  }

  class Renderer {
    /** `leds[MAX_LEDS]`. */
    var leds: array<Color>
    /** The strip length given to the driver at setup (`config.num_leds`). */
    var numLeds: nat
    /** What the driver last put on the strip. */
    var shown: seq<Color>
    /** The fire animation's `heat[MAX_LEDS]`. */
    var heat: array<uint8>
    /** The balls animation's `ballsInfo`: empty until first used. */
    var balls: seq<Ball>
    /** `stateLoop`'s `lastUpdate`. */
    var lastUpdate: int

    ghost predicate Valid()
      reads this
    {
      && leds.Length == MaxLeds && heat.Length == MaxLeds
      && 0 < numLeds <= MaxLeds
      && (|balls| == 0 || |balls| == MaxBalls as nat)
    }

    /** `setupState` and the static initialisers: a black buffer, cold
        cells, no balls yet, the frame clock started at `start`. */
    constructor (numLeds: nat, start: int)
      requires 0 < numLeds <= MaxLeds
      ensures Valid() && fresh(leds) && fresh(heat)
      ensures this.numLeds == numLeds && lastUpdate == start
      ensures leds[..] == Solid(MaxLeds, Black)
      ensures forall i :: 0 <= i < MaxLeds ==> heat[i] == 0
      ensures balls == [] && shown == []
    {
      leds := new Color[MaxLeds](_ => Black);
      heat := new uint8[MaxLeds](_ => 0);
      this.numLeds := numLeds;
      shown := [];
      balls := [];
      lastUpdate := start;
    }

    /** `FastLED.showColor(c)`. */
    method ShowColor(c: Color)
      modifies this`shown
      ensures shown == Solid(numLeds, c)
    {
      shown := Solid(numLeds, c);
    }

    /** `FastLED.show()`. */
    method Show()
      requires Valid()
      modifies this`shown
      ensures shown == leds[..numLeds]
    {
      shown := leds[..numLeds];
    }

    /** `fill_solid(leds, num_leds, c)`. */
    method FillSolid(c: Color)
      requires Valid()
      modifies leds
      ensures leds[..numLeds] == Solid(numLeds, c)
      ensures leds[numLeds..] == old(leds[numLeds..])
    {
      var i := 0;
      while i < numLeds
        invariant 0 <= i <= numLeds
        invariant forall j :: 0 <= j < i ==> leds[j] == c
        invariant leds[numLeds..] == old(leds[numLeds..])
      {
        leds[i] := c;
        i := i + 1;
      }
    }

    /** `fadeToBlackBy(leds, num_leds, amount)`. */
    method FadeToBlackBy(pal: Palette, amount: uint8)
      requires Valid()
      modifies leds
      ensures forall j :: 0 <= j < numLeds ==> leds[j] == pal.fadeToBlackBy(old(leds[j]), amount)
      ensures leds[numLeds..] == old(leds[numLeds..])
    {
      var i := 0;
      while i < numLeds
        invariant 0 <= i <= numLeds
        invariant forall j :: 0 <= j < i ==> leds[j] == pal.fadeToBlackBy(old(leds[j]), amount)
        invariant forall j :: i <= j < MaxLeds ==> leds[j] == old(leds[j])
      {
        leds[i] := pal.fadeToBlackBy(leds[i], amount);
        i := i + 1;
      }
    }

    /** `pulse`: the state's colour on every LED, faded by the eased level. */
    method RenderPulse(s: StateValue, inp: FrameInputs, pal: Palette, shape: Shape)
      requires Valid() && s.period != ZeroDivisorPeriod
      modifies this`shown, leds
      ensures shown == Solid(numLeds, pal.fadeToBlackBy(pal.hsv(s.hue, s.saturation, s.value), Byte(Level(s, inp.now, shape))))
      ensures leds[numLeds..] == old(leds[numLeds..])
    {
      var fadeLevel := Level(s, inp.now, shape);
      FillSolid(pal.hsv(s.hue, s.saturation, s.value));
      FadeToBlackBy(pal, Byte(fadeLevel));
      Show();
    }

    /** `colorloop`: the whole strip at the eased hue. */
    method RenderColorloop(s: StateValue, inp: FrameInputs, pal: Palette, shape: Shape)
      requires s.period != ZeroDivisorPeriod
      modifies this`shown
      ensures shown == Solid(numLeds, pal.hsv(Byte(Level(s, inp.now, shape)), s.saturation, s.value))
    {
      var hue := Level(s, inp.now, shape);
      ShowColor(pal.hsv(Byte(hue), s.saturation, s.value));
    }

    /** `rainbow`: one hue sweep across the strip, starting at hue 0. */
    method RenderRainbow(pal: Palette)
      requires Valid()
      modifies this`shown, leds
      ensures shown == RainbowFrame(numLeds, pal)
      ensures leds[numLeds..] == old(leds[numLeds..])
    {
      var delta := 255 / numLeds;
      var i := 0;
      while i < numLeds
        invariant 0 <= i <= numLeds
        invariant forall j :: 0 <= j < i ==> leds[j] == pal.rainbow(j, delta)
        invariant leds[numLeds..] == old(leds[numLeds..])
      {
        leds[i] := pal.rainbow(i, delta);
        i := i + 1;
      }
      Show();
    }

    /** `knight_rider`: one LED at the eased position, the rest black. */
    method RenderKnightRider(s: StateValue, inp: FrameInputs, pal: Palette, shape: Shape)
      requires Valid() && s.period != ZeroDivisorPeriod
      modifies this`shown, leds
      ensures shown == KnightRiderFrame(numLeds, EaseTime(s.period, inp.now, shape(s.easing, s.period, numLeds - 1)),
                                        pal.hsv(s.hue, s.saturation, s.value))
      ensures leds[numLeds..] == old(leds[numLeds..])
    {
      var position := EaseTime(s.period, inp.now, shape(s.easing, s.period, numLeds - 1));
      var color := pal.hsv(s.hue, s.saturation, s.value);
      var i := 0;
      while i < numLeds
        invariant 0 <= i <= numLeds
        invariant forall j :: 0 <= j < i ==> leds[j] == (if j == position then color else Black)
        invariant leds[numLeds..] == old(leds[numLeds..])
      {
        if i == position {
          leds[i] := color;
        } else {
          leds[i] := Black;
        }
        i := i + 1;
      }
      Show();
    }

    /** `balls`: on first use the ball table is drawn; then each of the
        state's balls is painted at its eased position on a black strip. */
    method RenderBalls(s: StateValue, inp: FrameInputs, pal: Palette, shape: Shape)
      requires Valid() && Drawn(inp, s, numLeds) && s.period != ZeroDivisorPeriod
      requires s.numBalls <= MaxBalls && BallsOnStrip(s, numLeds, shape)
      modifies this`shown, this`balls, leds
      ensures Valid()
      ensures balls == if old(balls) == [] then InitialBalls(inp, s, pal) else old(balls)
      ensures shown == BallsFrame(numLeds, BallPositions(s, balls, inp.now, numLeds, shape), BallColors(balls), pal, s.numBalls as nat)
      ensures leds[numLeds..] == old(leds[numLeds..])
    {
      if balls == [] {
        balls := InitialBalls(inp, s, pal);
      }
      FillSolid(Black);
      PaintBalls(s, inp.now, pal, shape);
      Show();
    }

    /** The loop of `balls`: each of the state's balls painted in turn, on
        the strip `fill_solid` blacked out. */
    method PaintBalls(s: StateValue, now: nat, pal: Palette, shape: Shape)
      requires Valid() && |balls| == MaxBalls as nat && s.numBalls <= MaxBalls
      requires s.period != ZeroDivisorPeriod && BallsOnStrip(s, numLeds, shape)
      requires leds[..numLeds] == Solid(numLeds, Black)
      modifies leds
      ensures leds[..numLeds] == BallsFrame(numLeds, BallPositions(s, balls, now, numLeds, shape), BallColors(balls), pal, s.numBalls as nat)
      ensures leds[numLeds..] == old(leds[numLeds..])
    {
      ghost var positions := BallPositions(s, balls, now, numLeds, shape);
      ghost var colors := BallColors(balls);
      var i := 0;
      while i < s.numBalls
        invariant 0 <= i <= s.numBalls
        invariant leds[..numLeds] == BallsFrame(numLeds, positions, colors, pal, i)
        invariant leds[numLeds..] == old(leds[numLeds..])
      {
        var position := BallPosition(s, balls[i], now, numLeds, shape);
        PaintBall(position, balls[i].color, pal);
        i := i + 1;
      }
    }

    /** One ball of `balls`: a black LED takes the ball's colour, a lit one
        is blended with it. */
    method PaintBall(position: nat, color: Color, pal: Palette)
      requires Valid() && position < numLeds
      modifies leds
      ensures leds[..numLeds] == old(leds[..numLeds])[position :=
        if old(leds[position]) == Black then color else pal.blend(color, old(leds[position]), BallBlendAmount)]
      ensures leds[numLeds..] == old(leds[numLeds..])
    {
      if leds[position] == Black {
        leds[position] := color;
      } else {
        leds[position] := pal.blend(color, leds[position], BallBlendAmount);
      }
    }

    /** Step 1 of `fire`: each cell of the strip cools by its draw. */
    method CoolCells(draws: seq<uint8>)
      requires Valid() && |draws| >= numLeds
      modifies heat
      ensures heat[..] == Cooled(old(heat[..]), numLeds, draws)
    {
      var i := 0;
      while i < numLeds
        invariant 0 <= i <= numLeds
        invariant forall j :: 0 <= j < i ==> heat[j] == QSub8(old(heat[j]), draws[j])
        invariant forall j :: i <= j < MaxLeds ==> heat[j] == old(heat[j])
      {
        heat[i] := QSub8(heat[i], draws[i]);
        i := i + 1;
      }
    }

    /** Step 2 of `fire`: heat drifts up, from the top cell down to cell 2. */
    method DiffuseCells()
      requires Valid()
      modifies heat
      ensures heat[..] == Diffused(old(heat[..]), numLeds)
    {
      ghost var h := heat[..];
      var k := numLeds - 1;
      while k >= 2
        invariant 1 <= k + 1 <= numLeds
        invariant forall j :: 0 <= j <= k ==> heat[j] == h[j]
        invariant forall j :: k < j < MaxLeds ==> heat[j] == Diffused(h, numLeds)[j]
        decreases k
      {
        heat[k] := Drift(heat[k - 1], heat[k - 2]);
        k := k - 1;
      }
    }

    /** Step 3 of `fire`: maybe a spark near the bottom. */
    method SparkCell(roll: uint8, sparking: uint8, cell: nat, amount: uint8)
      requires Valid() && cell < SparkCells
      modifies heat
      ensures heat[..] == Sparked(old(heat[..]), roll, sparking, cell, amount)
    {
      if roll < sparking {
        heat[cell] := QAdd8(heat[cell], amount);
      }
    }

    /** `fire`: one simulation step, then each LED coloured by its heat. */
    method RenderFire(s: StateValue, inp: FrameInputs, pal: Palette)
      requires Valid() && Drawn(inp, s, numLeds)
      modifies this`shown, leds, heat
      ensures heat[..] == FireStep(old(heat[..]), numLeds, inp.coolDraws, inp.sparkRoll, s.fireSparking, inp.sparkCell, inp.sparkHeat)
      ensures shown == HeatFrame(heat[..], numLeds, pal)
      ensures leds[numLeds..] == old(leds[numLeds..])
    {
      CoolCells(inp.coolDraws);
      DiffuseCells();
      SparkCell(inp.sparkRoll, s.fireSparking, inp.sparkCell, inp.sparkHeat);
      PaintHeat(pal);
      Show();
    }

    /** Step 4 of `fire`: each LED coloured by its cell's heat. */
    method PaintHeat(pal: Palette)
      requires Valid()
      modifies leds
      ensures leds[..numLeds] == HeatFrame(heat[..], numLeds, pal)
      ensures leds[numLeds..] == old(leds[numLeds..])
    {
      var j := 0;
      while j < numLeds
        invariant 0 <= j <= numLeds
        invariant forall i :: 0 <= i < j ==> leds[i] == pal.heatColor(heat[i])
        invariant leds[numLeds..] == old(leds[numLeds..])
      {
        leds[j] := pal.heatColor(heat[j]);
        j := j + 1;
      }
    }

    /** The `switch` of `stateLoop`: renders the state's mode. */
    method Render(s: StateValue, inp: FrameInputs, pal: Palette, shape: Shape)
      requires Valid() && Drawn(inp, s, numLeds) && s.numBalls <= MaxBalls
      requires Eases(s.mode) ==> s.period != ZeroDivisorPeriod
      requires s.mode == Balls ==> BallsOnStrip(s, numLeds, shape)
      modifies this`shown, this`balls, leds, heat
      ensures Valid()
      ensures s.mode == Balls && old(balls) == [] ==> balls == InitialBalls(inp, s, pal)
      ensures s.mode != Balls || old(balls) != [] ==> balls == old(balls)
      ensures s.mode == Balls ==> |balls| == MaxBalls as nat
      ensures s.mode == Fire ==>
        heat[..] == FireStep(old(heat[..]), numLeds, inp.coolDraws, inp.sparkRoll, s.fireSparking, inp.sparkCell, inp.sparkHeat)
      ensures s.mode != Fire ==> heat[..] == old(heat[..])
      ensures shown == Frame(s, inp, pal, shape, numLeds, balls, heat[..])
    {
      if s.mode == Balls || s.mode == Fire {
        RenderStateful(s, inp, pal, shape);
      } else {
        RenderStateless(s, inp, pal, shape);
      }
    }

    /** The modes that keep no state between frames. */
    method RenderStateless(s: StateValue, inp: FrameInputs, pal: Palette, shape: Shape)
      requires Valid() && s.mode != Balls && s.mode != Fire
      requires Eases(s.mode) ==> s.period != ZeroDivisorPeriod
      modifies this`shown, leds
      ensures shown == Frame(s, inp, pal, shape, numLeds, balls, heat[..])
    {
      match s.mode
      case Off =>
        ShowColor(Black);
      case On =>
        ShowColor(pal.hsv(s.hue, s.saturation, s.value));
      case Pulse =>
        RenderPulse(s, inp, pal, shape);
      case Colorloop =>
        RenderColorloop(s, inp, pal, shape);
      case Rainbow =>
        RenderRainbow(pal);
      case KnightRider =>
        RenderKnightRider(s, inp, pal, shape);
      case Count =>
        ShowColor(Black);
    }

    /** The balls and fire modes, which keep state between frames. */
    method RenderStateful(s: StateValue, inp: FrameInputs, pal: Palette, shape: Shape)
      requires Valid() && Drawn(inp, s, numLeds) && s.numBalls <= MaxBalls
      requires Eases(s.mode) ==> s.period != ZeroDivisorPeriod
      requires s.mode == Balls || s.mode == Fire
      requires s.mode == Balls ==> BallsOnStrip(s, numLeds, shape)
      modifies this`shown, this`balls, leds, heat
      ensures Valid()
      ensures s.mode == Balls && old(balls) == [] ==> balls == InitialBalls(inp, s, pal)
      ensures s.mode != Balls || old(balls) != [] ==> balls == old(balls)
      ensures s.mode == Fire ==>
        heat[..] == FireStep(old(heat[..]), numLeds, inp.coolDraws, inp.sparkRoll, s.fireSparking, inp.sparkCell, inp.sparkHeat)
      ensures s.mode != Fire ==> heat[..] == old(heat[..])
      ensures shown == Frame(s, inp, pal, shape, numLeds, balls, heat[..])
    {
      if s.mode == Balls {
        RenderBalls(s, inp, pal, shape);
      } else {
        RenderFire(s, inp, pal);
      }
    }

    /** `stateLoop`: renders a frame only when one is due, and then restarts
        the frame clock. */
    method Tick(fps: int, s: StateValue, inp: FrameInputs, pal: Palette, shape: Shape) returns (rendered: bool)
      requires Valid() && fps > 0 && Drawn(inp, s, numLeds) && s.numBalls <= MaxBalls
      requires Eases(s.mode) ==> s.period != ZeroDivisorPeriod
      requires s.mode == Balls ==> BallsOnStrip(s, numLeds, shape)
      modifies this`shown, this`balls, this`lastUpdate, leds, heat
      ensures Valid()
      ensures rendered == Due(old(lastUpdate), inp.now, fps)
      ensures !rendered ==> unchanged(this) && unchanged(leds) && unchanged(heat)
      ensures rendered && s.mode == Balls && old(balls) == [] ==> balls == InitialBalls(inp, s, pal)
      ensures rendered && (s.mode != Balls || old(balls) != []) ==> balls == old(balls)
      ensures rendered && s.mode == Balls ==> |balls| == MaxBalls as nat
      ensures rendered && s.mode == Fire ==>
        heat[..] == FireStep(old(heat[..]), numLeds, inp.coolDraws, inp.sparkRoll, s.fireSparking, inp.sparkCell, inp.sparkHeat)
      ensures rendered && s.mode != Fire ==> heat[..] == old(heat[..])
      ensures rendered ==> lastUpdate == inp.now && shown == Frame(s, inp, pal, shape, numLeds, balls, heat[..])
      ensures rendered && (s.mode == Off || s.mode == Count) ==> shown == Solid(numLeds, Black)
    {
      if !Due(lastUpdate, inp.now, fps) {
        return false;
      }
      lastUpdate := inp.now;
      Render(s, inp, pal, shape);
      rendered := true;
    }
  }
}
