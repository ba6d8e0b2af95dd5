/** The reset button (reset.cpp): a short press cycles the mode; holding it
    blinks the external LED ever faster and, after ten seconds, clears the
    stored configuration and restarts the device. */
module Reset {
  import opened Types
  import opened StateMachine
  import opened ConfigStore

  /** A digital pin level. */
  datatype Level = Low | High

  /** Shortest and longest release-to-release press that cycles the mode. */
  const ShortPressMin: int := 50
  const ShortPressMax: int := 1000

  /** A hold this long clears the configuration. */
  const ClearHold: int := 10000

  /** `blinkWithPeriod`: inside [durationMin, durationMax) the LED is LOW in
      even periods and HIGH in odd ones; outside nothing is written. */
  function Blink(duration: int, durationMin: int, durationMax: int, period: int): (w: Option<Level>)
    requires period > 0
    ensures w.Some? <==> durationMin <= duration < durationMax
    ensures w.Some? ==> (w.value == Low <==> CDiv(duration, period) % 2 == 0)
  {
    if duration < durationMin || duration >= durationMax then None
    else Some(if CDiv(duration, period) % 2 == 0 then Low else High)
  }

  /** The write a call makes, as a sequence of zero or one writes. */
  function Writes(w: Option<Level>): seq<Level> {
    if w.Some? then [w.value] else []
  }

  /** The five `blinkWithPeriod` calls of `resetLoop`, in order: each two
      seconds of the hold blink about twice as fast as the two before. */
  function HeldWrites(d: int): seq<Level> {
    Writes(Blink(d, 0, 2000, 500)) + Writes(Blink(d, 2000, 4000, 250)) + Writes(Blink(d, 4000, 6000, 125))
      + Writes(Blink(d, 6000, 8000, 67)) + Writes(Blink(d, 8000, 10000, 30))
  }

  /** The bands do not overlap: a held button gets exactly one LED write
      before the clearing threshold and none from it on, and the write comes
      from the band the hold time falls in. */
  lemma HeldWritesSpec(d: int)
    ensures |HeldWrites(d)| == (if 0 <= d < ClearHold then 1 else 0)
    ensures 0 <= d < 2000 ==> HeldWrites(d) == [Blink(d, 0, 2000, 500).value]
    ensures 2000 <= d < 4000 ==> HeldWrites(d) == [Blink(d, 2000, 4000, 250).value]
    ensures 4000 <= d < 6000 ==> HeldWrites(d) == [Blink(d, 4000, 6000, 125).value]
    ensures 6000 <= d < 8000 ==> HeldWrites(d) == [Blink(d, 6000, 8000, 67).value]
    ensures 8000 <= d < 10000 ==> HeldWrites(d) == [Blink(d, 8000, 10000, 30).value]
  {
  }

  /** The first two seconds of a hold: LOW for half a second, then HIGH,
      alternating. */
  lemma FirstBandBlinks()
    ensures HeldWrites(0) == [Low] && HeldWrites(499) == [Low]
    ensures HeldWrites(500) == [High] && HeldWrites(999) == [High]
    ensures HeldWrites(1000) == [Low]
    ensures HeldWrites(ClearHold) == []
  {
  }

  /** `resetLoop`'s static `pressedTime` and the loop itself. */
  class ResetMonitor {
    /** The last time the button was seen released. */
    var pressedTime: int

    /** The static initialiser: `millis()` at the first call. */
    constructor (now: int)
      ensures pressedTime == now
    {
      pressedTime := now;
    }

    /** One pass of `resetLoop` at time `now` with the button pin at
        `button` (LOW while pressed). Returns the external LED writes made
        and whether the device restarts. */
    method Step(now: int, button: Level, state: State, config: Config, eeprom: Eeprom)
      returns (writes: seq<Level>, restart: bool)
      modifies this, state, config`magic, eeprom
      ensures var d := now - old(pressedTime);
        && (button != Low ==>
              && pressedTime == now && writes == [Low] && !restart
              && unchanged(config) && unchanged(eeprom)
              && (ShortPressMin <= d < ShortPressMax ==> state.Value() == Cycled(old(state.Value())))
              && (!(ShortPressMin <= d < ShortPressMax) ==> unchanged(state)))
        && (button == Low ==>
              && pressedTime == old(pressedTime) && writes == HeldWrites(d) && unchanged(state)
              && (restart <==> d >= ClearHold)
              && (d >= ClearHold ==> eeprom.contents == Zeroed && config.Value() == old(config.Value()).(magic := 0))
              && (d < ClearHold ==> unchanged(config) && unchanged(eeprom)))
    {
      var pressedDuration := now - pressedTime;
      if button != Low {
        pressedTime := now;
        writes := [Low];
        if pressedDuration >= ShortPressMin && pressedDuration < ShortPressMax {
          state.Cycle();
        }
        return writes, false;
      }
      writes := Writes(Blink(pressedDuration, 0, 2000, 500));
      writes := writes + Writes(Blink(pressedDuration, 2000, 4000, 250));
      writes := writes + Writes(Blink(pressedDuration, 4000, 6000, 125));
      writes := writes + Writes(Blink(pressedDuration, 6000, 8000, 67));
      writes := writes + Writes(Blink(pressedDuration, 8000, 10000, 30));
      restart := false;
      if pressedDuration >= ClearHold {
        var _ := config.Clear(eeprom);
        restart := true;
      }
    }
  }
}
