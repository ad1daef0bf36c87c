/**
 * The LED effect engine (LEDEffect.cpp): the file's static variables, the
 * function-local statics of the handlers, and one method per handler. Each
 * handler is specified by a two-state predicate over the engine's state,
 * written with the value-level steps of EffectSpec; LEDProcess dispatches
 * on the effect identifier and is specified by the same predicates.
 */
module LedEffect {
  import opened Bytes
  import opened Color
  import opened EffectIds
  import opened EffectSpec
  import LedController

  /** The RTC time structure the effects read, and the menu clock advances. */
  class Rtc {
    var hour: byte
    var minute: byte
    var second: byte

    constructor (hour: byte, minute: byte, second: byte)
      ensures this.hour == hour && this.minute == minute && this.second == second
    {
      this.hour := hour;
      this.minute := minute;
      this.second := second;
    }
  }

  /** The random8 results one call may use, each in the range of the call producing it. */
  datatype Draws = Draws(
    cooling: seq<byte>,   // random8(0, 6), one per Fire cell
    sparkRoll: byte,      // random8()
    sparkCell: byte,      // random8(4)
    sparkHeat: byte,      // random8(15, 25)
    fadeHue: byte,        // random8()
    ghostChannel: byte,   // random8(3)
    ghostSlot: byte,      // random8(4)
    dropDigit: byte,      // random8(6)
    tetrisHue: byte)      // random8(1, 255)
  {
    predicate InRange()
    {
      |cooling| == RGB && (forall i :: 0 <= i < RGB ==> cooling[i] < FIRE_COOLING) &&
      sparkCell < FIRE_SPARK_CELLS && 15 <= sparkHeat < 25 &&
      ghostChannel < 3 && ghostSlot < GHOST_SLOTS && dropDigit < RGB && 1 <= tetrisHue < 255
    }
  }

  /** The scalar state the handlers own, to say in one place what a call changes. */
  datatype Scalars = Scalars(
    addend: int, hue: byte, value: byte, pongPosition: byte, fadePhase: FadePhase,
    ghostPosition: byte, ghostChannel: byte, previousSecond: byte, tetrisPhase: TetrisPhase)

  /** Everything a handler may change, as values: the scalars and the four buffers. */
  datatype Snapshot = Snapshot(vars: Scalars, leds: seq<byte>, rgb: seq<byte>, canvas: seq<byte>, ghostLeds: seq<byte>)
  {
    /** The shapes and ranges Engine.Valid keeps. */
    predicate Fits()
    {
      |leds| == LED && |rgb| == 3 && |canvas| == RGB && |ghostLeds| == 3 * GHOST_CELLS &&
      IsAddend(vars.addend) && vars.pongPosition <= RGB + 3 &&
      GHOST_WIDTH <= vars.ghostPosition < GHOST_WIDTH + GHOST_SLOTS && vars.ghostChannel < 3
    }
  }

  class Engine {
    var addend: int                  // g_addend
    var hue: byte                    // g_hue
    var value: byte                  // g_value
    const rgb: array<byte>           // g_rgb
    const canvas: array<byte>        // g_array (array8; array16 is Word)
    var menuCycle: byte              // LEDProcess: cycle
    var pongPosition: byte           // LEDEffectPong: position
    var fadePhase: FadePhase         // LEDEffectFade: state
    const ghostLeds: array<byte>     // LEDEffectGhost: led, 8 CRGB cells
    var ghostPosition: byte          // LEDEffectGhost: position
    var ghostChannel: byte           // LEDEffectGhost: color_index
    var previousSecond: byte         // LEDEffectDigitDrops: previous_second
    var tetrisPhase: TetrisPhase     // LEDEffectTetris: state
    var previousMinute: byte         // LEDEffectCycle: previous_minute
    var cycleCounter: byte           // LEDEffectCycle: effect
    const controller: LedController.Led  // g_led_controller
    const leds: array<byte>          // g_leds, the controller's buffer
    const rtc: Rtc                   // *g_rtc_struct
    const fromPalette: (Palette, byte) -> Rgb  // ColorFromPalette

    ghost predicate Valid()
      reads this, controller, controller.driver
    {
      controller.Valid() && controller.leds == leds &&
      rgb.Length == 3 && canvas.Length == RGB && ghostLeds.Length == 3 * GHOST_CELLS &&
      rgb != canvas && rgb != ghostLeds && canvas != ghostLeds &&
      leds != rgb && leds != canvas && leds != ghostLeds &&
      IsAddend(addend) && pongPosition <= RGB + 3 &&
      GHOST_WIDTH <= ghostPosition < GHOST_WIDTH + GHOST_SLOTS && ghostChannel < 3
    }

    ghost function Vars(): Scalars
      reads this
    {
      Scalars(addend, hue, value, pongPosition, fadePhase, ghostPosition, ghostChannel, previousSecond, tetrisPhase)
    }

    /** The engine's state as a value. */
    ghost function State(): (s: Snapshot)
      reads this, leds, rgb, canvas, ghostLeds
      ensures Valid() ==> s.Fits()
    {
      Snapshot(Vars(), leds[..], rgb[..], canvas[..], ghostLeds[..])
    }

    /** The colours a hue shows at full saturation and brightness. */
    function Full(h: byte): Rgb
      reads this, controller
    {
      controller.spectrum(Hsv(h, 255, 255))
    }

    /**
     * The statics as the firmware initialises them, except the orb centre,
     * which starts at WIDTH instead of 0 (see GhostStartWritesOutside).
     */
    constructor (controller: LedController.Led, rtc: Rtc, fromPalette: (Palette, byte) -> Rgb)
      requires controller.Valid() && controller.leds != null
      ensures Valid() && this.controller == controller && this.rtc == rtc
      ensures Vars() == Scalars(1, 0, 0, 0, FadeGenerate, GHOST_WIDTH as byte, 0, 0, TetrisGenerate)
      ensures menuCycle == 0 && previousMinute == 0 && cycleCounter == 0
      ensures fresh(rgb) && fresh(canvas) && fresh(ghostLeds)
      ensures rgb[..] == [0, 0, 0] && canvas[..] == seq(RGB, _ => 0) && ghostLeds[..] == seq(3 * GHOST_CELLS, _ => 0)
    {
      addend := 1;
      hue := 0;
      value := 0;
      var rgb := new byte[3](_ => 0);
      var canvas := new byte[RGB](_ => 0);
      var ghostLeds := new byte[3 * GHOST_CELLS](_ => 0);
      this.rgb := rgb;
      this.canvas := canvas;
      this.ghostLeds := ghostLeds;
      menuCycle := 0;
      pongPosition := 0;
      fadePhase := FadeGenerate;
      ghostPosition := GHOST_WIDTH as byte;
      ghostChannel := 0;
      previousSecond := 0;
      tetrisPhase := TetrisGenerate;
      previousMinute := 0;
      cycleCounter := 0;
      this.controller := controller;
      leds := controller.leds;
      this.rtc := rtc;
      this.fromPalette := fromPalette;
    }

    /** The LEDs show `colors`, and only the LED buffer changed. */
    ghost predicate ShowsOnly(s: Snapshot, colors: seq<Rgb>)
      requires |colors| == RGB
      reads this, leds, rgb, canvas, ghostLeds
    {
      leds[..] == Frame(colors) && rgb[..] == s.rgb && canvas[..] == s.canvas && ghostLeds[..] == s.ghostLeds
    }

    /** The handlers leave the menu clock and Cycle's statics alone. */
    twostate predicate KeepsDispatchState()
      reads this
    {
      menuCycle == old(menuCycle) && previousMinute == old(previousMinute) && cycleCounter == old(cycleCounter)
    }

    /** The render loops: pixel p set to colors[p], in order. */
    method ShowPixels(colors: seq<Rgb>)
      requires Valid() && |colors| == RGB
      modifies leds
      ensures leds[..] == Frame(colors)
    {
      for pixel := 0 to RGB
        invariant forall p :: 0 <= p < pixel ==> Pixel(leds[..], p) == colors[p]
      {
        controller.SetPixelColor(colors[pixel], pixel);
      }
      FrameOfPixels(leds[..], colors);
    }

    // ------------------------------------------------------------ handlers

    ghost predicate StaticRan(s: Snapshot, ledHue: byte)
      reads this, controller, leds, rgb, canvas, ghostLeds
    {
      Vars() == s.vars && ShowsOnly(s, Uniform(Full(ledHue)))
    }

    /** LEDEffectStatic: every pixel shows the configured hue. */
    method Static(ledHue: byte)
      requires Valid()
      modifies leds
      ensures Valid() && StaticRan(old(State()), ledHue)
    {
      controller.SetColorHsv(Hsv(ledHue, 255, 255));
    }

    ghost predicate PulseRan(s: Snapshot, ledHue: byte)
      reads this, controller, leds, rgb, canvas, ghostLeds
      requires s.Fits()
    {
      var (v, a) := PulseStep(s.vars.value, s.vars.addend);
      Vars() == s.vars.(value := v, addend := a) &&
      ShowsOnly(s, Uniform(controller.spectrum(Hsv(ledHue, 255, v))))
    }

    /** LEDEffectPulse: one step of the brightness triangle wave in the configured hue. */
    method Pulse(ledHue: byte)
      requires Valid()
      modifies this, leds
      ensures Valid() && PulseRan(old(State()), ledHue)
      ensures KeepsDispatchState()
    {
      value := Wrap8(value + Wrap8(addend));
      if value == 0 {
        addend := -addend;
        value := Wrap8(value + Wrap8(addend));
      }
      controller.SetColorHsv(Hsv(ledHue, 255, value));
    }

    ghost predicate RainbowRan(s: Snapshot)
      reads this, controller, leds, rgb, canvas, ghostLeds
    {
      var h := Wrap8(s.vars.hue + 1);
      Vars() == s.vars.(hue := h) && ShowsOnly(s, Uniform(Full(h)))
    }

    /** LEDEffectRainbow: every pixel shows the next hue. */
    method Rainbow()
      requires Valid()
      modifies this, leds
      ensures Valid() && RainbowRan(old(State()))
      ensures KeepsDispatchState()
    {
      hue := Wrap8(hue + 1);
      var h := hue;
      controller.SetColorHsv(Hsv(h, 255, 255));
    }

    function ShiftColors(h: byte): (colors: seq<Rgb>)
      reads this, controller
      ensures |colors| == RGB
    {
      seq(RGB, p requires 0 <= p < RGB reads this, controller => Full(ShiftHue(h, p)))
    }

    ghost predicate CShiftRan(s: Snapshot)
      reads this, controller, leds, rgb, canvas, ghostLeds
    {
      var h := Wrap8(s.vars.hue + 1);
      Vars() == s.vars.(hue := h) && ShowsOnly(s, ShiftColors(h))
    }

    /** LEDEffectRainbowShift: the next hue, spread 16 apart over the pixels. */
    method CShift()
      requires Valid()
      modifies this, leds
      ensures Valid() && CShiftRan(old(State()))
      ensures KeepsDispatchState()
    {
      hue := Wrap8(hue + 1);
      ShowPixels(ShiftColors(hue));
    }

    function DigitColors(): (colors: seq<Rgb>)
      reads this, controller, rtc
      ensures |colors| == RGB
    {
      seq(RGB, p requires 0 <= p < RGB reads this, controller, rtc =>
        Full(DigitHue(p / 2, rtc.hour, rtc.minute, rtc.second)))
    }

    ghost predicate DigitRan(s: Snapshot)
      reads this, controller, rtc, leds, rgb, canvas, ghostLeds
    {
      Vars() == s.vars && ShowsOnly(s, DigitColors())
    }

    /** LEDEffectDigit: pixel pairs coloured by hour, minute and second. */
    method Digit()
      requires Valid()
      modifies leds
      ensures Valid() && DigitRan(old(State()))
    {
      ghost var colors := DigitColors();
      for group := 0 to 3
        invariant forall p :: 0 <= p < 2 * group ==> Pixel(leds[..], p) == colors[p]
        modifies leds
      {
        var h: byte;
        if group == 0 {
          h := Wrap8(10 * rtc.hour);
        } else if group == 1 {
          h := Wrap8(4 * rtc.minute);
        } else {
          h := Wrap8(4 * rtc.second);
        }
        controller.SetPixelColorHsv(Hsv(h, 255, 255), 2 * group);
        controller.SetPixelColorHsv(Hsv(h, 255, 255), 2 * group + 1);
      }
      FrameOfPixels(leds[..], colors);
    }

    ghost predicate DisableRan(s: Snapshot)
      reads this, controller, leds, rgb, canvas, ghostLeds
    {
      Vars() == s.vars && ShowsOnly(s, Uniform(controller.spectrum(Hsv(0, 0, 0))))
    }

    /** LEDEffectDisable: every pixel shows hsv(0, 0, 0). */
    method Disable()
      requires Valid()
      modifies leds
      ensures Valid() && DisableRan(old(State()))
    {
      controller.SetColorHsv(Hsv(0, 0, 0));
    }

    // --------------------------------------------------------------- fire

    function FireColors(ledHue: byte, heat: seq<byte>): (colors: seq<Rgb>)
      reads this, controller
      requires |heat| == RGB
      ensures |colors| == RGB
    {
      seq(RGB, p requires 0 <= p < RGB reads this, controller =>
        fromPalette(FirePalette(ledHue, controller.spectrum), heat[p]))
    }

    ghost predicate FireRan(s: Snapshot, ledHue: byte, draws: Draws)
      reads this, controller, leds, rgb, canvas, ghostLeds
      requires s.Fits() && draws.InRange() && canvas.Length == RGB
    {
      Vars() == s.vars &&
      canvas[..] == FireHeat(s.canvas, draws.cooling, draws.sparkRoll, draws.sparkCell, draws.sparkHeat) &&
      leds[..] == Frame(FireColors(ledHue, canvas[..])) && rgb[..] == s.rgb && ghostLeds[..] == s.ghostLeds
    }

    /** LEDEffectFire: cool, diffuse upwards, maybe spark, then colour each cell by its heat. */
    method Fire(ledHue: byte, draws: Draws)
      requires Valid() && draws.InRange()
      modifies canvas, leds
      ensures Valid() && FireRan(old(State()), ledHue, draws)
    {
      ghost var heat := canvas[..];
      CoolCells(canvas, draws.cooling);
      DiffuseCells(canvas);
      if draws.sparkRoll < FIRE_SPARKING as byte {
        var y := draws.sparkCell;
        canvas[y] := QAdd8(canvas[y], draws.sparkHeat);
      }
      assert canvas[..] == FireHeat(heat, draws.cooling, draws.sparkRoll, draws.sparkCell, draws.sparkHeat);

      // Step 4: map heat to colours.
      ShowPixels(FireColors(ledHue, canvas[..]));
    }

    // --------------------------------------------------------------- pong

    function PongColors(h: byte, cells: seq<byte>): (colors: seq<Rgb>)
      reads this, controller
      requires |cells| == RGB
      ensures |colors| == RGB
    {
      seq(RGB, p requires 0 <= p < RGB reads this, controller => controller.spectrum(Hsv(h, 255, cells[p])))
    }

    ghost predicate PongRan(s: Snapshot, useLedHue: bool, ledHue: byte)
      reads this, controller, leds, rgb, canvas, ghostLeds
      requires s.Fits()
    {
      var (v, fired) := Gate(s.vars.value, PongLimit(useLedHue));
      var (position, a) := if fired then PongMove(s.vars.pongPosition, s.vars.addend) else (s.vars.pongPosition, s.vars.addend);
      var h := if !fired then s.vars.hue else if useLedHue then ledHue else Wrap8(s.vars.hue + 8);
      var lit := if fired then Relit(s.canvas, position) else s.canvas;
      Vars() == s.vars.(value := v, pongPosition := position, addend := a, hue := h) &&
      leds[..] == Frame(PongColors(h, lit)) &&
      canvas[..] == Faded(lit, PongFade(useLedHue)) && rgb[..] == s.rgb && ghostLeds[..] == s.ghostLeds
    }

    /** The gated part of LEDEffectPong: move the ball, take the hue, relight the ball's cell. */
    method MoveBall(useLedHue: bool, ledHue: byte)
      requires Valid()
      modifies this, canvas
      ensures Valid()
      ensures var (position, a) := PongMove(old(pongPosition), old(addend));
        Vars() == old(Vars()).(value := 0, pongPosition := position, addend := a,
                               hue := if useLedHue then ledHue else Wrap8(old(hue) + 8)) &&
        canvas[..] == Relit(old(canvas[..]), position)
      ensures KeepsDispatchState()
    {
      value := 0;
      pongPosition := StepByte(pongPosition, addend);
      if useLedHue {
        hue := ledHue;
      } else {
        hue := Wrap8(hue + 8);
      }
      if pongPosition == 0 || pongPosition == RGB + 3 {
        addend := -addend;
      }
      if pongPosition > RGB + 3 {
        pongPosition := 2;
      }
      if 1 < pongPosition < RGB + 2 {
        canvas[pongPosition - 2] := 255;
      }
    }

    /**
     * LEDEffectPong: every few calls the ball moves and relights its cell;
     * every call shows the canvas in the current hue and dims it.
     */
    method Pong(useLedHue: bool, ledHue: byte)
      requires Valid()
      modifies this, canvas, leds
      ensures Valid() && PongRan(old(State()), useLedHue, ledHue)
      ensures KeepsDispatchState()
    {
      if value > PongLimit(useLedHue) {
        MoveBall(useLedHue, ledHue);
      } else {
        value := Wrap8(value + 1);
      }
      ShowPixels(PongColors(hue, canvas[..]));
      DimCells(canvas, PongFade(useLedHue));
    }

    // --------------------------------------------------------------- fade

    ghost predicate FadeRan(s: Snapshot, draws: Draws)
      reads this, controller, leds, rgb, canvas, ghostLeds
      requires s.Fits() && rgb.Length == 3 && canvas.Length == RGB
    {
      match s.vars.fadePhase
      case FadeGenerate =>
        var current := Full(s.vars.hue);
        var next := Full(draws.fadeHue);
        Vars() == s.vars.(hue := draws.fadeHue, value := 0, fadePhase := FadeTransition) &&
        (forall i :: 0 <= i < 3 ==>
          rgb[i] == FadeOffset(Channel(current, i), Channel(next, i)) &&
          Word(canvas[..], i) == 100 * Channel(current, i)) &&
        leds[..] == s.leds && ghostLeds[..] == s.ghostLeds
      case FadeTransition =>
        var (v, phase) := FadeTick(s.vars.value, FadeTransition);
        Vars() == s.vars.(value := v, fadePhase := phase) &&
        (forall i :: 0 <= i < 3 ==> Word(canvas[..], i) == FadeAccumulate(Word(s.canvas, i), rgb[i])) &&
        leds[..] == Frame(Uniform(FadeColor(canvas[..]))) && rgb[..] == s.rgb && ghostLeds[..] == s.ghostLeds
      case FadeWait =>
        var (v, phase) := FadeTick(s.vars.value, FadeWait);
        Vars() == s.vars.(value := v, fadePhase := phase) &&
        leds[..] == s.leds && rgb[..] == s.rgb && canvas[..] == s.canvas && ghostLeds[..] == s.ghostLeds
    }

    /** LEDEffectFade: pick a hue, glide to it over 200 calls, hold it for 200 calls. */
    method Fade(draws: Draws)
      requires Valid()
      modifies this, rgb, canvas, leds
      ensures Valid() && FadeRan(old(State()), draws)
      ensures KeepsDispatchState()
    {
      match fadePhase {
        case FadeGenerate => FadeStart(draws);
        case FadeTransition => FadeGlide(draws);
        case FadeWait => FadeHold(draws);
      }
    }

    /** The generate phase: offsets of half the per-channel difference, accumulators at 100 times the old colour. */
    method FadeStart(draws: Draws)
      requires Valid() && fadePhase == FadeGenerate
      modifies this, rgb, canvas
      ensures Valid() && FadeRan(old(State()), draws)
      ensures KeepsDispatchState()
    {
      var current := Full(hue);
      hue := draws.fadeHue;
      var next := Full(hue);
      for index := 0 to 3
        invariant forall i :: 0 <= i < index ==>
          rgb[i] == FadeOffset(Channel(current, i), Channel(next, i)) &&
          Word(canvas[..], i) == 100 * Channel(current, i)
        modifies rgb, canvas
      {
        rgb[index] := FadeOffset(Channel(current, index), Channel(next, index));
        SetWord(canvas, index, 100 * Channel(current, index));
      }
      value := 0;
      fadePhase := FadeTransition;
    }

    /** The transition phase: every accumulator moves by its offset and the strip shows the result. */
    method FadeGlide(draws: Draws)
      requires Valid() && fadePhase == FadeTransition
      modifies this, canvas, leds
      ensures Valid() && FadeRan(old(State()), draws)
      ensures KeepsDispatchState()
    {
      ghost var before := canvas[..];
      for index := 0 to 3
        invariant forall i :: 0 <= i < index ==> Word(canvas[..], i) == FadeAccumulate(Word(before, i), rgb[i])
        invariant forall i :: index <= i < 3 ==> Word(canvas[..], i) == Word(before, i)
        modifies canvas
      {
        SetWord(canvas, index, FadeAccumulate(Word(canvas[..], index), rgb[index]));
      }
      controller.SetColor(FadeColor(canvas[..]));
      var done := value >= FADE_CALLS - 1;
      value := Wrap8(value + 1);
      if done {
        fadePhase := FadeWait;
        value := 0;
      }
    }

    /** The wait phase: count the calls until the next hue is picked. */
    method FadeHold(draws: Draws)
      requires Valid() && fadePhase == FadeWait
      modifies this
      ensures Valid() && FadeRan(old(State()), draws)
      ensures KeepsDispatchState()
    {
      var done := value >= FADE_CALLS - 1;
      value := Wrap8(value + 1);
      if done {
        fadePhase := FadeGenerate;
      }
    }

    // -------------------------------------------------------------- ghost

    ghost predicate GhostRan(s: Snapshot, draws: Draws)
      reads this, leds, rgb, canvas, ghostLeds
      requires s.Fits() && draws.InRange()
    {
      var spawn := s.vars.value < 2;
      var channel := if spawn then draws.ghostChannel else s.vars.ghostChannel;
      var position := if spawn then GHOST_WIDTH + draws.ghostSlot else s.vars.ghostPosition;
      var g := Wrap8(s.vars.value + 2);
      var glowed := Glowed(s.ghostLeds, position, channel, g);
      Vars() == s.vars.(value := g, ghostChannel := channel, ghostPosition := position) &&
      leds[..] == Frame(GhostColors(glowed)) && ghostLeds[..] == GhostDimmed(glowed) &&
      rgb[..] == s.rgb && canvas[..] == s.canvas
    }

    /** LEDEffectGhost: an orb grows and fades in one channel; a new one appears every 128 calls. */
    method Ghost(draws: Draws)
      requires Valid() && draws.InRange()
      modifies this, ghostLeds, leds
      ensures Valid() && GhostRan(old(State()), draws)
      ensures KeepsDispatchState()
    {
      if value < 2 {
        ghostChannel := draws.ghostChannel;
        ghostPosition := (GHOST_WIDTH + draws.ghostSlot) as byte;
      }
      value := Wrap8(value + 2);
      GlowOrb(ghostLeds, ghostPosition, ghostChannel, value);
      ghost var glowed := ghostLeds[..];
      ShowPixels(GhostColors(ghostLeds[..]));
      assert ghostLeds[..] == glowed;
      DimVisible(ghostLeds);
      assert leds[..] == Frame(GhostColors(glowed));
    }

    // -------------------------------------------------------------- drops

    ghost predicate DropsRan(s: Snapshot, draws: Draws)
      reads this, rtc, leds, rgb, canvas, ghostLeds
      requires s.Fits() && draws.InRange()
    {
      var tick := s.vars.previousSecond != rtc.second;
      var dropped := if tick then Dropped(s.leds, draws.dropDigit, rtc.second) else s.leds;
      var caps := if tick then s.rgb[rtc.second % 3 := 255] else s.rgb;
      Vars() == s.vars.(previousSecond := rtc.second) &&
      leds[..] == Spread(dropped, caps) && rgb[..] == Decayed(caps) &&
      canvas[..] == s.canvas && ghostLeds[..] == s.ghostLeds
    }

    /** LEDEffectDigitDrops: on a new second a drop falls on one digit; light spreads and decays. */
    method Drops(draws: Draws)
      requires Valid() && draws.InRange()
      modifies this, rgb, leds
      ensures Valid() && DropsRan(old(State()), draws)
      ensures KeepsDispatchState()
    {
      if previousSecond != rtc.second {
        NewSecond(draws);
      }
      SpreadDrops(leds, rgb);
    }

    /** DigitDrops on a new second: a full drop on one digit, and that channel's cap at full. */
    method NewSecond(draws: Draws)
      requires Valid() && draws.InRange()
      modifies this, rgb, leds
      ensures Valid() && Vars() == old(Vars()).(previousSecond := rtc.second)
      ensures leds[..] == Dropped(old(leds[..]), draws.dropDigit, rtc.second)
      ensures rgb[..] == old(rgb[..])[rtc.second % 3 := 255]
      ensures KeepsDispatchState()
    {
      previousSecond := rtc.second;
      var digit := 3 * draws.dropDigit;
      var offset := rtc.second % 3;
      leds[digit + offset] := 255;
      rgb[offset] := 255;
    }

    // ------------------------------------------------------------- tetris

    function TetrisColors(cells: seq<byte>): (colors: seq<Rgb>)
      reads this, controller
      requires |cells| == RGB
      ensures |colors| == RGB
    {
      seq(RGB, p requires 0 <= p < RGB reads this, controller => controller.spectrum(TetrisPixel(cells, p)))
    }

    ghost predicate TetrisRan(s: Snapshot, draws: Draws)
      reads this, controller, leds, rgb, canvas, ghostLeds
      requires s.Fits()
    {
      var v := Wrap8(s.vars.value + 1);
      if v <= TETRIS_LIMIT then
        Vars() == s.vars.(value := v) &&
        leds[..] == s.leds && rgb[..] == s.rgb && canvas[..] == s.canvas && ghostLeds[..] == s.ghostLeds
      else
        var (cells, phase) := TetrisStep(s.canvas, s.vars.tetrisPhase, draws.tetrisHue);
        Vars() == s.vars.(value := 0, tetrisPhase := phase) &&
        canvas[..] == cells && leds[..] == Frame(TetrisColors(cells)) && rgb[..] == s.rgb && ghostLeds[..] == s.ghostLeds
    }

    /** LEDEffectTetris: one call in nine, a block enters, slides down, or the stack drains. */
    method Tetris(draws: Draws)
      requires Valid() && draws.InRange()
      modifies this, canvas, leds
      ensures Valid() && TetrisRan(old(State()), draws)
      ensures KeepsDispatchState()
    {
      value := Wrap8(value + 1);
      if value > TETRIS_LIMIT {
        value := 0;
        TetrisMove(draws);
        ShowBlocks();
      }
    }

    /** One move of the falling blocks: a new block, a slide down, or a drain step. */
    method TetrisMove(draws: Draws)
      requires Valid() && draws.InRange()
      modifies this, canvas
      ensures Valid() && Vars() == old(Vars()).(tetrisPhase := tetrisPhase)
      ensures (canvas[..], tetrisPhase) == TetrisStep(old(canvas[..]), old(tetrisPhase), draws.tetrisHue)
      ensures KeepsDispatchState()
    {
      match tetrisPhase {
        case TetrisGenerate =>
          if canvas[RGB - 1] > 0 {
            tetrisPhase := TetrisShiftOut;
          } else {
            canvas[RGB - 1] := draws.tetrisHue;
            tetrisPhase := TetrisShiftIn;
          }
        case TetrisShiftIn =>
          var shift := ShiftIn(canvas);
          if !shift {
            tetrisPhase := TetrisGenerate;
          }
        case TetrisShiftOut =>
          var shift := ShiftOut(canvas);
          if !shift {
            tetrisPhase := TetrisGenerate;
          }
      }
    }

    /** Tetris's render loop: the hue carries over empty pixels, which are drawn at value 0. */
    method ShowBlocks()
      requires Valid()
      modifies leds
      ensures leds[..] == Frame(TetrisColors(canvas[..]))
    {
      ghost var colors := TetrisColors(canvas[..]);
      var h: byte := 0;
      var v: byte := 255;
      for pixel := 0 to RGB
        invariant forall p :: 0 <= p < pixel ==> Pixel(leds[..], p) == colors[p]
        invariant h == if pixel == 0 then 0 else CarriedHue(canvas[..], pixel - 1)
      {
        if canvas[pixel] > 0 {
          h := canvas[pixel];
          v := 255;
        } else {
          v := 0;
        }
        assert Hsv(h, 255, v) == TetrisPixel(canvas[..], pixel);
        controller.SetPixelColorHsv(Hsv(h, 255, v), pixel);
      }
      FrameOfPixels(leds[..], colors);
    }


    // ---------------------------------------------------------- dispatch

    /** What one run of the handler for `e` does, from the state before it. */
    ghost predicate Ran(s: Snapshot, e: Effect, ledHue: byte, draws: Draws)
      reads this, controller, rtc, leds, rgb, canvas, ghostLeds
      requires s.Fits() && draws.InRange() && rgb.Length == 3 && canvas.Length == RGB
    {
      match e
      case Static => StaticRan(s, ledHue)
      case Pulse => PulseRan(s, ledHue)
      case Fire => FireRan(s, ledHue, draws)
      case Retro1982 => PongRan(s, true, ledHue)
      case Pong => PongRan(s, false, ledHue)
      case Fade => FadeRan(s, draws)
      case Rainbow => RainbowRan(s)
      case CShift => CShiftRan(s)
      case Ghost => GhostRan(s, draws)
      case Drops => DropsRan(s, draws)
      case Digit => DigitRan(s)
      case Tetris => TetrisRan(s, draws)
      case Cycle => false
      case Disable => DisableRan(s)
    }

    /** The menu's fake clock: `menu` is whether the menu is open. */
    twostate predicate Ticked(menu: bool, n: nat)
      reads this, rtc
    {
      (menuCycle, rtc.second) == if menu then MenuTicks(n, old(menuCycle), old(rtc.second)) else (old(menuCycle), old(rtc.second))
    }

    /**
     * LEDProcess: advance the menu clock when the menu is open, then run the
     * handler the identifier selects (Static for an unknown one). Cycle
     * runs LEDProcess again, so under Cycle the menu clock advances twice.
     */
    method Process(effect: byte, menu: bool, ledHue: byte, draws: Draws)
      requires Valid() && draws.InRange()
      modifies this, rtc, rgb, canvas, ghostLeds, leds
      decreases if Selected(effect) == Effect.Cycle then 2 else 0
      ensures Valid() && rtc.hour == old(rtc.hour) && rtc.minute == old(rtc.minute)
      ensures Selected(effect) != Effect.Cycle ==>
        Ticked(menu, 1) && Ran(old(State()), Selected(effect), ledHue, draws) &&
        previousMinute == old(previousMinute) && cycleCounter == old(cycleCounter)
      ensures Selected(effect) == Effect.Cycle ==>
        Ticked(menu, 2) && Ran(old(State()), Selected(CycleChoice(cycleCounter)), ledHue, draws) &&
        (previousMinute, cycleCounter) == CycleCount(old(previousMinute), old(cycleCounter), rtc.minute)
    {
      ghost var cycle0, second0 := menuCycle, rtc.second;
      TickMenu(menu);
      if Selected(effect) == Effect.Cycle {
        this.Cycle(menu, ledHue, draws);
        if menu {
          MenuTickTwice(cycle0, second0);
        }
      } else {
        Dispatch(Selected(effect), ledHue, draws);
      }
    }

    /** The menu's fake clock in LEDProcess: one tick when the menu is open, nothing else changes. */
    method TickMenu(menu: bool)
      requires Valid()
      modifies this, rtc
      ensures Valid() && Ticked(menu, 1) && Vars() == old(Vars())
      ensures rtc.hour == old(rtc.hour) && rtc.minute == old(rtc.minute)
      ensures previousMinute == old(previousMinute) && cycleCounter == old(cycleCounter)
    {
      if menu {
        if menuCycle > 59 {
          rtc.second := Wrap8(rtc.second + 1);
          menuCycle := 0;
        } else {
          menuCycle := menuCycle + 1;
        }
      }
    }

    /** The switch of LEDProcess, for every identifier but Cycle. */
    method Dispatch(e: Effect, ledHue: byte, draws: Draws)
      requires Valid() && draws.InRange() && e != Effect.Cycle
      modifies this, rgb, canvas, ghostLeds, leds
      ensures Valid() && KeepsDispatchState() && Ran(old(State()), e, ledHue, draws)
    {
      match e {
        case Static => this.Static(ledHue);
        case Pulse => this.Pulse(ledHue);
        case Fire => this.Fire(ledHue, draws);
        case Retro1982 => this.Pong(true, ledHue);
        case Pong => this.Pong(false, ledHue);
        case Fade => this.Fade(draws);
        case Rainbow => this.Rainbow();
        case CShift => this.CShift();
        case Ghost => this.Ghost(draws);
        case Drops => this.Drops(draws);
        case Digit => this.Digit();
        case Tetris => this.Tetris(draws);
        case Disable => this.Disable();
      }
    }

    /** LEDEffectCycle: a new minute advances the counter, which picks the effect to run. */
    method Cycle(menu: bool, ledHue: byte, draws: Draws)
      requires Valid() && draws.InRange()
      modifies this, rtc, rgb, canvas, ghostLeds, leds
      decreases 1
      ensures Valid() && rtc.hour == old(rtc.hour) && rtc.minute == old(rtc.minute)
      ensures Ticked(menu, 1) && Ran(old(State()), Selected(CycleChoice(cycleCounter)), ledHue, draws)
      ensures (previousMinute, cycleCounter) == CycleCount(old(previousMinute), old(cycleCounter), rtc.minute)
    {
      if previousMinute != rtc.minute {
        previousMinute := rtc.minute;
        cycleCounter := Wrap8(cycleCounter + 1);
      }
      Process(CycleChoice(cycleCounter), menu, ledHue, draws);
    }
  }

  /** Fire, step 1: every cell cools by its draw. */
  method CoolCells(canvas: array<byte>, cooling: seq<byte>)
    requires canvas.Length == RGB && |cooling| == RGB
    modifies canvas
    ensures canvas[..] == Cooled(old(canvas[..]), cooling)
  {
    for i := 0 to RGB
      invariant forall k :: 0 <= k < i ==> canvas[k] == QSub8(old(canvas[k]), cooling[k])
      invariant forall k :: i <= k < RGB ==> canvas[k] == old(canvas[k])
    {
      canvas[i] := QSub8(canvas[i], cooling[i]);
    }
  }

  /** Fire, step 2: heat drifts up and diffuses, from the top cell down to cell 2. */
  method DiffuseCells(canvas: array<byte>)
    requires canvas.Length == RGB
    modifies canvas
    ensures canvas[..] == Diffused(old(canvas[..]))
  {
    ghost var cooled := canvas[..];
    var k := RGB - 1;
    while k >= 2
      invariant 1 <= k <= RGB - 1
      invariant forall j :: 0 <= j <= k ==> canvas[j] == cooled[j]
      invariant forall j :: k < j < RGB ==> canvas[j] == Diffused(cooled)[j]
    {
      canvas[k] := (canvas[k - 1] as int + canvas[k - 2] + canvas[k - 2]) / 3;
      k := k - 1;
    }
  }

  /** Pong's dimming: every cell loses `amount`, stopping at 0. */
  method DimCells(canvas: array<byte>, amount: byte)
    requires canvas.Length == RGB
    modifies canvas
    ensures canvas[..] == Faded(old(canvas[..]), amount)
  {
    for pixel := 0 to RGB
      invariant forall p :: 0 <= p < pixel ==> canvas[p] == QSub8(old(canvas[p]), amount)
      invariant forall p :: pixel <= p < RGB ==> canvas[p] == old(canvas[p])
    {
      canvas[pixel] := QSub8(canvas[pixel], amount);
    }
  }

  /** `array16[i] = w`: the uint16_t stored little-endian in bytes 2i and 2i + 1. */
  method SetWord(canvas: array<byte>, i: nat, w: nat)
    requires canvas.Length == RGB && i < 3 && w < 65536
    modifies canvas
    ensures Word(canvas[..], i) == w
    ensures forall j :: 0 <= j < 3 && j != i ==> Word(canvas[..], j) == Word(old(canvas[..]), j)
  {
    canvas[2 * i] := w % 256;
    canvas[2 * i + 1] := w / 256;
  }

  /** Ghost's orb loop over offsets 0..4 around the centre. */
  method GlowOrb(led: array<byte>, position: nat, channel: nat, g: byte)
    requires led.Length == 3 * GHOST_CELLS && GHOST_WIDTH <= position < GHOST_WIDTH + GHOST_SLOTS && channel < 3
    modifies led
    ensures led[..] == Glowed(old(led[..]), position, channel, g)
  {
    for offset := 0 to 2 * GHOST_WIDTH + 1
      invariant forall i :: 0 <= i < 3 * GHOST_CELLS ==>
        led[i] == if i % 3 == channel && 0 <= i / 3 + GHOST_WIDTH - position < offset && Glows(g, i / 3 + GHOST_WIDTH - position)
                  then QAdd8(old(led[i]), 2) else old(led[i])
    {
      var fade := GhostFade(offset);
      if fade + g < 250 && g + 10 > fade {
        GhostCellsInRange(position, offset);
        var cell := position + offset - GHOST_WIDTH;
        led[3 * cell + channel] := QAdd8(led[3 * cell + channel], 2);
      }
    }
  }

  /** `led[pixel + OVERSCAN]--` for the six visible cells. */
  method DimVisible(led: array<byte>)
    requires led.Length == 3 * GHOST_CELLS
    modifies led
    ensures led[..] == GhostDimmed(old(led[..]))
  {
    for pixel := 0 to RGB
      invariant forall i :: 0 <= i < 3 * GHOST_CELLS ==>
        led[i] == if 3 * GHOST_OVERSCAN <= i < 3 * (GHOST_OVERSCAN + pixel) then QSub8(old(led[i]), 1) else old(led[i])
    {
      var c := 3 * (pixel + GHOST_OVERSCAN);
      led[c] := QSub8(led[c], 1);
      led[c + 1] := QSub8(led[c + 1], 1);
      led[c + 2] := QSub8(led[c + 2], 1);
    }
  }

  /** DigitDrops's three spread loops into `temp`, the cap decay, and the copy back. */
  method SpreadDrops(leds: array<byte>, caps: array<byte>)
    requires leds.Length == LED && caps.Length == 3 && leds != caps
    modifies leds, caps
    ensures leds[..] == Spread(old(leds[..]), old(caps[..]))
    ensures caps[..] == Decayed(old(caps[..]))
  {
    var temp := new byte[LED](_ => 0);
    SpreadFirst(leds, caps, temp);
    SpreadMiddle(leds, caps, temp);
    SpreadLast(leds, caps, temp);
    CopyInto(leds, temp);
  }

  /** DigitDrops's first loop: pixel 0 spills only from above. */
  method SpreadFirst(leds: array<byte>, caps: array<byte>, temp: array<byte>)
    requires leds.Length == LED && caps.Length == 3 && temp.Length == LED
    requires temp != leds && temp != caps
    modifies temp
    ensures forall k :: 0 <= k < 3 ==> temp[k] == SpreadAt(leds[..], caps[..], k)
  {
    for index := 0 to 3
      invariant forall k :: 0 <= k < index ==> temp[k] == SpreadAt(leds[..], caps[..], k)
    {
      temp[index] := Min(Spill(leds[index + 3]) + leds[index], caps[index]);
    }
  }

  /** DigitDrops's last loop: pixel 5 spills only from below, and each cap decays. */
  method SpreadLast(leds: array<byte>, caps: array<byte>, temp: array<byte>)
    requires leds.Length == LED && caps.Length == 3 && temp.Length == LED
    requires temp != leds && temp != caps && leds != caps
    requires forall k :: 0 <= k < 15 ==> temp[k] == SpreadAt(leds[..], caps[..], k)
    modifies temp, caps
    ensures temp[..] == Spread(leds[..], old(caps[..]))
    ensures caps[..] == Decayed(old(caps[..]))
  {
    ghost var capped := caps[..];
    for index := 0 to 3
      invariant forall k :: 0 <= k < 15 + index ==> temp[k] == SpreadAt(leds[..], capped, k)
      invariant forall j :: 0 <= j < index ==> caps[j] == QSub8(capped[j], DROPS_DECAY)
      invariant forall j :: index <= j < 3 ==> caps[j] == capped[j]
    {
      temp[index + 15] := Min(Spill(leds[index + 12]) + leds[index + 15], caps[index]);
      caps[index] := QSub8(caps[index], DROPS_DECAY);
    }
  }

  /** DigitDrops's middle loop: pixels 1 to 4 spill from both neighbours. */
  method SpreadMiddle(leds: array<byte>, caps: array<byte>, temp: array<byte>)
    requires leds.Length == LED && caps.Length == 3 && temp.Length == LED
    requires temp != leds && temp != caps
    requires forall k :: 0 <= k < 3 ==> temp[k] == SpreadAt(leds[..], caps[..], k)
    modifies temp
    ensures forall k :: 0 <= k < 15 ==> temp[k] == SpreadAt(leds[..], caps[..], k)
  {
    var i := 3;
    while i < 15
      invariant 3 <= i <= 15 && i % 3 == 0
      invariant forall k :: 0 <= k < i ==> temp[k] == SpreadAt(leds[..], caps[..], k)
    {
      for j := 0 to 3
        invariant forall k :: 0 <= k < i + j ==> temp[k] == SpreadAt(leds[..], caps[..], k)
      {
        assert (i + j) % 3 == j;
        temp[i + j] := Min(Spill(leds[i + j + 3]) + Spill(leds[i + j - 3]) + leds[i + j], caps[j]);
      }
      i := i + 3;
    }
  }

  /** memcpy8 of the temporary buffer into the LED buffer. */
  method CopyInto(dest: array<byte>, source: array<byte>)
    requires dest.Length == source.Length && dest != source
    modifies dest
    ensures dest[..] == source[..]
  {
    for k := 0 to dest.Length
      invariant forall j :: 0 <= j < k ==> dest[j] == source[j]
    {
      dest[k] := source[k];
    }
  }

  /** Tetris's shift-in loop; the result says whether any cell moved. */
  method ShiftIn(canvas: array<byte>) returns (shift: bool)
    requires canvas.Length == RGB
    modifies canvas
    ensures (canvas[..], shift) == SlideFrom(old(canvas[..]), 0)
  {
    shift := false;
    for index := 0 to RGB - 1
      invariant SlideFrom(canvas[..], index).0 == SlideFrom(old(canvas[..]), 0).0
      invariant (shift || SlideFrom(canvas[..], index).1) == SlideFrom(old(canvas[..]), 0).1
    {
      if canvas[index] == 0 {
        if canvas[index + 1] > 0 {
          shift := true;
          canvas[index] := canvas[index + 1];
          canvas[index + 1] := 0;
        }
      }
    }
  }

  /** Tetris's shift-out loop: the lowest occupied cell moves down one or leaves. */
  method ShiftOut(canvas: array<byte>) returns (shift: bool)
    requires canvas.Length == RGB
    modifies canvas
    ensures (canvas[..], shift) == Drained(old(canvas[..]))
  {
    shift := false;
    for index := 0 to RGB
      invariant canvas[..] == old(canvas[..])
      invariant forall k :: 0 <= k < index ==> canvas[k] == 0
    {
      if canvas[index] > 0 {
        if index > 0 {
          canvas[index - 1] := canvas[index];
        }
        shift := true;
        canvas[index] := 0;
        break;
      }
    }
  }
}
