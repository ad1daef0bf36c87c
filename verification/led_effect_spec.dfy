/**
 * What one call of each LED effect handler does to the effect state, as
 * functions on values, and the properties of those steps: periods, bounds,
 * where a fade arrives, why the Tetris phases end.
 */
module EffectSpec {
  import opened Bytes
  import opened Color
  import opened EffectIds

  // ---------------------------------------------------------------- dispatch

  /** LEDProcess's switch: an identifier past Disable falls to the default, Static. */
  function Selected(effect: byte): (e: Effect)
    ensures effect < COUNT ==> Ordinal(e) == effect
    ensures effect >= COUNT ==> e == Static
  {
    if effect < COUNT then FromOrdinal(effect) else Static
  }

  /** The two Pong variants: 1982 follows the configured hue, Pong rotates it. */
  function UsesLedHue(e: Effect): bool
  {
    e == Retro1982
  }

  // -------------------------------------------------------------- menu clock

  /**
   * While the menu is open, every LEDProcess call advances a counter;
   * the call that finds it above 59 advances the clock's second (a uint8_t,
   * so it wraps at 256) and clears the counter.
   */
  function MenuTick(cycle: byte, second: byte): (byte, byte)
  {
    if cycle > 59 then (0, Wrap8(second + 1)) else (Wrap8(cycle + 1), second)
  }

  function MenuTicks(n: nat, cycle: byte, second: byte): (byte, byte)
  {
    if n == 0 then (cycle, second)
    else
      var (c, s) := MenuTicks(n - 1, cycle, second);
      MenuTick(c, s)
  }

  /** Two calls tick twice: the second tick starts where the first ended. */
  lemma MenuTickTwice(cycle: byte, second: byte)
    ensures var (c, s) := MenuTicks(1, cycle, second); MenuTicks(1, c, s) == MenuTicks(2, cycle, second)
  {
    assert MenuTicks(1, cycle, second) == MenuTick(cycle, second);
  }

  /** Sixty calls only count, ... */
  lemma {:induction false} MenuCounts(n: nat, second: byte)
    requires n <= 60
    ensures MenuTicks(n, 0, second) == (n, second)
  {
    if n > 0 {
      MenuCounts(n - 1, second);
    }
  }

  /** ... and the 61st advances the second: one fake second per 61 calls. */
  lemma MenuSecondEvery61Calls(second: byte)
    ensures MenuTicks(61, 0, second) == (0, Wrap8(second + 1))
    ensures forall n :: 0 <= n < 61 ==> MenuTicks(n, 0, second).1 == second
  {
    MenuCounts(60, second);
    forall n | 0 <= n < 61
      ensures MenuTicks(n, 0, second).1 == second
    {
      MenuCounts(n, second);
    }
  }

  // ------------------------------------------------------------------- pulse

  /** Counting round a cycle of 510 (Pulse) or 18 (Pong) states. */
  lemma PhaseSucc510(q: nat)
    ensures (q % 510 + 1) % 510 == (q + 1) % 510
  {
  }

  /** The phase after one more step of an 18-step cycle. */
  function NextPhase18(p: nat): nat
  {
    if p == 17 then 0 else p + 1
  }

  lemma PhaseStep18(before: nat, ph: nat, n: nat)
    requires 0 < n && before == (ph + (n - 1)) % 18
    ensures NextPhase18(before) == (ph + n) % 18
  {
  }

  lemma PhaseRecurs510(ph: nat, n: nat)
    requires ph < 510
    ensures (ph + n) % 510 == ph <==> n % 510 == 0
  {
  }

  lemma PhaseRecurs18(ph: nat, n: nat)
    requires ph < 18
    ensures (ph + n) % 18 == ph <==> n % 18 == 0
  {
  }

  /** g_addend is an int8_t that is only ever +1 or -1. */
  predicate IsAddend(a: int)
  {
    a == 1 || a == -1
  }

  /** `b += (uint8_t)addend` on a uint8_t with addend +1 or -1: one step up or down, wrapping at the ends. */
  function StepByte(b: byte, addend: int): byte
    requires IsAddend(addend)
  {
    if addend == 1 then (if b == 255 then 0 else b + 1)
    else (if b == 0 then 255 else b - 1)
  }

  lemma StepByteWraps(b: byte, addend: int)
    requires IsAddend(addend)
    ensures StepByte(b, addend) == Wrap8(b + Wrap8(addend))
  {
    if addend == -1 {
      assert Wrap8(addend) == 255;
      if b > 0 {
        assert b + 255 == 256 + (b - 1);
      }
    }
  }

  /**
   * One Pulse call: add (uint8_t)g_addend to g_value; on reaching zero
   * reverse the direction and add again. The brightness shown is never 0.
   */
  function PulseStep(value: byte, addend: int): (r: (byte, int))
    requires IsAddend(addend)
    ensures IsAddend(r.1) && r.0 != 0
  {
    var v := Wrap8(value + Wrap8(addend));
    if v == 0 then (Wrap8(v + Wrap8(-addend)), -addend) else (v, addend)
  }

  function PulseSteps(n: nat, value: byte, addend: int): (r: (byte, int))
    requires IsAddend(addend)
    ensures IsAddend(r.1)
  {
    if n == 0 then (value, addend)
    else
      var r := PulseSteps(n - 1, value, addend);
      PulseStep(r.0, r.1)
  }

  /** The direction reverses exactly on the call whose add wraps g_value to 0. */
  lemma PulseFlipsOnlyAtWrap(value: byte, addend: int)
    requires IsAddend(addend)
    ensures PulseStep(value, addend).1 == -addend <==> Wrap8(value + addend) == 0
    ensures Wrap8(value + addend) != 0 ==> PulseStep(value, addend) == (Wrap8(value + addend), addend)
  {
    if addend == -1 {
      assert Wrap8(addend) == 255;
      assert Wrap8(value + 255) == Wrap8(value - 1) by {
        if value == 0 { } else { assert value + 255 == 256 + (value - 1); }
      }
    }
  }

  /** Position of a Pulse state in its 510-call triangle wave. */
  function PulsePhase(value: byte, addend: int): (p: nat)
    requires IsAddend(addend) && value != 0
    ensures p < 510
  {
    if addend == 1 then value - 1 else 510 - value
  }

  /** The Pulse state at a given phase. */
  function PulseAt(p: nat): (r: (byte, int))
    requires p < 510
    ensures IsAddend(r.1) && r.0 != 0
  {
    if p < 255 then (p + 1, 1) else (510 - p, -1)
  }

  /** The phase names Pulse states one to one. */
  lemma PulsePhaseBijective(value: byte, addend: int, p: nat)
    requires IsAddend(addend) && value != 0 && p < 510
    ensures PulseAt(PulsePhase(value, addend)) == (value, addend)
    ensures PulsePhase(PulseAt(p).0, PulseAt(p).1) == p
  {
  }

  /** Each Pulse call advances the phase by one, modulo 510. */
  lemma PulseAdvances(value: byte, addend: int)
    requires IsAddend(addend) && value != 0
    ensures var r := PulseStep(value, addend);
      PulsePhase(r.0, r.1) == (PulsePhase(value, addend) + 1) % 510
  {
    if addend == 1 {
      assert Wrap8(addend) == 1;
      if value == 255 {
        assert Wrap8(value + 1) == 0;
      }
    } else {
      assert Wrap8(addend) == 255;
      assert Wrap8(value + 255) == value - 1;
    }
  }

  lemma {:induction false} PulsePhaseAfter(n: nat, value: byte, addend: int)
    requires IsAddend(addend) && value != 0
    ensures var r := PulseSteps(n, value, addend);
      r.0 != 0 && PulsePhase(r.0, r.1) == (PulsePhase(value, addend) + n) % 510
  {
    if n > 0 {
      PulsePhaseAfter(n - 1, value, addend);
      PulseInductionStep(n, value, addend);
    }
  }

  lemma PulseInductionStep(n: nat, value: byte, addend: int)
    requires 0 < n && IsAddend(addend) && value != 0
    requires var r := PulseSteps(n - 1, value, addend);
      r.0 != 0 && PulsePhase(r.0, r.1) == (PulsePhase(value, addend) + (n - 1)) % 510
    ensures var r := PulseSteps(n, value, addend);
      r.0 != 0 && PulsePhase(r.0, r.1) == (PulsePhase(value, addend) + n) % 510
  {
    var r := PulseSteps(n - 1, value, addend);
    assert PulseSteps(n, value, addend) == PulseStep(r.0, r.1);
    PulseStepPhase(PulsePhase(value, addend) + n - 1, r.0, r.1);
  }

  lemma PulseStepPhase(q: nat, value: byte, addend: int)
    requires IsAddend(addend) && value != 0 && PulsePhase(value, addend) == q % 510
    ensures var r := PulseStep(value, addend);
      r.0 != 0 && PulsePhase(r.0, r.1) == (q + 1) % 510
  {
    PulseAdvances(value, addend);
    PhaseSucc510(q);
  }

  /**
   * Pulse is a triangle wave with a period of exactly 510 calls: a state
   * recurs exactly when the number of calls is a multiple of 510.
   */
  lemma PulsePeriod(value: byte, addend: int, n: nat)
    requires IsAddend(addend) && value != 0
    ensures PulseSteps(n, value, addend) == (value, addend) <==> n % 510 == 0
  {
    var ph := PulsePhase(value, addend);
    PulsePhaseAfter(n, value, addend);
    var r := PulseSteps(n, value, addend);
    PulsePhaseBijective(r.0, r.1, 0);
    PulsePhaseBijective(value, addend, 0);
    PhaseRecurs510(ph, n);
  }

  // ----------------------------------------------------------------- rainbow

  /** Rainbow: each call advances the shared hue by one (a uint8_t). */
  function RainbowSteps(n: nat, hue: byte): byte
  {
    if n == 0 then hue else Wrap8(RainbowSteps(n - 1, hue) + 1)
  }

  /** After n calls the hue has moved by n modulo 256, so it repeats every 256 calls. */
  lemma {:induction false} RainbowAfter(n: nat, hue: byte)
    ensures RainbowSteps(n, hue) == Wrap8(hue + n)
    ensures n == 256 ==> RainbowSteps(n, hue) == hue
  {
    if n > 0 {
      RainbowAfter(n - 1, hue);
      RainbowStep(n, hue);
    }
    if n == 256 {
      RainbowPeriod(hue);
    }
  }

  lemma RainbowStep(n: nat, hue: byte)
    requires 0 < n && RainbowSteps(n - 1, hue) == Wrap8(hue + (n - 1))
    ensures RainbowSteps(n, hue) == Wrap8(hue + n)
  {
    WrapAdd(hue + (n - 1), 1);
  }

  lemma RainbowPeriod(hue: byte)
    ensures Wrap8(hue + 256) == hue
  {
    assert (hue + 256) % 256 == hue;
  }

  /** CShift: pixel p shows the shared hue plus 16 p. */
  function ShiftHue(hue: byte, pixel: nat): byte
  {
    Wrap8(hue + pixel * 16)
  }

  /** The six CShift pixels show six different hues, 16 apart. */
  lemma ShiftHuesDistinct(hue: byte, p: nat, q: nat)
    requires p < RGB && q < RGB && p != q
    ensures ShiftHue(hue, p) != ShiftHue(hue, q)
    ensures p + 1 < RGB ==> ShiftHue(hue, p + 1) == Wrap8(ShiftHue(hue, p) + 16)
  {
    if p < q {
      WrapDistinct(hue + p * 16, (q - p) * 16);
      assert hue + q * 16 == hue + p * 16 + (q - p) * 16;
    } else {
      WrapDistinct(hue + q * 16, (p - q) * 16);
      assert hue + p * 16 == hue + q * 16 + (p - q) * 16;
    }
    WrapAdd(hue + p * 16, 16);
    assert hue + (p + 1) * 16 == hue + p * 16 + 16;
  }

  // -------------------------------------------------------------------- pong

  /** `g_value++ > limit`: the gate opens on the call that finds g_value above the limit. */
  function Gate(value: byte, limit: nat): (r: (byte, bool))
  {
    if value > limit then (0, true) else (Wrap8(value + 1), false)
  }

  /** Pong's delay limit: 3 for 1982, 8 for Pong. */
  function PongLimit(useLedHue: bool): nat
  {
    if useLedHue then 3 else 8
  }

  /** Pong's fade per call: 12 for 1982, 5 for Pong. */
  function PongFade(useLedHue: bool): byte
  {
    if useLedHue then 12 else 5
  }

  function Gates(n: nat, value: byte, limit: nat): (r: (byte, bool))
  {
    if n == 0 then (value, false) else Gate(Gates(n - 1, value, limit).0, limit)
  }

  lemma {:induction false} GateCounts(n: nat, limit: nat)
    requires n <= limit + 1 && limit < 255
    ensures Gates(n, 0, limit).0 == n
    ensures 0 < n ==> !Gates(n, 0, limit).1
  {
    if n > 0 {
      GateCounts(n - 1, limit);
    }
  }

  /** From a cleared counter the gate opens on call limit + 2, not before. */
  lemma GateOpensAfter(limit: nat)
    requires limit < 255
    ensures Gates(limit + 2, 0, limit) == (0, true)
    ensures forall n :: 0 < n < limit + 2 ==> !Gates(n, 0, limit).1
  {
    GateCounts(limit + 1, limit);
    forall n | 0 < n < limit + 2
      ensures !Gates(n, 0, limit).1
    {
      GateCounts(n, limit);
    }
  }

  /**
   * One ball move: add (uint8_t)g_addend to the position; reverse at 0
   * and at 9 (three places off screen); a position past 9 restarts at 2.
   */
  function PongMove(position: byte, addend: int): (r: (byte, int))
    requires IsAddend(addend)
    ensures r.0 <= RGB + 3 && IsAddend(r.1)
    ensures position <= RGB + 3 ==> InCourse(r.0, r.1)
  {
    var p := StepByte(position, addend);
    var a := if p == 0 || p == RGB + 3 then -addend else addend;
    (if p > RGB + 3 then 2 else p, a)
  }

  /** The states a ball in play can be in: moving up from 0..8 or down from 1..9. */
  predicate InCourse(position: byte, addend: int)
  {
    (addend == 1 && position <= RGB + 2) || (addend == -1 && 1 <= position <= RGB + 3)
  }

  /** The canvas after a move: the ball's cell, when on screen, back at full brightness. */
  function Relit(cells: seq<byte>, position: byte): (r: seq<byte>)
    requires |cells| == RGB
    ensures |r| == RGB
  {
    if 1 < position < RGB + 2 then cells[position - 2 := 255] else cells
  }

  /** Every cell dims by the variant's fade, stopping at 0. */
  function Faded(cells: seq<byte>, amount: byte): (r: seq<byte>)
    requires |cells| == RGB
    ensures |r| == RGB
  {
    seq(RGB, p requires 0 <= p < RGB => QSub8(cells[p], amount))
  }

  /** The canvas cell the ball relights, when it is on screen. */
  function PongLit(position: byte): (cell: int)
    ensures 1 < position < RGB + 2 ==> 0 <= cell < RGB
  {
    if 1 < position < RGB + 2 then position - 2 else -1
  }

  function PongPhase(position: byte, addend: int): (p: nat)
    requires InCourse(position, addend)
    ensures p < 18
  {
    if addend == 1 then position else 18 - position
  }

  function PongAt(p: nat): (r: (byte, int))
    requires p < 18
    ensures InCourse(r.0, r.1)
  {
    if p < 9 then (p, 1) else (18 - p, -1)
  }

  /** The phase names the states of a ball in play one to one. */
  lemma PongPhaseBijective(position: byte, addend: int, p: nat)
    requires InCourse(position, addend) && p < 18
    ensures PongAt(PongPhase(position, addend)) == (position, addend)
    ensures PongPhase(PongAt(p).0, PongAt(p).1) == p
  {
  }

  function PongMoves(n: nat, position: byte, addend: int): (r: (byte, int))
    requires IsAddend(addend)
    ensures IsAddend(r.1)
  {
    if n == 0 then (position, addend)
    else
      var r := PongMoves(n - 1, position, addend);
      PongMove(r.0, r.1)
  }

  /** Each move advances the ball one place along its 18-move round trip. */
  lemma PongAdvances(position: byte, addend: int)
    requires InCourse(position, addend)
    ensures var r := PongMove(position, addend);
      PongPhase(r.0, r.1) == NextPhase18(PongPhase(position, addend))
  {
  }

  lemma {:induction false} PongPhaseAfter(n: nat, position: byte, addend: int)
    requires InCourse(position, addend)
    ensures var r := PongMoves(n, position, addend);
      InCourse(r.0, r.1) && PongPhase(r.0, r.1) == (PongPhase(position, addend) + n) % 18
  {
    if n > 0 {
      PongPhaseAfter(n - 1, position, addend);
      PongMoveStep(n, position, addend);
    }
  }

  lemma PongMoveStep(n: nat, position: byte, addend: int)
    requires 0 < n && InCourse(position, addend)
    requires var r := PongMoves(n - 1, position, addend);
      InCourse(r.0, r.1) && PongPhase(r.0, r.1) == (PongPhase(position, addend) + (n - 1)) % 18
    ensures var r := PongMoves(n, position, addend);
      InCourse(r.0, r.1) && PongPhase(r.0, r.1) == (PongPhase(position, addend) + n) % 18
  {
    var r := PongMoves(n - 1, position, addend);
    assert PongMoves(n, position, addend) == PongMove(r.0, r.1);
    PongAdvances(r.0, r.1);
    PhaseStep18(PongPhase(r.0, r.1), PongPhase(position, addend), n);
  }

  /** A ball in play is back where it was exactly when the number of moves is a multiple of 18. */
  lemma PongPeriod(position: byte, addend: int, n: nat)
    requires InCourse(position, addend)
    ensures PongMoves(n, position, addend) == (position, addend) <==> n % 18 == 0
  {
    var ph := PongPhase(position, addend);
    PongPhaseAfter(n, position, addend);
    var r := PongMoves(n, position, addend);
    PongPhaseBijective(r.0, r.1, 0);
    PongPhaseBijective(position, addend, 0);
    PhaseRecurs18(ph, n);
  }

  // -------------------------------------------------------------------- fire

  /** Fire's cooling draw is random8(0, 18 / 6 + 3): below 6. */
  const FIRE_COOLING: nat := LED / RGB + 3

  /** A spark is lit when random8() is below 100, ... */
  const FIRE_SPARKING: nat := 100

  /** ... in one of the lowest four cells, adding random8(15, 25). */
  const FIRE_SPARK_CELLS: nat := 4

  /** The palette Fire maps heat through: black, the hue, the hue + 25, the hue paler. */
  function FirePalette(hue: byte, spectrum: Hsv -> Rgb): Palette
  {
    Palette(Black, spectrum(Hsv(hue, 255, 255)), spectrum(Hsv(Wrap8(hue + 25), 255, 255)),
            spectrum(Hsv(hue, 200, 255)))
  }

  /** Step 1: every cell loses its cooling draw, stopping at 0. */
  function Cooled(heat: seq<byte>, cooling: seq<byte>): (r: seq<byte>)
    requires |heat| == RGB && |cooling| == RGB
    ensures |r| == RGB
  {
    seq(RGB, i requires 0 <= i < RGB => QSub8(heat[i], cooling[i]))
  }

  /**
   * Step 2: cells 5 down to 2 each take (one part of the cell below plus two
   * parts of the cell two below) / 3, from the cells as they were before
   * the step, since the loop runs downwards.
   */
  function Diffused(heat: seq<byte>): (r: seq<byte>)
    requires |heat| == RGB
    ensures |r| == RGB
  {
    seq(RGB, k requires 0 <= k < RGB =>
      if k < 2 then heat[k] else (heat[k - 1] as int + heat[k - 2] + heat[k - 2]) / 3)
  }

  /** Step 3: a spark adds heat to one of the low cells when the roll is under 100. */
  function Sparked(heat: seq<byte>, roll: byte, cell: nat, amount: byte): (r: seq<byte>)
    requires |heat| == RGB && cell < FIRE_SPARK_CELLS
    ensures |r| == RGB
  {
    if roll < FIRE_SPARKING then heat[cell := QAdd8(heat[cell], amount)] else heat
  }

  /** The new heat of one Fire call. */
  function FireHeat(heat: seq<byte>, cooling: seq<byte>, roll: byte, cell: nat, amount: byte): (r: seq<byte>)
    requires |heat| == RGB && |cooling| == RGB && cell < FIRE_SPARK_CELLS
    ensures |r| == RGB
  {
    Sparked(Diffused(Cooled(heat, cooling)), roll, cell, amount)
  }

  /** Diffusion averages: each upper cell ends between the two cells it is fed from. */
  lemma DiffusionAverages(heat: seq<byte>, k: nat)
    requires |heat| == RGB && 2 <= k < RGB
    ensures Min(heat[k - 1], heat[k - 2]) <= Diffused(heat)[k] <= Max(heat[k - 1], heat[k - 2])
  {
  }

  /**
   * Heat enters only at the bottom: after a call each of the top two cells
   * is no hotter than the hotter of the two cells below it were before the
   * call, and cooling never heats a cell.
   */
  lemma FireTopIsFedFromBelow(heat: seq<byte>, cooling: seq<byte>, roll: byte, cell: nat, amount: byte, k: nat)
    requires |heat| == RGB && |cooling| == RGB && cell < FIRE_SPARK_CELLS
    requires FIRE_SPARK_CELLS <= k < RGB
    ensures FireHeat(heat, cooling, roll, cell, amount)[k] <= Max(heat[k - 1], heat[k - 2])
  {
    var c := Cooled(heat, cooling);
    DiffusionAverages(c, k);
    assert c[k - 1] <= heat[k - 1] && c[k - 2] <= heat[k - 2];
  }

  /** Without a spark a call never raises the hottest cell. */
  lemma FireCoolsWithoutSpark(heat: seq<byte>, cooling: seq<byte>, roll: byte, cell: nat, amount: byte, bound: byte)
    requires |heat| == RGB && |cooling| == RGB && cell < FIRE_SPARK_CELLS
    requires roll >= FIRE_SPARKING
    requires forall i :: 0 <= i < RGB ==> heat[i] <= bound
    ensures forall i :: 0 <= i < RGB ==> FireHeat(heat, cooling, roll, cell, amount)[i] <= bound
  {
    var c := Cooled(heat, cooling);
    forall i | 0 <= i < RGB
      ensures FireHeat(heat, cooling, roll, cell, amount)[i] <= bound
    {
      assert c[i] <= heat[i];
      if i >= 2 {
        DiffusionAverages(c, i);
        assert c[i - 1] <= heat[i - 1] && c[i - 2] <= heat[i - 2];
      }
    }
  }

  // -------------------------------------------------------------------- fade

  /** The phases of Fade. */
  datatype FadePhase = FadeGenerate | FadeTransition | FadeWait

  /** g_array's uint16_t view, array16[i]: bytes 2i and 2i + 1, little-endian as on the AVR. */
  function Word(cells: seq<byte>, i: nat): (w: nat)
    requires |cells| == RGB && i < 3
    ensures w < 65536
  {
    cells[2 * i] as int + 256 * (cells[2 * i + 1] as int)
  }

  /** The colour a transition shows: each channel's accumulator / 100. */
  function FadeColor(cells: seq<byte>): Rgb
    requires |cells| == RGB
  {
    Rgb(FadeLevel(Word(cells, 0)), FadeLevel(Word(cells, 1)), FadeLevel(Word(cells, 2)))
  }

  /** `g_value++ >= 199`: both timed phases last 200 calls. */
  const FADE_CALLS: nat := 200

  /** C's `/ 2` on an int: the quotient rounded toward zero. */
  function TruncHalf(d: int): int
  {
    if d >= 0 then d / 2 else -((-d) / 2)
  }

  /** The int8_t a stored uint8_t reads back as. */
  function Signed8(b: byte): int
  {
    if b < 128 then b else b - 256
  }

  /** One channel's step, `(next - current) / 2` stored in the uint8_t of g_rgb. */
  function FadeOffset(current: byte, next: byte): (r: byte)
    ensures Signed8(r) == TruncHalf(next - current)
  {
    Wrap8(TruncHalf(next - current))
  }

  /** `array16 += (int8_t)offset`: a uint16_t, so modulo 65536. */
  function FadeAccumulate(word: nat, offset: byte): (r: nat)
    requires word < 65536
    ensures r < 65536
  {
    (word + Signed8(offset)) % 65536
  }

  /** The channel shown for an accumulator: `array16 / 100` stored in a uint8_t. */
  function FadeLevel(word: nat): byte
  {
    Wrap8(word / 100)
  }

  /** The accumulator after n transition calls. */
  function FadeWords(n: nat, word: nat, offset: byte): (r: nat)
    requires word < 65536
    ensures r < 65536
  {
    if n == 0 then word else FadeAccumulate(FadeWords(n - 1, word, offset), offset)
  }

  lemma {:induction false} MulMonotone(n: nat, m: nat, h: int)
    requires n <= m && h >= 0
    ensures n * h <= m * h
  {
    if n < m {
      MulMonotone(n, m - 1, h);
      assert m * h == (m - 1) * h + h;
    }
  }

  lemma MulSucc(n: nat, h: int)
    requires n > 0
    ensures (n - 1) * h + h == n * h
  {
  }

  /** n halves of a difference never overshoot it. */
  lemma HalvesWithin(d: int, n: nat)
    requires n <= FADE_CALLS && -255 <= d <= 255
    ensures d >= 0 ==> 0 <= n * TruncHalf(d) <= 100 * d
    ensures d < 0 ==> 100 * d <= n * TruncHalf(d) <= 0
  {
    var h := TruncHalf(d);
    if d >= 0 {
      assert 0 <= h && 2 * h <= d;
      MulMonotone(0, n, h);
      MulMonotone(n, 200, h);
    } else {
      assert h <= 0 && d <= 2 * h;
      MulMonotone(0, n, -h);
      MulMonotone(n, 200, -h);
      assert n * (-h) == -(n * h);
    }
  }

  /** Started from 100 times the current channel, the accumulator moves in even steps and never wraps. */
  lemma {:induction false} FadeWordsClosedForm(current: byte, next: byte, n: nat)
    requires n <= FADE_CALLS
    ensures FadeWords(n, 100 * current, FadeOffset(current, next)) == 100 * current + n * TruncHalf(next - current)
  {
    if n > 0 {
      var h := TruncHalf(next - current);
      var w := 100 * current + n * h;
      FadeWordsClosedForm(current, next, n - 1);
      MulSucc(n, h);
      assert 0 <= w < 65536 by {
        HalvesWithin(next - current, n);
      }
      FadeStepClosed(current, next, n, (n - 1) * h, n * h);
    }
  }

  /** One accumulation step that stays inside the uint16_t range does not wrap. */
  lemma FadeStepClosed(current: byte, next: byte, n: nat, before: int, after: int)
    requires 0 < n
    requires FadeWords(n - 1, 100 * current, FadeOffset(current, next)) == 100 * current + before
    requires before + TruncHalf(next - current) == after && 0 <= 100 * current + after < 65536
    ensures FadeWords(n, 100 * current, FadeOffset(current, next)) == 100 * current + after
  {
    FadeStep(n, 100 * current, FadeOffset(current, next));
    assert (100 * current + after) % 65536 == 100 * current + after;
  }

  lemma FadeStep(n: nat, word: nat, offset: byte)
    requires n > 0 && word < 65536
    ensures FadeWords(n, word, offset) == (FadeWords(n - 1, word, offset) + Signed8(offset)) % 65536
  {
  }

  /** During a transition every channel shows a level between its start and its target. */
  lemma FadeStaysBetween(current: byte, next: byte, n: nat)
    requires n <= FADE_CALLS
    ensures var level := FadeLevel(FadeWords(n, 100 * current, FadeOffset(current, next)));
      Min(current, next) <= level <= Max(current, next)
  {
    FadeWordsClosedForm(current, next, n);
    HalvesWithin(next - current, n);
    var w := 100 * current + n * TruncHalf(next - current);
    if next >= current {
      assert 100 * current <= w <= 100 * next;
    } else {
      assert 100 * next <= w <= 100 * current;
    }
    assert w / 100 < 256;
  }

  /**
   * After the 200 transition calls each channel shows its target exactly
   * when the difference was even, and stops one short of it (toward the
   * start) when it was odd.
   */
  lemma FadeArrives(current: byte, next: byte)
    ensures FadeLevel(FadeWords(FADE_CALLS, 100 * current, FadeOffset(current, next))) ==
      if (next - current) % 2 == 0 then next
      else if next > current then next - 1
      else next + 1
  {
    FadeWordsClosedForm(current, next, FADE_CALLS);
    var d := next - current;
    if d % 2 == 0 {
      assert 200 * TruncHalf(d) == 100 * d;
    } else if d > 0 {
      assert 200 * TruncHalf(d) == 100 * d - 100;
    } else {
      assert 200 * TruncHalf(d) == 100 * d + 100;
    }
  }

  /** The counter and phase of Fade after one call (the colour work aside). */
  function FadeTick(value: byte, phase: FadePhase): (byte, FadePhase)
  {
    match phase
    case FadeGenerate => (0, FadeTransition)
    case FadeTransition =>
      if value >= FADE_CALLS - 1 then (0, FadeWait) else (value + 1, FadeTransition)
    case FadeWait =>
      (Wrap8(value + 1), if value >= FADE_CALLS - 1 then FadeGenerate else FadeWait)
  }

  function FadeTicks(n: nat, value: byte, phase: FadePhase): (byte, FadePhase)
  {
    if n == 0 then (value, phase)
    else
      var r := FadeTicks(n - 1, value, phase);
      FadeTick(r.0, r.1)
  }

  lemma {:induction false} FadeTicksCount(n: nat, phase: FadePhase)
    requires n < FADE_CALLS && phase != FadeGenerate
    ensures FadeTicks(n, 0, phase) == (n, phase)
  {
    if n > 0 {
      FadeTicksCount(n - 1, phase);
    }
  }

  /** Entered with a cleared counter, Transition and Wait each last exactly 200 calls. */
  lemma FadePhasesLast200Calls()
    ensures FadeTicks(FADE_CALLS, 0, FadeTransition) == (0, FadeWait)
    ensures FadeTicks(FADE_CALLS, 0, FadeWait) == (FADE_CALLS, FadeGenerate)
    ensures forall n :: 0 <= n < FADE_CALLS ==>
      FadeTicks(n, 0, FadeTransition).1 == FadeTransition && FadeTicks(n, 0, FadeWait).1 == FadeWait
  {
    FadeTicksCount(FADE_CALLS - 1, FadeTransition);
    FadeTicksCount(FADE_CALLS - 1, FadeWait);
    forall n | 0 <= n < FADE_CALLS
      ensures FadeTicks(n, 0, FadeTransition).1 == FadeTransition && FadeTicks(n, 0, FadeWait).1 == FadeWait
    {
      FadeTicksCount(n, FadeTransition);
      FadeTicksCount(n, FadeWait);
    }
  }

  // ------------------------------------------------------------------- ghost

  /** Orb half-width and invisible cells on each side of the display. */
  const GHOST_WIDTH: nat := 2
  const GHOST_OVERSCAN: nat := 1

  /** The orb canvas: six visible cells and one hidden cell on each side. */
  const GHOST_CELLS: nat := RGB + 2 * GHOST_OVERSCAN

  /** A new orb's centre is WIDTH + random8(8 - 4): cells 2 to 5. */
  const GHOST_SLOTS: nat := GHOST_CELLS - 2 * GHOST_WIDTH

  /** The brightness threshold of orb offset 0..4: 50 per cell from the centre. */
  function GhostFade(offset: nat): nat
    requires offset <= 2 * GHOST_WIDTH
  {
    if offset < GHOST_WIDTH then 50 * (GHOST_WIDTH - offset) else 50 * (offset - GHOST_WIDTH)
  }

  /** Whether orb cell `offset` brightens at age g. */
  predicate Glows(g: byte, offset: nat)
    requires offset <= 2 * GHOST_WIDTH
  {
    GhostFade(offset) + g < 250 && g + 10 > GhostFade(offset)
  }

  /** The canvas cell the source writes for an orb offset: `position + offset - WIDTH`. */
  function GhostCell(position: int, offset: nat): int
  {
    position + offset - GHOST_WIDTH
  }

  /**
   * The orb loop on the 24-byte canvas (cell c, channel k at 3c + k): each
   * cell of the orb that glows gains 2 in the orb's channel, saturating.
   */
  function Glowed(led: seq<byte>, position: nat, channel: nat, g: byte): (r: seq<byte>)
    requires |led| == 3 * GHOST_CELLS && GHOST_WIDTH <= position < GHOST_WIDTH + GHOST_SLOTS && channel < 3
    ensures |r| == |led|
  {
    seq(3 * GHOST_CELLS, i requires 0 <= i < 3 * GHOST_CELLS =>
      var offset := i / 3 + GHOST_WIDTH - position;
      if i % 3 == channel && 0 <= offset <= 2 * GHOST_WIDTH && Glows(g, offset)
      then QAdd8(led[i], 2) else led[i])
  }

  /** The visible pixels of the canvas: cells 1 to 6. */
  function GhostColors(led: seq<byte>): (colors: seq<Rgb>)
    requires |led| == 3 * GHOST_CELLS
    ensures |colors| == RGB
  {
    seq(RGB, p requires 0 <= p < RGB => Pixel(led, p + GHOST_OVERSCAN))
  }

  /** `led[pixel + OVERSCAN]--` on a CRGB: each channel of the visible cells loses 1, stopping at 0. */
  function GhostDimmed(led: seq<byte>): (r: seq<byte>)
    requires |led| == 3 * GHOST_CELLS
    ensures |r| == |led|
  {
    seq(3 * GHOST_CELLS, i requires 0 <= i < 3 * GHOST_CELLS =>
      if 3 * GHOST_OVERSCAN <= i < 3 * (GHOST_OVERSCAN + RGB) then QSub8(led[i], 1) else led[i])
  }

  /** Dimming touches the six visible cells only; the overscan cells 0 and 7 keep their value. */
  lemma OverscanNeverDecays(led: seq<byte>, i: nat)
    requires |led| == 3 * GHOST_CELLS && i < 3 * GHOST_CELLS
    ensures i / 3 == 0 || i / 3 == GHOST_CELLS - 1 ==> GhostDimmed(led)[i] == led[i]
    ensures 0 < i / 3 < GHOST_CELLS - 1 ==> GhostDimmed(led)[i] == Max(led[i] as int - 1, 0)
  {
  }

  /** Every cell a spawned orb touches lies on the canvas. */
  lemma GhostCellsInRange(position: nat, offset: nat)
    requires GHOST_WIDTH <= position < GHOST_WIDTH + GHOST_SLOTS && offset <= 2 * GHOST_WIDTH
    ensures 0 <= GhostCell(position, offset) < GHOST_CELLS
  {
  }

  /**
   * Only the orb's channel of the five cells around its centre changes, each
   * by at most 2; the centre brightens at every age below 240.
   */
  lemma GlowIsLocal(led: seq<byte>, position: nat, channel: nat, g: byte, i: nat)
    requires |led| == 3 * GHOST_CELLS && GHOST_WIDTH <= position < GHOST_WIDTH + GHOST_SLOTS && channel < 3
    requires i < 3 * GHOST_CELLS
    ensures var r := Glowed(led, position, channel, g);
      led[i] <= r[i] <= led[i] as int + 2 &&
      (r[i] != led[i] ==> i % 3 == channel && position - GHOST_WIDTH <= i / 3 <= position + GHOST_WIDTH)
    ensures g < 240 && i == 3 * position + channel && led[i] < 254 ==> Glowed(led, position, channel, g)[i] == led[i] + 2
  {
  }

  /** The orb's age after n calls: g_value grows by 2 per call, as a uint8_t. */
  function GhostAges(n: nat, g: byte): byte
  {
    if n == 0 then g else Wrap8(GhostAges(n - 1, g) + 2)
  }

  lemma {:induction false} GhostAgesClosedForm(n: nat, g: byte)
    ensures GhostAges(n, g) == Wrap8(g + 2 * n)
  {
    if n > 0 {
      GhostAgesClosedForm(n - 1, g);
      WrapAdd(g + 2 * (n - 1), 2);
    }
  }

  /**
   * A new orb is spawned when the age is below 2; from a spawn the age
   * stays at 2 or more for the next 127 calls and is back below 2 on the
   * 128th: one orb every 128 calls.
   */
  lemma GhostRespawnsEvery128Calls(g: byte, n: nat)
    requires g < 2
    ensures 0 < n < 128 ==> GhostAges(n, g) >= 2
    ensures GhostAges(128, g) == g
  {
    GhostAgesClosedForm(n, g);
    GhostAgesClosedForm(128, g);
    assert Wrap8(g + 2 * 128) == g;
  }

  /**
   * As written, the orb centre starts at 0 and only a spawn (g_value below 2)
   * moves it. Entering Ghost with g_value between 39 and 197, as another
   * effect can leave it, makes the orb write canvas cell -1, before the array.
   */
  lemma GhostStartWritesOutside(g: byte)
    requires 39 <= g <= 197
    ensures g >= 2 && Glows(Wrap8(g + 2), 1) && GhostCell(0, 1) == -1
  {
  }

  // ------------------------------------------------------------------- drops

  /** Caps lose 2 per call (`decay`); neighbours spill `>> 5` (`pull`). */
  const DROPS_DECAY: byte := 2
  const DROPS_PULL: nat := 5

  /** What a channel passes to each neighbour: the byte shifted right by `pull`. */
  function Spill(b: byte): nat
  {
    b / 32
  }

  /**
   * The spread of the three loops of DigitDrops, written once: each byte keeps
   * its value plus the spill of the same channel one pixel down and one
   * pixel up (where those exist), capped at its channel's cap.
   */
  function Spread(leds: seq<byte>, caps: seq<byte>): (r: seq<byte>)
    requires |leds| == LED && |caps| == 3
    ensures |r| == LED
  {
    seq(LED, k requires 0 <= k < LED => SpreadAt(leds, caps, k))
  }

  /** Byte k of the spread. */
  function SpreadAt(leds: seq<byte>, caps: seq<byte>, k: nat): byte
    requires |leds| == LED && |caps| == 3 && k < LED
  {
    Min(leds[k] + (if k >= 3 then Spill(leds[k - 3]) else 0) + (if k + 3 < LED then Spill(leds[k + 3]) else 0),
        caps[k % 3])
  }

  /** The caps after a call. */
  function Decayed(caps: seq<byte>): (r: seq<byte>)
    requires |caps| == 3
    ensures |r| == 3
  {
    seq(3, i requires 0 <= i < 3 => QSub8(caps[i], DROPS_DECAY))
  }

  /** The drop of a new second: one byte of channel `second % 3` at full, and that channel's cap at full. */
  function Dropped(leds: seq<byte>, digit: nat, second: byte): (r: seq<byte>)
    requires |leds| == LED && digit < RGB
    ensures |r| == LED
  {
    leds[3 * digit + second % 3 := 255]
  }

  /** No byte exceeds its channel's cap, and no byte gets dimmer unless the cap is below it. */
  lemma SpreadWithinCap(leds: seq<byte>, caps: seq<byte>, k: nat)
    requires |leds| == LED && |caps| == 3 && k < LED
    ensures Spread(leds, caps)[k] <= caps[k % 3]
    ensures Spread(leds, caps)[k] >= Min(leds[k], caps[k % 3])
  {
  }

  function DecayedTimes(n: nat, caps: seq<byte>): (r: seq<byte>)
    requires |caps| == 3
    ensures |r| == 3
  {
    if n == 0 then caps else Decayed(DecayedTimes(n - 1, caps))
  }

  lemma {:induction false} DecayedTimesClosedForm(n: nat, caps: seq<byte>, i: nat)
    requires |caps| == 3 && i < 3
    ensures DecayedTimes(n, caps)[i] == Max(caps[i] - 2 * n, 0)
  {
    if n > 0 {
      DecayedTimesClosedForm(n - 1, caps, i);
    }
  }

  /** 128 calls without a new second take every cap to 0, and then the spread is all dark. */
  lemma DropsGoDark(caps: seq<byte>, leds: seq<byte>, n: nat)
    requires |caps| == 3 && |leds| == LED && n >= 128
    ensures DecayedTimes(n, caps) == [0, 0, 0]
    ensures forall k :: 0 <= k < LED ==> Spread(leds, DecayedTimes(n, caps))[k] == 0
  {
    DecayedTimesClosedForm(n, caps, 0);
    DecayedTimesClosedForm(n, caps, 1);
    DecayedTimesClosedForm(n, caps, 2);
  }

  // ------------------------------------------------------------------- digit

  /** Digit's hue for a pair of pixels: 10 x hour, 4 x minute, 4 x second, as uint8_t. */
  function DigitHue(group: nat, hour: byte, minute: byte, second: byte): byte
    requires group < 3
  {
    if group == 0 then Wrap8(10 * hour) else if group == 1 then Wrap8(4 * minute) else Wrap8(4 * second)
  }

  /** For a valid time no hue wraps, so a later hour, minute or second shows a larger hue. */
  lemma DigitHueMonotone(group: nat, hour: byte, minute: byte, second: byte, later: byte)
    requires group < 3 && hour < 24 && minute < 60 && second < 60 && later < 60
    requires (group == 0 ==> later < 24)
    ensures group == 0 && hour < later ==> DigitHue(0, hour, minute, second) < DigitHue(0, later, minute, second)
    ensures group == 1 && minute < later ==> DigitHue(1, hour, minute, second) < DigitHue(1, hour, later, second)
    ensures group == 2 && second < later ==> DigitHue(2, hour, minute, second) < DigitHue(2, hour, minute, later)
  {
  }

  // ------------------------------------------------------------------ tetris

  /** The phases of Tetris. */
  datatype TetrisPhase = TetrisGenerate | TetrisShiftIn | TetrisShiftOut

  /** `++g_value > 8`: Tetris moves on one call in nine. */
  const TETRIS_LIMIT: nat := 8

  /** The same test read as `g_value++ > 7` on the counter before the increment. */
  const TETRIS_GATE: nat := TETRIS_LIMIT - 1

  /** Generate: a full top cell starts the drain, else a new block (hue 1..254) enters at the top. */
  function Generated(cells: seq<byte>, hue: byte): (r: (seq<byte>, TetrisPhase))
    requires |cells| == RGB
    ensures |r.0| == RGB
  {
    if cells[RGB - 1] > 0 then (cells, TetrisShiftOut) else (cells[RGB - 1 := hue], TetrisShiftIn)
  }

  /** Generate adds a block (hue 1..254) to an empty top cell and touches nothing else; a full top starts the drain. */
  lemma GenerateFillsTop(cells: seq<byte>, hue: byte)
    requires |cells| == RGB && 1 <= hue <= 254
    ensures cells[RGB - 1] == 0 ==>
      Generated(cells, hue).1 == TetrisShiftIn && 1 <= Generated(cells, hue).0[RGB - 1] <= 254 &&
      Generated(cells, hue).0[..RGB - 1] == cells[..RGB - 1] &&
      Height(Generated(cells, hue).0, 0) == Height(cells, 0) + RGB
    ensures cells[RGB - 1] > 0 ==> Generated(cells, hue) == (cells, TetrisShiftOut)
  {
    if cells[RGB - 1] == 0 {
      HeightUpdate(cells, 0, RGB - 1, hue);
    }
  }

  /** `++g_value > 8`: from a cleared counter Tetris moves on the ninth call and not before. */
  lemma TetrisMovesEveryNinthCall(value: byte)
    requires value < 255
    ensures var v := Wrap8(value + 1);
      (if v > TETRIS_LIMIT then (0, true) else (v, false)) == Gate(value, TETRIS_GATE)
    ensures Gates(TETRIS_LIMIT + 1, 0, TETRIS_GATE) == (0, true)
    ensures forall n :: 0 < n < TETRIS_LIMIT + 1 ==> !Gates(n, 0, TETRIS_GATE).1
  {
    GateOpensAfter(TETRIS_GATE);
  }

  /**
   * The shift-in loop from index i on: an empty cell whose upper neighbour
   * is occupied takes its value and empties it. The flag says whether any
   * cell moved.
   */
  function SlideFrom(cells: seq<byte>, i: nat): (r: (seq<byte>, bool))
    requires |cells| == RGB && i <= RGB - 1
    ensures |r.0| == RGB
    decreases RGB - 1 - i
  {
    if i == RGB - 1 then (cells, false)
    else if cells[i] == 0 && cells[i + 1] > 0 then
      (SlideFrom(cells[i := cells[i + 1]][i + 1 := 0], i + 1).0, true)
    else SlideFrom(cells, i + 1)
  }

  /** The lowest occupied cell at or above i, or RGB when there is none. */
  function FirstOccupied(cells: seq<byte>, i: nat): (j: nat)
    requires |cells| == RGB && i <= RGB
    ensures i <= j <= RGB
    ensures j < RGB ==> cells[j] > 0
    ensures forall k :: i <= k < j ==> cells[k] == 0
    decreases RGB - i
  {
    if i == RGB then RGB else if cells[i] > 0 then i else FirstOccupied(cells, i + 1)
  }

  /** The shift-out loop: the lowest occupied cell moves down one, or leaves from cell 0. */
  function Drained(cells: seq<byte>): (r: (seq<byte>, bool))
    requires |cells| == RGB
    ensures |r.0| == RGB
  {
    var j := FirstOccupied(cells, 0);
    if j == RGB then (cells, false)
    else if j > 0 then (cells[j - 1 := cells[j]][j := 0], true)
    else (cells[0 := 0], true)
  }

  /** One gated Tetris step: the phase's action and the phase that follows. */
  function TetrisStep(cells: seq<byte>, phase: TetrisPhase, hue: byte): (r: (seq<byte>, TetrisPhase))
    requires |cells| == RGB
    ensures |r.0| == RGB
  {
    match phase
    case TetrisGenerate => Generated(cells, hue)
    case TetrisShiftIn =>
      var (c, shifted) := SlideFrom(cells, 0);
      (c, if shifted then TetrisShiftIn else TetrisGenerate)
    case TetrisShiftOut =>
      var (c, shifted) := Drained(cells);
      (c, if shifted then TetrisShiftOut else TetrisGenerate)
  }

  /** The hue each pixel is drawn with: its own when occupied, else the last one drawn before it. */
  function CarriedHue(cells: seq<byte>, p: nat): byte
    requires |cells| == RGB && p < RGB
  {
    if cells[p] > 0 then cells[p] else if p == 0 then 0 else CarriedHue(cells, p - 1)
  }

  /** The colour of pixel p: full brightness when occupied, value 0 when empty. */
  function TetrisPixel(cells: seq<byte>, p: nat): Hsv
    requires |cells| == RGB && p < RGB
  {
    Hsv(CarriedHue(cells, p), 255, if cells[p] > 0 then 255 else 0)
  }

  /** Sum of (index + 1) over the occupied cells from i on: how far the blocks are from leaving. */
  function Height(cells: seq<byte>, i: nat): nat
    requires i <= |cells|
    decreases |cells| - i
  {
    if i == |cells| then 0 else (if cells[i] > 0 then i + 1 else 0) + Height(cells, i + 1)
  }

  /** Changing one cell changes the height by that cell's contribution only. */
  lemma {:induction false} HeightUpdate(cells: seq<byte>, i: nat, k: nat, v: byte)
    requires i <= |cells| && k < |cells|
    ensures i <= k ==> Height(cells[k := v], i) + (if cells[k] > 0 then k + 1 else 0)
                       == Height(cells, i) + (if v > 0 then k + 1 else 0)
    ensures k < i ==> Height(cells[k := v], i) == Height(cells, i)
    decreases |cells| - i
  {
    if i < |cells| {
      HeightUpdate(cells, i + 1, k, v);
    }
  }

  /** Moving an occupied cell down into an empty one lowers the height by one. */
  lemma HeightOfMove(cells: seq<byte>, i: nat)
    requires |cells| == RGB && i + 1 < RGB && cells[i] == 0 && cells[i + 1] > 0
    ensures Height(cells[i := cells[i + 1]][i + 1 := 0], 0) + 1 == Height(cells, 0)
  {
    var moved := cells[i := cells[i + 1]];
    HeightUpdate(cells, 0, i, cells[i + 1]);
    HeightUpdate(moved, 0, i + 1, 0);
  }

  /** Swapping two neighbouring cells keeps the same cells. */
  lemma SwapKeeps(cells: seq<byte>, i: nat)
    requires i + 1 < |cells|
    ensures multiset(cells[i := cells[i + 1]][i + 1 := cells[i]]) == multiset(cells)
  {
    var swapped := cells[i := cells[i + 1]][i + 1 := cells[i]];
    assert cells == cells[..i] + [cells[i], cells[i + 1]] + cells[i + 2..];
    assert swapped == cells[..i] + [cells[i + 1], cells[i]] + cells[i + 2..];
    assert multiset([cells[i], cells[i + 1]]) == multiset([cells[i + 1], cells[i]]);
  }

  /** A shift-in pass moves cells only by swapping: the same blocks remain. */
  lemma {:induction false} SlideKeepsBlocks(cells: seq<byte>, i: nat)
    requires |cells| == RGB && i <= RGB - 1
    ensures multiset(SlideFrom(cells, i).0) == multiset(cells)
    decreases RGB - 1 - i
  {
    if i < RGB - 1 {
      if cells[i] == 0 && cells[i + 1] > 0 {
        var next := cells[i := cells[i + 1]][i + 1 := 0];
        assert next == cells[i := cells[i + 1]][i + 1 := cells[i]];
        SwapKeeps(cells, i);
        SlideKeepsBlocks(next, i + 1);
      } else {
        SlideKeepsBlocks(cells, i + 1);
      }
    }
  }

  /** Cell k of out is empty, as in cells, or holds the block of the cell above it in cells. */
  predicate CellWithinOnePlace(cells: seq<byte>, out: seq<byte>, k: nat)
    requires |cells| == RGB && |out| == RGB && k < RGB
  {
    out[k] == 0 || out[k] == cells[k] || (k + 1 < RGB && out[k] == cells[k + 1])
  }

  /** Every cell of out at or above i is within one place of cells; those below i are as in cells. */
  predicate WithinOnePlace(cells: seq<byte>, out: seq<byte>, i: nat)
    requires |cells| == RGB && |out| == RGB && i <= RGB
  {
    (forall k :: 0 <= k < i ==> out[k] == cells[k]) &&
    forall k: nat :: i <= k < RGB ==> CellWithinOnePlace(cells, out, k)
  }

  /** One move of the pass, pulling the block above i down into the empty cell i. */
  lemma SlideStepWithinOnePlace(cells: seq<byte>, out: seq<byte>, i: nat)
    requires |cells| == RGB && |out| == RGB && i < RGB - 1
    requires WithinOnePlace(cells[i := cells[i + 1]][i + 1 := 0], out, i + 1)
    ensures WithinOnePlace(cells, out, i)
  {
    var next := cells[i := cells[i + 1]][i + 1 := 0];
    assert out[i] == next[i] == cells[i + 1];
    forall k: nat | i + 1 <= k < RGB
      ensures CellWithinOnePlace(cells, out, k)
    {
      assert CellWithinOnePlace(next, out, k);
      assert next[k] == if k == i + 1 then 0 else cells[k];
      assert k + 1 < RGB ==> next[k + 1] == cells[k + 1];
    }
  }

  /**
   * A shift-in pass moves each block at most one place toward cell 0: every
   * cell ends empty, as it was, or holding its upper neighbour's block, and
   * the cells below i are not touched.
   */
  lemma {:induction false} SlideMovesAtMostOnePlace(cells: seq<byte>, i: nat)
    requires |cells| == RGB && i <= RGB - 1
    ensures WithinOnePlace(cells, SlideFrom(cells, i).0, i)
    decreases RGB - 1 - i
  {
    if i < RGB - 1 {
      if cells[i] == 0 && cells[i + 1] > 0 {
        var next := cells[i := cells[i + 1]][i + 1 := 0];
        assert SlideFrom(cells, i).0 == SlideFrom(next, i + 1).0;
        SlideMovesAtMostOnePlace(next, i + 1);
        SlideStepWithinOnePlace(cells, SlideFrom(cells, i).0, i);
      } else {
        assert SlideFrom(cells, i) == SlideFrom(cells, i + 1);
        SlideMovesAtMostOnePlace(cells, i + 1);
      }
    }
  }

  /** No gap below a block: the occupied cells are a prefix (the stack has settled). */
  predicate Settled(cells: seq<byte>)
  {
    forall k :: 0 <= k < |cells| - 1 && cells[k] == 0 ==> cells[k + 1] == 0
  }

  /** A pass moves nothing exactly when there is no gap below a block from i on, and then changes nothing. */
  lemma {:induction false} SlideMovesUnlessSettled(cells: seq<byte>, i: nat)
    requires |cells| == RGB && i <= RGB - 1
    ensures !SlideFrom(cells, i).1 <==> forall k :: i <= k < RGB - 1 && cells[k] == 0 ==> cells[k + 1] == 0
    ensures !SlideFrom(cells, i).1 ==> SlideFrom(cells, i).0 == cells
    decreases RGB - 1 - i
  {
    if i < RGB - 1 && !(cells[i] == 0 && cells[i + 1] > 0) {
      SlideMovesUnlessSettled(cells, i + 1);
    }
  }

  /** A pass that moves something lowers the height, so shift-in ends after finitely many passes. */
  lemma {:induction false} SlideLowers(cells: seq<byte>, i: nat)
    requires |cells| == RGB && i <= RGB - 1
    ensures SlideFrom(cells, i).1 ==> Height(SlideFrom(cells, i).0, 0) < Height(cells, 0)
    ensures Height(SlideFrom(cells, i).0, 0) <= Height(cells, 0)
    decreases RGB - 1 - i
  {
    if i < RGB - 1 {
      if cells[i] == 0 && cells[i + 1] > 0 {
        var next := cells[i := cells[i + 1]][i + 1 := 0];
        HeightOfMove(cells, i);
        SlideLowers(next, i + 1);
      } else {
        SlideLowers(cells, i + 1);
      }
    }
  }

  /**
   * Shift-out lowers the height by exactly one while any block is left, and
   * reports no shift (back to Generate) only on an empty board.
   */
  lemma DrainLowers(cells: seq<byte>)
    requires |cells| == RGB
    ensures Drained(cells).1 <==> exists k :: 0 <= k < RGB && cells[k] > 0
    ensures Drained(cells).1 ==> Height(Drained(cells).0, 0) + 1 == Height(cells, 0)
    ensures !Drained(cells).1 ==> Drained(cells).0 == cells
  {
    var j := FirstOccupied(cells, 0);
    if j < RGB {
      if j > 0 {
        HeightOfMove(cells, j - 1);
      } else {
        HeightUpdate(cells, 0, 0, 0);
      }
    }
  }

  // ------------------------------------------------------------------- cycle

  /** Cycle picks among the effects between Static and Cycle: 11 of them. */
  const CYCLE_CHOICES: nat := 11

  /** A new minute advances the uint8_t effect counter. */
  function CycleCount(previousMinute: byte, counter: byte, minute: byte): (r: (byte, byte))
  {
    if previousMinute != minute then (minute, Wrap8(counter + 1)) else (previousMinute, counter)
  }

  /** `1 + (effect % (LED_EFFECT_CYCLE - 1))`. */
  function CycleChoice(counter: byte): (effect: byte)
    ensures Selected(effect) != Static && Selected(effect) != Cycle && Selected(effect) != Disable
  {
    1 + counter % (Ordinal(Cycle) - 1)
  }

  /**
   * Cycle runs every effect between Static and Cycle, in menu order from one
   * minute to the next, except when the uint8_t counter wraps from 255 to 0:
   * 1982 is then followed by Pulse rather than Pong.
   */
  lemma CycleOrder(counter: byte, e: Effect)
    requires Ordinal(Static) < Ordinal(e) < Ordinal(Cycle)
    ensures Selected(CycleChoice(Ordinal(e) - 1)) == e
    ensures counter < 255 ==> CycleChoice(counter + 1) == CycleChoice(counter) % CYCLE_CHOICES + 1
    ensures Selected(CycleChoice(255)) == Retro1982 && Selected(CycleChoice(0)) == Pulse
  {
    assert (Ordinal(e) - 1) % CYCLE_CHOICES == Ordinal(e) - 1;
    assert FromOrdinal(Ordinal(e)) == e;
    if counter < 255 {
      if counter % CYCLE_CHOICES == CYCLE_CHOICES - 1 {
        assert (counter + 1) % CYCLE_CHOICES == 0;
      } else {
        assert (counter + 1) % CYCLE_CHOICES == counter % CYCLE_CHOICES + 1;
      }
    }
    assert CycleChoice(255) == 3 && CycleChoice(0) == 1;
  }
}
