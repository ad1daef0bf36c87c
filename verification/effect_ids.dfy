/**
 * The LED effect identifiers (enum LED_EFFECT) and the menu name table
 * (LEDEffect_item_array). The enumeration order is the menu order, and the
 * Cycle effect relies on Static being first, Cycle penultimate and Disable
 * last.
 */
module EffectIds {

  /** LED_EFFECT, in declaration order. */
  datatype Effect =
    | Static | Pulse | Fire | Retro1982 | Pong | Fade | Rainbow | CShift
    | Ghost | Drops | Digit | Tetris | Cycle | Disable

  /** LED_EFFECT_COUNT, the sentinel after the last identifier. */
  const COUNT: nat := 14

  /** The numeric value the enumeration gives an identifier. */
  function Ordinal(e: Effect): (n: nat)
    ensures n < COUNT
  {
    match e
    case Static => 0
    case Pulse => 1
    case Fire => 2
    case Retro1982 => 3
    case Pong => 4
    case Fade => 5
    case Rainbow => 6
    case CShift => 7
    case Ghost => 8
    case Drops => 9
    case Digit => 10
    case Tetris => 11
    case Cycle => 12
    case Disable => 13
  }

  /** The identifier with a given numeric value. */
  function FromOrdinal(n: nat): (e: Effect)
    requires n < COUNT
    ensures Ordinal(e) == n
  {
    [Static, Pulse, Fire, Retro1982, Pong, Fade, Rainbow, CShift,
     Ghost, Drops, Digit, Tetris, Cycle, Disable][n]
  }

  /** Static must be first, Cycle penultimate and Disable last. */
  lemma EnumerationOrder()
    ensures Ordinal(Static) == 0
    ensures Ordinal(Cycle) == COUNT - 2 && Ordinal(Disable) == COUNT - 1
    ensures forall e :: FromOrdinal(Ordinal(e)) == e
  {
  }

  /** The six-character menu label of each effect (LEDEffect_item_*). */
  function ItemName(e: Effect): (s: string)
    ensures |s| == 6
  {
    match e
    case Static => "Static"
    case Pulse => "Pulse "
    case Fire => " Fire "
    case Retro1982 => " 1982 "
    case Pong => " Pong "
    case Fade => " Fade "
    case Rainbow => "Rainbo"
    case CShift => "CShift"
    case Ghost => "Ghost "
    case Drops => "Drops "
    case Digit => "Digit "
    case Tetris => "Tetris"
    case Cycle => "Cycle "
    case Disable => "Dsable"
  }

  /** LEDEffect_item_array, laid out by its designated initialisers. */
  const ItemArray: seq<string> :=
    ["Static", "Pulse ", " Fire ", " 1982 ", " Pong ", " Fade ", "Rainbo",
     "CShift", "Ghost ", "Drops ", "Digit ", "Tetris", "Cycle ", "Dsable"]

  /** The name table has one entry per identifier, entry i names effect i,
      and every label fills the six-tube display exactly. */
  lemma ItemArrayMatchesEnumeration()
    ensures |ItemArray| == COUNT
    ensures forall e :: ItemArray[Ordinal(e)] == ItemName(e)
    ensures forall i :: 0 <= i < COUNT ==> |ItemArray[i]| == 6
  {
  }

  /** The effects declared under "Effects that use Hue". */
  predicate UsesHue(e: Effect)
  {
    Ordinal(e) < Ordinal(Pong)
  }

  lemma HueEffects(e: Effect)
    ensures UsesHue(e) <==> e in {Static, Pulse, Fire, Retro1982}
  {
  }
}
