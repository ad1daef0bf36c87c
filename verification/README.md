# PhotoniClock: LED effects, music streaming and the EEPROM image

PhotoniClock is a six-tube clock with an RGB LED under each tube. This
project models its core in Dafny and proves properties of that model:

- **LED effects** (`Firmware/PhotoniClock/LEDEffect.cpp`, `LEDEffect.h`):
  the effect engine whose `LEDProcess` runs one handler per call. There is
  one handler each for Static, Pulse, Fire, Pong, 1982, Fade, Rainbow,
  Shift, Ghost, Drops, Digit, Tetris, Cycle and Disable. The handlers'
  `static` variables and the canvas are fields of the `Engine` class
  (`led_effect.dfy`). Their arithmetic is specified by pure functions with
  lemmas about periods, ranges and conservation (`led_effect_spec.dfy`).
  The menu identifiers and labels are in `effect_ids.dfy`. The byte
  helpers `qadd8` and `qsub8` are in `bytes.dfy`.
- **LED driver** (`Firmware/UnitTest/IS31FL3218.cpp`): the IS31FL3218
  driver's shadow registers. There are 18 PWM bytes and three control
  bytes of six enable bits each (`is31fl3218.dfy`).
- **LED controller** (`Firmware/Preload/LEDController.cpp`): the `CLED`
  class. It scales each byte of the pixel buffer, reorders the bytes
  through the revision A wiring table, and pushes them to the driver
  (`led_controller.dfy`).
- **CRC-8** (`Firmware/Preload/crc8.cpp`): the table-driven CRC with
  polynomial 0x1D (`crc8.dfy`).
- **Music streaming** (`Firmware/PhotoniClock/Music.cpp`): each of the
  two channels cycles through three 32-byte buffers. `I2CStream` returns
  the note bytes of a channel. `GetMusicEEPROM` finds a song in the EEPROM
  table. `PlayMusic` starts a built-in tune or the two streams
  (`music.dfy`).
- **notes2eeprom.py** (`Utilities/notes2eeprom.py`): the host tool that
  builds the EEPROM image from a song list. The image is:
  - a table section: the section count; the song count; one little-endian
    start offset per channel; the end offset; zero padding up to
    `address_start`; the table's CRC;
  - then the channel bytes, cut into chunks of at most 296 bytes, each
    followed by its CRC.

  Every section is byte-stuffed and closed by 0xFE. The tool's
  transmitters split the image back into sections. The byte stuffing,
  chunking and splitting are in `framing.dfy`. The image in closed form,
  and the fold that follows `process_data` step by step, are in
  `eeprom_image.dfy`. The tool's loops are written as methods proved
  against those functions in `notes2eeprom.dfy`.

Code that updates state in place is modelled as classes and methods:
- the effect engine;
- the driver;
- the controller;
- the CRC table;
- the streams and the player;
- `crc_precompute_table` and the table writes of `process_data`.

Arithmetic that only computes a value is modelled as functions. Bytes of
the effect engine are a `byte` subset of `int`, with every uint8_t and
uint16_t wrap-around written out. Bytes of the CRC and of the image are
`bv8`.

## Model

| member | source | states |
|---|---|---|
| Bytes.QAdd8 | Firmware/PhotoniClock/LEDEffect.cpp:181-185 | the spark's saturating add: the exact sum when it fits in a byte, 255 otherwise, and never below either operand |
| Bytes.QSub8 | Firmware/PhotoniClock/LEDEffect.cpp:169-172 | the cooling's saturating subtract: the exact difference when it is not negative, 0 otherwise, and never above the minuend |
| Crc8.Checksum | Firmware/Preload/crc8.cpp:61-84 | the CRC of a byte string, the compute loop's fold of Step from 0 |
| Crc8.Step | Firmware/Preload/crc8.cpp:74-80 | one round of the compute loop: the table entry of `data[i] ^ crc`, combined with the shifted crc |
| Crc8.Combine | Firmware/Preload/crc8.cpp:80 | `value ^ (crc << 8)` on the promoted operands, truncated to uint8_t |
| Crc8.TableEntry | Firmware/Preload/crc8.cpp:37-53 | crc_table[d], eight bit steps from d |
| Crc8.Remainder | Firmware/Preload/crc8.cpp:39-51 | the remainder after a given number of bit steps from the dividend |
| Crc8.Shift | Firmware/Preload/crc8.cpp:43-50 | one bit step of the table loop: shift right, folding in the polynomial 0x1D when bit 0 was set |
| Crc8.RemainderOfZero | Firmware/Preload/crc8.cpp:39-51 | a zero remainder stays zero through any number of bit steps of the table loop |
| Crc8.TableZero | Firmware/Preload/crc8.cpp:37-53 | table entry 0 is 0 |
| Crc8.CombineIsValue | Firmware/Preload/crc8.cpp:80 | `value ^ (crc << 8)` truncated to a byte is `value`: the shifted register never reaches the low byte |
| Crc8.StepIsLookup | Firmware/Preload/crc8.cpp:74-80 | each step of the fold is the table entry of `data[i] ^ crc` |
| Crc8.ChecksumAppend | Firmware/Preload/crc8.cpp:72-81 | appending a byte to the message folds it in with one table lookup |
| Crc8.ChecksumPrefix | Firmware/Preload/crc8.cpp:72-81 | the CRC of a prefix one byte longer is one more step of the loop |
| Crc8.ChecksumOfCheckedMessage | Firmware/Preload/crc8.cpp:61-84 | a message followed by its own CRC has CRC 0, which is how a receiver checks a frame |
| Crc8.ShiftNarrows | Firmware/Preload/crc8.cpp:43-50 | each bit step clears one more of the top three bits and never sets them again, since the polynomial 0x1D fits in five bits |
| Crc8.TableEntryBelow32 | Firmware/Preload/crc8.cpp:33-57 | every table entry is below 32 |
| Crc8.ChecksumBelow32 | Firmware/Preload/crc8.cpp:61-84 | every CRC is below 32, so a CRC byte can never be a framing indicator 0xFC..0xFF |
| Crc8.Crc.constructor | Firmware/Preload/crc8.cpp:31 | a new table starts not yet computed |
| Crc8.Crc.PrecomputeTable | Firmware/Preload/crc8.cpp:33-57 | every one of the 256 entries is eight bit steps of its index, and the flag is set afterwards |
| Crc8.Crc.Compute | Firmware/Preload/crc8.cpp:61-84 | the table is filled on first use only (a computed table is left untouched), and the result is the left fold of the table step over `data[0..length)` from 0 |
| EffectIds.UsesHue | Firmware/PhotoniClock/LEDEffect.h:36-41 | the effects declared under "Effects that use Hue" |
| EffectIds.Ordinal | Firmware/PhotoniClock/LEDEffect.h:34-54 | every identifier's value is below LED_EFFECT_COUNT (14) |
| EffectIds.FromOrdinal | Firmware/PhotoniClock/LEDEffect.h:34-54 | every value below 14 names the identifier that has it |
| EffectIds.EnumerationOrder | Firmware/PhotoniClock/LEDEffect.h:37-53 | Static is first, Cycle penultimate and Disable last, and value and identifier are mutually inverse |
| EffectIds.ItemName | Firmware/PhotoniClock/LEDEffect.h:56-69 | every menu label is six characters, one per display tube |
| EffectIds.ItemArrayMatchesEnumeration | Firmware/PhotoniClock/LEDEffect.h:71-87 | the name table has one entry per identifier and entry i is the label of effect i |
| EffectIds.HueEffects | Firmware/PhotoniClock/LEDEffect.h:36-42 | exactly Static, Pulse, Fire and 1982 are the effects that use the hue |
| IS31FL3218.Driver.GetDeviceState | Firmware/UnitTest/IS31FL3218.cpp:160-163 | the recorded device state, read without change |
| IS31FL3218.Unpack | Firmware/UnitTest/IS31FL3218.cpp:135-144 | the three PWM bytes SetRGBPWM extracts from a uint32 colour |
| IS31FL3218.Pack | Firmware/UnitTest/IS31FL3218.cpp:216-221 | GetRGBPWM's uint32: red in bits 16-23, green in 8-15, blue in 0-7 |
| IS31FL3218.UpdateBit | Firmware/UnitTest/IS31FL3218.cpp:73 | the xor-mask update that sets bit k of a control byte to a state |
| IS31FL3218.BitState | Firmware/UnitTest/IS31FL3218.cpp:182-184 | GetLEDState's test: bit k of a control byte read as ENABLE or DISABLE |
| IS31FL3218.BitMask | Firmware/UnitTest/IS31FL3218.cpp:73 | `0x1 << k`, the mask of bit k of a control byte |
| IS31FL3218.MasksDisjoint | Firmware/UnitTest/IS31FL3218.cpp:73 | `0x1 << k` is never zero and two different bit positions give disjoint masks |
| IS31FL3218.MaskedUpdate | Firmware/UnitTest/IS31FL3218.cpp:73 | the xor-masked update sets the masked bits to the new value and leaves every bit outside the mask as it was |
| IS31FL3218.UpdateBitKeepsOtherBit | Firmware/UnitTest/IS31FL3218.cpp:73 | changing bit k of a control byte leaves any other bit's state unchanged |
| IS31FL3218.UpdateBitSetsOnlyBitK | Firmware/UnitTest/IS31FL3218.cpp:73 | after the update bit k reads back as the requested state and all other bits read as before |
| IS31FL3218.PackUnpack | Firmware/UnitTest/IS31FL3218.cpp:135-144 | splitting a colour into R, G, B and packing them back keeps exactly its low 24 bits |
| IS31FL3218.Driver.States | Firmware/UnitTest/IS31FL3218.cpp:196-204 | the control bytes record one enable state per LED, 18 in all |
| IS31FL3218.Driver.constructor | Firmware/UnitTest/IS31FL3218.cpp:31-34 | a new driver has every PWM and control byte 0 and the device disabled |
| IS31FL3218.Driver.Reset | Firmware/UnitTest/IS31FL3218.cpp:224-229 | every PWM and control byte becomes 0 and the device state DISABLE |
| IS31FL3218.Driver.Initialize | Firmware/UnitTest/IS31FL3218.cpp:37-43 | afterwards every PWM value is 0, the device is enabled and every LED reads back as enabled |
| IS31FL3218.Driver.SetDeviceState | Firmware/UnitTest/IS31FL3218.cpp:46-50 | the device state becomes the argument, nothing else changes, and the I2C status is returned |
| IS31FL3218.Driver.SetLEDPWM | Firmware/UnitTest/IS31FL3218.cpp:53-62 | in range exactly register `led` changes and reads back as the value; out of range nothing changes and STATUS_OUT_OF_BOUNDS is returned |
| IS31FL3218.Driver.SetLEDState | Firmware/UnitTest/IS31FL3218.cpp:65-80 | in range the LED reads back as the state and every other LED keeps its state; out of range nothing changes and STATUS_OUT_OF_BOUNDS is returned |
| IS31FL3218.Driver.SetAllPWMValue | Firmware/UnitTest/IS31FL3218.cpp:83-87 | every PWM register holds the value |
| IS31FL3218.Driver.SetAllStateValue | Firmware/UnitTest/IS31FL3218.cpp:90-95 | every control byte is 0x3F for ENABLE or 0x00 for DISABLE, so every LED reads back as the state |
| IS31FL3218.Driver.SetAllPWM | Firmware/UnitTest/IS31FL3218.cpp:98-102 | the PWM registers become the given 18 bytes and read back as them |
| IS31FL3218.Driver.SetAllState | Firmware/UnitTest/IS31FL3218.cpp:105-117 | after the per-LED loop the recorded states are exactly the given 18 states |
| IS31FL3218.Driver.SetRGBPWM | Firmware/UnitTest/IS31FL3218.cpp:120-132 | in range exactly the pixel's three registers change and read back as the given bytes; out of range nothing changes and STATUS_OUT_OF_BOUNDS is returned |
| IS31FL3218.Driver.SetRGBPWMColor | Firmware/UnitTest/IS31FL3218.cpp:135-144 | in range the pixel reads back as the colour's low 24 bits and other pixels keep their bytes; out of range nothing changes |
| IS31FL3218.Driver.Update | Firmware/UnitTest/IS31FL3218.cpp:147-150 | the status of the update write is returned |
| IS31FL3218.Driver.ResetDevice | Firmware/UnitTest/IS31FL3218.cpp:153-157 | the shadow registers are cleared, every LED reads as disabled, the device is disabled, and the reset write's status is returned |
| IS31FL3218.Driver.GetLEDPWM | Firmware/UnitTest/IS31FL3218.cpp:166-174 | the stored value in range, STATUS_OUT_OF_BOUNDS (1) for an LED of 18 or more |
| IS31FL3218.Driver.GetLEDState | Firmware/UnitTest/IS31FL3218.cpp:177-187 | the LED's recorded state in range, DISABLE otherwise |
| IS31FL3218.Driver.GetAllPWM | Firmware/UnitTest/IS31FL3218.cpp:190-193 | 18 values, each what GetLEDPWM reports for that LED |
| IS31FL3218.Driver.GetAllState | Firmware/UnitTest/IS31FL3218.cpp:196-204 | 18 states, each what GetLEDState reports for that LED |
| IS31FL3218.Driver.GetRGBPWMArray | Firmware/UnitTest/IS31FL3218.cpp:207-213 | in range the pixel's three PWM values; out of range the caller's array unchanged |
| IS31FL3218.Driver.GetRGBPWM | Firmware/UnitTest/IS31FL3218.cpp:216-221 | a value below 2^24, and 0 for a pixel out of range |
| IS31FL3218.OutOfRangeReadIsAmbiguous | Firmware/UnitTest/IS31FL3218.cpp:166-174 | for every LED index past the last and every LED in range that stores 1, GetLEDPWM returns STATUS_OUT_OF_BOUNDS (1) for both, so callers cannot tell the error apart from the stored value |
| LedController.Reordered | Firmware/Preload/LEDController.cpp:69-74 | Update's reorder under revision A: the pixels in the order 0, 2, 4, 1, 3, 5 |
| LedController.ScaledCopy | Firmware/Preload/LEDController.cpp:59-65 | Update's scaled copy: byte i multiplied by factor i mod 3 |
| LedController.SwapIsPermutation | Firmware/Preload/LEDController.cpp:52 | the revision A wiring table is a permutation of 0..17, with an explicit inverse |
| LedController.ReorderedFollowsSwap | Firmware/Preload/LEDController.cpp:71-74 | scaled byte i lands on driver channel `swap[i]`, and driver channel j shows scaled byte `unswap[j]` |
| LedController.ReorderedIsPermutation | Firmware/Preload/LEDController.cpp:69-74 | reordering only moves bytes: the same bytes, each as often |
| LedController.Led.constructor | Firmware/Preload/LEDController.cpp:31-35 | no buffer is assigned and the scale factors are the three arguments |
| LedController.Led.Initialize | Firmware/Preload/LEDController.cpp:37-40 | the driver is enabled with every channel enabled at PWM 0 |
| LedController.Led.AssignLEDs | Firmware/Preload/LEDController.cpp:43-46 | the controller refers to the given buffer |
| LedController.Led.SetColor | Firmware/Preload/LEDController.cpp:87-95 | every byte of the buffer is the colour's channel for its position (red, green, blue in turn) |
| LedController.Led.SetColorHsv | Firmware/Preload/LEDController.cpp:98-103 | every pixel shows the spectrum conversion of the HSV colour |
| LedController.Led.SetPixelColor | Firmware/Preload/LEDController.cpp:106-114 | a pixel below 6 shows the colour; every other byte and every other pixel is unchanged, so an out-of-range pixel changes nothing |
| LedController.Led.SetPixelColorHsv | Firmware/Preload/LEDController.cpp:117-122 | as SetPixelColor, with the spectrum conversion of the HSV colour |
| LedController.Led.SetScale | Firmware/Preload/LEDController.cpp:125-130 | the factors become red, green, blue in that order |
| LedController.Led.ScaledBuffer | Firmware/Preload/LEDController.cpp:59-65 | a fresh copy of the LED buffer with byte i scaled by factor i mod 3 |
| LedController.Led.Update | Firmware/Preload/LEDController.cpp:49-84 | without a buffer it returns 0xFF and leaves the driver alone; otherwise the driver's PWM registers get the scaled copy, reordered under revision A, the LED buffer is unchanged and the update write's status is returned |
| LedController.ReorderBuffer | Firmware/Preload/LEDController.cpp:69-74 | the loop's fresh array is the reordered buffer |
| EffectSpec.CycleCount | Firmware/PhotoniClock/LEDEffect.cpp:551-558 | a new minute advances the uint8_t effect counter |
| EffectSpec.TetrisPixel | Firmware/PhotoniClock/LEDEffect.cpp:528-542 | a pixel's colour: full value when occupied, value 0 when empty |
| EffectSpec.CarriedHue | Firmware/PhotoniClock/LEDEffect.cpp:528-542 | the hue a pixel is drawn with: its own when occupied, else the last one drawn |
| EffectSpec.TetrisStep | Firmware/PhotoniClock/LEDEffect.cpp:461-525 | one gated Tetris step: the phase's action and the next phase |
| EffectSpec.Drained | Firmware/PhotoniClock/LEDEffect.cpp:501-522 | the Shift-Out loop: the lowest block moves down one, or leaves from cell 0 |
| EffectSpec.SlideFrom | Firmware/PhotoniClock/LEDEffect.cpp:476-500 | the Shift-In loop: an empty cell below a block takes it, with a flag for any move |
| EffectSpec.Generated | Firmware/PhotoniClock/LEDEffect.cpp:464-475 | Generate: a full top cell starts the drain, otherwise a new block enters at the top |
| EffectSpec.DigitHue | Firmware/PhotoniClock/LEDEffect.cpp:426-439 | a pixel pair's hue: 10 × hour, 4 × minute or 4 × second, as a uint8_t |
| EffectSpec.DecayedTimes | Firmware/PhotoniClock/LEDEffect.cpp:414 | the caps after n calls |
| EffectSpec.Decayed | Firmware/PhotoniClock/LEDEffect.cpp:414 | each cap loses the decay of 2, stopping at 0 |
| EffectSpec.Spread | Firmware/PhotoniClock/LEDEffect.cpp:396-415 | the three spread loops of DigitDrops written once |
| EffectSpec.SpreadAt | Firmware/PhotoniClock/LEDEffect.cpp:396-415 | byte k of the spread: itself plus its neighbours' spills, capped by its channel's cap |
| EffectSpec.Spill | Firmware/PhotoniClock/LEDEffect.cpp:398-413 | what a channel passes to each neighbour, the byte shifted right by 5 |
| EffectSpec.Dropped | Firmware/PhotoniClock/LEDEffect.cpp:380-389 | a new second's drop: one byte of channel `second % 3` and that channel's cap at 255 |
| EffectSpec.GhostAges | Firmware/PhotoniClock/LEDEffect.cpp:351 | the orb's age after n calls, growing by 2 as a uint8_t |
| EffectSpec.GhostDimmed | Firmware/PhotoniClock/LEDEffect.cpp:366-370 | `led[pixel + OVERSCAN]--` on each visible cell, stopping at 0 |
| EffectSpec.GhostColors | Firmware/PhotoniClock/LEDEffect.cpp:366-370 | the visible pixels of the canvas, cells 1 to 6 |
| EffectSpec.Glowed | Firmware/PhotoniClock/LEDEffect.cpp:353-363 | the orb loop: each glowing cell gains 2 in the orb's channel, saturating |
| EffectSpec.GhostCell | Firmware/PhotoniClock/LEDEffect.cpp:353-363 | the canvas cell the orb loop writes for an offset, `position + offset - WIDTH` |
| EffectSpec.GhostFade | Firmware/PhotoniClock/LEDEffect.cpp:353-363 | the brightness threshold of orb offset 0..4 |
| EffectSpec.FadeTicks | Firmware/PhotoniClock/LEDEffect.cpp:297-309 | Fade's counter and phase after n calls |
| EffectSpec.FadeTick | Firmware/PhotoniClock/LEDEffect.cpp:297-309 | Fade's counter and phase after one call |
| EffectSpec.FadeWords | Firmware/PhotoniClock/LEDEffect.cpp:287-292 | an accumulator after n transition calls |
| EffectSpec.FadeColor | Firmware/PhotoniClock/LEDEffect.cpp:287-295 | the colour a transition shows, each accumulator / 100 |
| EffectSpec.FadeLevel | Firmware/PhotoniClock/LEDEffect.cpp:292 | `array16 / 100` stored in a uint8_t |
| EffectSpec.FadeAccumulate | Firmware/PhotoniClock/LEDEffect.cpp:291 | `array16 += (int8_t)offset`, modulo 65536 |
| EffectSpec.Signed8 | Firmware/PhotoniClock/LEDEffect.cpp:291 | the int8_t a stored uint8_t reads back as |
| EffectSpec.TruncHalf | Firmware/PhotoniClock/LEDEffect.cpp:277 | C's `/ 2` on an int, rounding toward zero |
| EffectSpec.Word | Firmware/PhotoniClock/LEDEffect.cpp:278-291 | g_array's uint16_t view: bytes 2i and 2i+1, little-endian |
| EffectSpec.FireHeat | Firmware/PhotoniClock/LEDEffect.cpp:168-185 | the new heat of one Fire call: cooled, diffused, sparked |
| EffectSpec.Sparked | Firmware/PhotoniClock/LEDEffect.cpp:180-185 | step 3: a roll under 100 adds a spark to one of cells 0..3 with qadd8 |
| EffectSpec.Diffused | Firmware/PhotoniClock/LEDEffect.cpp:174-178 | step 2: cells 5 down to 2 take (below + 2 × two below) / 3 |
| EffectSpec.Cooled | Firmware/PhotoniClock/LEDEffect.cpp:168-172 | step 1: each cell loses its cooling draw with qsub8 |
| EffectSpec.FirePalette | Firmware/PhotoniClock/LEDEffect.cpp:154-166 | the palette Fire maps heat through: black, the hue, the hue + 25, the hue at saturation 200 |
| EffectSpec.Faded | Firmware/PhotoniClock/LEDEffect.cpp:237-243 | every cell dimmed by the variant's fade with qsub8 |
| EffectSpec.Relit | Firmware/PhotoniClock/LEDEffect.cpp:231-234 | the canvas with the ball's cell, when on screen, back at 255 |
| EffectSpec.PongMoves | Firmware/PhotoniClock/LEDEffect.cpp:205-228 | n ball moves in a row |
| EffectSpec.PongAt | Firmware/PhotoniClock/LEDEffect.cpp:205-228 | the ball state at a place of the trip |
| EffectSpec.PongPhase | Firmware/PhotoniClock/LEDEffect.cpp:205-228 | the place of a ball state in its 18-move trip |
| EffectSpec.PongFade | Firmware/PhotoniClock/LEDEffect.cpp:198 | Pong's fade per call, 12 for 1982 and 5 for Pong |
| EffectSpec.PongLimit | Firmware/PhotoniClock/LEDEffect.cpp:202 | Pong's delay limit, 3 for 1982 and 8 for Pong |
| EffectSpec.Gates | Firmware/PhotoniClock/LEDEffect.cpp:202-204 | n gate calls in a row |
| EffectSpec.Gate | Firmware/PhotoniClock/LEDEffect.cpp:202-204 | `g_value++ > limit`: the counter and whether the gate opens |
| EffectSpec.ShiftHue | Firmware/PhotoniClock/LEDEffect.cpp:327-332 | CShift's pixel hue, the shared hue plus 16 per pixel as a uint8_t |
| EffectSpec.RainbowSteps | Firmware/PhotoniClock/LEDEffect.cpp:315-320 | n Rainbow calls: the uint8_t hue advances by one per call |
| EffectSpec.PulseAt | Firmware/PhotoniClock/LEDEffect.cpp:137-145 | the Pulse state at a position of the triangle wave |
| EffectSpec.PulsePhase | Firmware/PhotoniClock/LEDEffect.cpp:137-145 | the position of a Pulse state in its 510-call triangle wave |
| EffectSpec.PulseSteps | Firmware/PhotoniClock/LEDEffect.cpp:137-145 | n Pulse calls in a row |
| EffectSpec.StepByte | Firmware/PhotoniClock/LEDEffect.cpp:139 | `b += (uint8_t)addend` for an addend of +1 or -1, wrapping at the ends |
| EffectSpec.MenuTicks | Firmware/PhotoniClock/LEDEffect.cpp:71-78 | n menu ticks in a row |
| EffectSpec.MenuTick | Firmware/PhotoniClock/LEDEffect.cpp:71-78 | one menu tick: the counter advances, and the call that finds it above 59 advances the uint8_t second and clears it |
| EffectSpec.UsesLedHue | Firmware/PhotoniClock/LEDEffect.cpp:93-97 | 1982 follows the configured hue, Pong rotates the shared hue |
| EffectSpec.Selected | Firmware/PhotoniClock/LEDEffect.cpp:81-126 | an identifier below 14 selects the effect with that value; any larger one falls to the default, Static |
| EffectSpec.MenuTickTwice | Firmware/PhotoniClock/LEDEffect.cpp:69-79 | a second pass through the menu clock starts from the counter and second the first pass left |
| EffectSpec.MenuCounts | Firmware/PhotoniClock/LEDEffect.cpp:71-78 | from a cleared counter the first 60 calls only count and leave the second alone |
| EffectSpec.MenuSecondEvery61Calls | Firmware/PhotoniClock/LEDEffect.cpp:71-78 | the 61st call advances the second by one (wrapping as a uint8_t) and clears the counter; no earlier call changes the second |
| EffectSpec.StepByteWraps | Firmware/PhotoniClock/LEDEffect.cpp:139 | adding `(uint8_t)g_addend` to a byte is one step up or down, wrapping at the ends |
| EffectSpec.PulseStep | Firmware/PhotoniClock/LEDEffect.cpp:137-145 | the direction stays +1 or -1 and the brightness left for display is never 0 |
| EffectSpec.PulseFlipsOnlyAtWrap | Firmware/PhotoniClock/LEDEffect.cpp:139-145 | the direction reverses exactly on the call whose add wraps the value to 0; otherwise the call is a single step |
| EffectSpec.PulsePhaseBijective | Firmware/PhotoniClock/LEDEffect.cpp:137-145 | positions and Pulse states correspond one to one |
| EffectSpec.PulseAdvances | Firmware/PhotoniClock/LEDEffect.cpp:137-145 | each call moves one position along the wave, modulo 510 |
| EffectSpec.PulsePhaseAfter | Firmware/PhotoniClock/LEDEffect.cpp:137-145 | after n calls the brightness is non-zero and the position has moved by n modulo 510 |
| EffectSpec.PulsePeriod | Firmware/PhotoniClock/LEDEffect.cpp:137-148 | Pulse returns to a state exactly when the number of calls is a multiple of 510 |
| EffectSpec.RainbowAfter | Firmware/PhotoniClock/LEDEffect.cpp:315-320 | after n calls the hue has moved by n modulo 256, so it is back after 256 calls |
| EffectSpec.ShiftHuesDistinct | Firmware/PhotoniClock/LEDEffect.cpp:327-332 | the six CShift pixels show six different hues, each 16 above the one before |
| EffectSpec.GateCounts | Firmware/PhotoniClock/LEDEffect.cpp:202-204 | from a cleared counter the first limit + 1 calls only count |
| EffectSpec.GateOpensAfter | Firmware/PhotoniClock/LEDEffect.cpp:202-204 | from a cleared counter the gate opens on call limit + 2 and on no earlier call, clearing the counter |
| EffectSpec.PongMove | Firmware/PhotoniClock/LEDEffect.cpp:205-228 | a move keeps the position at most 9 and the direction +1 or -1, and keeps a ball that is in play in play |
| EffectSpec.PongLit | Firmware/PhotoniClock/LEDEffect.cpp:231-234 | a ball at positions 2 to 7 relights a cell of the canvas |
| EffectSpec.PongPhaseBijective | Firmware/PhotoniClock/LEDEffect.cpp:205-228 | places and balls in play correspond one to one |
| EffectSpec.PongAdvances | Firmware/PhotoniClock/LEDEffect.cpp:205-228 | each move advances the ball one place along its 18-move round trip |
| EffectSpec.PongPhaseAfter | Firmware/PhotoniClock/LEDEffect.cpp:205-228 | after n moves the ball is in play and n places further on, modulo 18 |
| EffectSpec.PongPeriod | Firmware/PhotoniClock/LEDEffect.cpp:205-228 | a ball in play is back where it was exactly when the number of moves is a multiple of 18 |
| EffectSpec.DiffusionAverages | Firmware/PhotoniClock/LEDEffect.cpp:175-178 | each diffused cell ends between the two cells below it that feed it |
| EffectSpec.FireTopIsFedFromBelow | Firmware/PhotoniClock/LEDEffect.cpp:168-185 | after a call each of the two top cells is no hotter than the hotter of the two cells below it were |
| EffectSpec.FireCoolsWithoutSpark | Firmware/PhotoniClock/LEDEffect.cpp:168-185 | without a spark a call never raises any cell above the previous hottest |
| EffectSpec.FadeOffset | Firmware/PhotoniClock/LEDEffect.cpp:277 | the stored offset reads back as a signed byte equal to the channel difference halved toward zero |
| EffectSpec.FadeWordsClosedForm | Firmware/PhotoniClock/LEDEffect.cpp:277-291 | for up to 200 calls the accumulator is the start plus n times the halved difference, with no wrap-around |
| EffectSpec.FadeStep | Firmware/PhotoniClock/LEDEffect.cpp:291 | each transition call adds the signed offset modulo 65536 |
| EffectSpec.FadeStaysBetween | Firmware/PhotoniClock/LEDEffect.cpp:285-295 | during the transition every channel shows a level between its start and its target |
| EffectSpec.FadeArrives | Firmware/PhotoniClock/LEDEffect.cpp:263-304 | after 200 transition calls a channel shows its target when the difference is even, and one short of it toward the start when it is odd |
| EffectSpec.FadeTicksCount | Firmware/PhotoniClock/LEDEffect.cpp:297-309 | in Transition or Wait the counter counts calls while it is below 200 |
| EffectSpec.FadePhasesLast200Calls | Firmware/PhotoniClock/LEDEffect.cpp:297-309 | entered with a cleared counter, Transition hands over to Wait and Wait to Generate after exactly 200 calls, and neither changes phase earlier |
| EffectSpec.OverscanNeverDecays | Firmware/PhotoniClock/LEDEffect.cpp:366-370 | dimming takes 1 (stopping at 0) from the six visible cells only; the two hidden cells keep their value |
| EffectSpec.GhostCellsInRange | Firmware/PhotoniClock/LEDEffect.cpp:345-361 | every cell an orb spawned at WIDTH + random8(4) writes lies on the 8-cell canvas |
| EffectSpec.GlowIsLocal | Firmware/PhotoniClock/LEDEffect.cpp:353-363 | only the orb's channel in the five cells around its centre changes, each by at most 2, and the centre brightens at every age below 240 |
| EffectSpec.GhostAgesClosedForm | Firmware/PhotoniClock/LEDEffect.cpp:351 | after n calls the age has grown by 2n modulo 256 |
| EffectSpec.GhostRespawnsEvery128Calls | Firmware/PhotoniClock/LEDEffect.cpp:345-351 | after a spawn the next spawn comes on the 128th call and not before |
| EffectSpec.GhostStartWritesOutside | Firmware/PhotoniClock/LEDEffect.cpp:342-361 | with the orb centre still at its initial 0, entering with an age from 39 to 197 skips the spawn and writes canvas cell -1 |
| EffectSpec.SpreadWithinCap | Firmware/PhotoniClock/LEDEffect.cpp:396-415 | no byte of the spread exceeds its channel's cap, and none becomes dimmer than the smaller of its old value and the cap |
| EffectSpec.DecayedTimesClosedForm | Firmware/PhotoniClock/LEDEffect.cpp:414 | after n calls a cap has lost 2n, stopping at 0 |
| EffectSpec.DropsGoDark | Firmware/PhotoniClock/LEDEffect.cpp:396-418 | after 128 calls without a new second every cap is 0 and every spread byte is 0 |
| EffectSpec.DigitHueMonotone | Firmware/PhotoniClock/LEDEffect.cpp:426-439 | for a valid time no hue wraps, so a later hour, minute or second gives its pair of pixels a larger hue |
| EffectSpec.GenerateFillsTop | Firmware/PhotoniClock/LEDEffect.cpp:464-475 | with the top cell empty, a block with a hue from 1 to 254 enters there, nothing else changes and Shift-In follows; with it full, nothing changes and Shift-Out follows |
| EffectSpec.TetrisMovesEveryNinthCall | Firmware/PhotoniClock/LEDEffect.cpp:456-459 | `++g_value > 8` is the same gate as Pong's with limit 7: from a cleared counter Tetris moves on the ninth call and not before |
| EffectSpec.FirstOccupied | Firmware/PhotoniClock/LEDEffect.cpp:505-519 | the cell the shift-out loop stops at: occupied, with every cell before it empty, or 6 when there is none |
| EffectSpec.HeightUpdate | Firmware/PhotoniClock/LEDEffect.cpp:490-491 | changing one cell changes the height by that cell's own contribution only |
| EffectSpec.HeightOfMove | Firmware/PhotoniClock/LEDEffect.cpp:484-492 | one slide of a block into the empty cell below lowers the height by one |
| EffectSpec.SwapKeeps | Firmware/PhotoniClock/LEDEffect.cpp:490-491 | a slide exchanges two neighbouring cells, so the cells are the same multiset |
| EffectSpec.SlideKeepsBlocks | Firmware/PhotoniClock/LEDEffect.cpp:476-500 | a Shift-In pass keeps the same blocks, each as often |
| EffectSpec.SlideStepWithinOnePlace | Firmware/PhotoniClock/LEDEffect.cpp:484-492 | one slide keeps every cell empty, as it was, or holding its upper neighbour's block |
| EffectSpec.SlideMovesAtMostOnePlace | Firmware/PhotoniClock/LEDEffect.cpp:476-500 | a Shift-In pass moves each block at most one place toward cell 0: every cell ends empty, as it was, or holding the block that was just above it |
| EffectSpec.SlideMovesUnlessSettled | Firmware/PhotoniClock/LEDEffect.cpp:476-497 | a pass reports no shift exactly when no empty cell lies below an occupied one, and then changes nothing |
| EffectSpec.SlideLowers | Firmware/PhotoniClock/LEDEffect.cpp:476-497 | a pass that shifts lowers the height, so Shift-In returns to Generate after finitely many passes |
| EffectSpec.DrainLowers | Firmware/PhotoniClock/LEDEffect.cpp:501-522 | Shift-Out reports a shift exactly when a block is left, then lowers the height by exactly one; on an empty board it changes nothing |
| EffectSpec.CycleChoice | Firmware/PhotoniClock/LEDEffect.cpp:560-562 | the chosen effect is never Static, Cycle or Disable |
| EffectSpec.CycleOrder | Firmware/PhotoniClock/LEDEffect.cpp:551-562 | each effect between Static and Cycle is chosen, in menu order from one counter value to the next, except that when the counter wraps from 255 to 0 1982 is followed by Pulse |
| LedEffect.Rtc.constructor | Firmware/PhotoniClock/LEDEffect.cpp:76 | the clock holds the given hour, minute and second |
| LedEffect.Engine.TetrisColors | Firmware/PhotoniClock/LEDEffect.cpp:528-542 | the six colours Tetris sets from the cells |
| LedEffect.Engine.PongColors | Firmware/PhotoniClock/LEDEffect.cpp:237-243 | the six colours Pong sets from the canvas |
| LedEffect.Engine.FireColors | Firmware/PhotoniClock/LEDEffect.cpp:187-192 | the six colours Fire maps from the heat through the palette |
| LedEffect.Engine.DigitColors | Firmware/PhotoniClock/LEDEffect.cpp:422-444 | the six colours Digit sets from the clock |
| LedEffect.Engine.ShiftColors | Firmware/PhotoniClock/LEDEffect.cpp:327-332 | the six colours CShift sets |
| LedEffect.Engine.constructor | Firmware/PhotoniClock/LEDEffect.cpp:58-63 | the statics start as the firmware initialises them (addend 1, hue and value 0, Fade and Tetris in Generate, buffers cleared), except the orb centre, which starts at WIDTH |
| LedEffect.Engine.ShowPixels | Firmware/PhotoniClock/LEDEffect.cpp:188-192 | the LED buffer shows the six colours in pixel order |
| LedEffect.Engine.Static | Firmware/PhotoniClock/LEDEffect.cpp:130-134 | every pixel shows the configured hue at full saturation and value, and only the LED buffer changes |
| LedEffect.Engine.Pulse | Firmware/PhotoniClock/LEDEffect.cpp:137-149 | value and direction take one Pulse step and every pixel shows the configured hue at the new brightness |
| LedEffect.Engine.Rainbow | Firmware/PhotoniClock/LEDEffect.cpp:315-320 | the shared hue advances by one and every pixel shows it |
| LedEffect.Engine.CShift | Firmware/PhotoniClock/LEDEffect.cpp:323-333 | the shared hue advances by one and pixel p shows it plus 16 p |
| LedEffect.Engine.Digit | Firmware/PhotoniClock/LEDEffect.cpp:422-444 | the pixel pairs show the hour, minute and second hues and nothing else changes |
| LedEffect.Engine.Disable | Firmware/PhotoniClock/LEDEffect.cpp:566-571 | every pixel shows hsv(0, 0, 0) and nothing else changes |
| LedEffect.Engine.Fire | Firmware/PhotoniClock/LEDEffect.cpp:152-193 | the heat becomes the cooled, diffused, maybe sparked heat and each pixel shows its cell through the palette |
| LedEffect.Engine.MoveBall | Firmware/PhotoniClock/LEDEffect.cpp:204-234 | the counter clears, the ball takes one move, the hue follows the variant and the ball's cell is relit; nothing else changes |
| LedEffect.Engine.Pong | Firmware/PhotoniClock/LEDEffect.cpp:196-246 | when the gate opens the ball moves and relights its cell; every call shows the canvas in the current hue and then dims it |
| LedEffect.Engine.Fade | Firmware/PhotoniClock/LEDEffect.cpp:249-312 | one call of the phase the engine is in, with the result its phase method states |
| LedEffect.Engine.FadeStart | Firmware/PhotoniClock/LEDEffect.cpp:263-284 | the new hue is drawn, each offset is half the channel difference, each accumulator is 100 times the old channel, and Transition follows |
| LedEffect.Engine.FadeGlide | Firmware/PhotoniClock/LEDEffect.cpp:285-304 | each accumulator moves by its signed offset, the strip shows accumulator / 100, and the phase moves on after 200 calls |
| LedEffect.Engine.FadeHold | Firmware/PhotoniClock/LEDEffect.cpp:305-310 | only the counter and, after 200 calls, the phase change |
| LedEffect.Engine.Ghost | Firmware/PhotoniClock/LEDEffect.cpp:336-371 | a spawn when the age is below 2, the age grows by 2, the orb glows, the visible cells are shown and then dimmed |
| LedEffect.Engine.Drops | Firmware/PhotoniClock/LEDEffect.cpp:374-419 | on a new second a drop lands; every call spreads the light under the caps and decays the caps |
| LedEffect.Engine.NewSecond | Firmware/PhotoniClock/LEDEffect.cpp:381-389 | the second is remembered, one byte of channel `second % 3` and that channel's cap become 255 |
| LedEffect.Engine.Tetris | Firmware/PhotoniClock/LEDEffect.cpp:447-546 | eight calls in nine only count; the ninth takes one step of the current phase and redraws the blocks |
| LedEffect.Engine.TetrisMove | Firmware/PhotoniClock/LEDEffect.cpp:461-526 | the canvas and phase take one Tetris step and nothing else changes |
| LedEffect.Engine.ShowBlocks | Firmware/PhotoniClock/LEDEffect.cpp:528-544 | the LED buffer shows occupied cells at full value in their hue and empty cells at value 0 |
| LedEffect.Engine.Process | Firmware/PhotoniClock/LEDEffect.cpp:66-127 | the menu clock ticks once (twice under Cycle) when the menu is open, and the selected handler runs, with Static for an unknown identifier |
| LedEffect.Engine.TickMenu | Firmware/PhotoniClock/LEDEffect.cpp:69-79 | one tick of the menu clock when the menu is open; nothing else changes |
| LedEffect.Engine.Dispatch | Firmware/PhotoniClock/LEDEffect.cpp:81-126 | each identifier but Cycle runs its own handler, with the outcome that handler states |
| LedEffect.Engine.Cycle | Firmware/PhotoniClock/LEDEffect.cpp:549-563 | a new minute advances the counter, and the chosen effect runs through LEDProcess |
| LedEffect.CoolCells | Firmware/PhotoniClock/LEDEffect.cpp:168-172 | every cell loses its cooling draw, stopping at 0 |
| LedEffect.DiffuseCells | Firmware/PhotoniClock/LEDEffect.cpp:174-178 | the downward loop computes each cell from the cells below it as they were before the loop |
| LedEffect.DimCells | Firmware/PhotoniClock/LEDEffect.cpp:244 | every cell loses the fade, stopping at 0 |
| LedEffect.SetWord | Firmware/PhotoniClock/LEDEffect.cpp:278 | the chosen uint16_t reads back as the value and the other two are unchanged |
| LedEffect.GlowOrb | Firmware/PhotoniClock/LEDEffect.cpp:353-363 | the loop's result is the orb glow over its five offsets |
| LedEffect.DimVisible | Firmware/PhotoniClock/LEDEffect.cpp:366-370 | the loop's result is the dimmed canvas |
| LedEffect.SpreadDrops | Firmware/PhotoniClock/LEDEffect.cpp:391-418 | the LED buffer becomes the spread and the caps decay |
| LedEffect.SpreadFirst | Firmware/PhotoniClock/LEDEffect.cpp:396-399 | the three bytes of pixel 0 are their spread |
| LedEffect.SpreadMiddle | Firmware/PhotoniClock/LEDEffect.cpp:402-408 | the bytes of pixels 1 to 4 are their spread, keeping pixel 0's |
| LedEffect.SpreadLast | Firmware/PhotoniClock/LEDEffect.cpp:411-415 | with pixel 5 done the whole buffer is the spread, and each cap has decayed |
| LedEffect.CopyInto | Firmware/PhotoniClock/LEDEffect.cpp:418 | the destination holds the source's bytes |
| LedEffect.ShiftIn | Firmware/PhotoniClock/LEDEffect.cpp:476-497 | the loop's canvas and flag are the Shift-In pass's |
| LedEffect.ShiftOut | Firmware/PhotoniClock/LEDEffect.cpp:501-522 | the loop's canvas and flag are the Shift-Out step's |
| Music.Located | Firmware/PhotoniClock/Music.cpp:164-166 | a stream's start and length are the word and span of the entry found |
| Music.FoundEntry | Firmware/PhotoniClock/Music.cpp:141-167 | the entry GetMusicEEPROM's loop stops on for a song and channel, if it does |
| Music.Lookup | Firmware/PhotoniClock/Music.cpp:142-167 | the entry the lookup loop stops on: the first nonzero span before any failed read, within 256 entries |
| Music.Span | Firmware/PhotoniClock/Music.cpp:164-166 | `length = end - start` of an entry and the next, truncated to uint16_t |
| Music.FirstEntry | Firmware/PhotoniClock/Music.cpp:148 | the entry a lookup of channel c of song i reads first, 2i + c |
| Music.EntryAddress | Firmware/PhotoniClock/Music.cpp:148 | the address of offset-table entry k: two bytes per entry after the two-byte song count |
| Music.LowBytes | Firmware/PhotoniClock/Music.cpp:157-161 | the decode loop's word after n rounds |
| Music.Shifted | Firmware/PhotoniClock/Music.cpp:159-160 | `offset[i] << (8 * i)`, widened |
| Music.WordAsWritten | Firmware/PhotoniClock/Music.cpp:159-160 | the decode as written on a 16-bit int: a high byte of 0x80 or more is sign-extended into the uint32_t |
| Music.Returned | Firmware/PhotoniClock/Music.cpp:69-126 | the value I2CStream returns for each outcome |
| Music.Peek | Firmware/PhotoniClock/Music.cpp:118-120 | the byte at an index of a stream buffer |
| Music.Sub16 | Firmware/PhotoniClock/Music.cpp:165 | uint16_t subtraction, wrapping at 2^16 |
| Music.Add16 | Firmware/PhotoniClock/Music.cpp:72-79 | uint16_t addition, wrapping at 2^16 |
| Music.DisjointThree | Firmware/PhotoniClock/Music.cpp:38-39 | three 32-byte buffers are pairwise disjoint exactly when no two of them share a byte |
| Music.Rotate | Firmware/PhotoniClock/Music.cpp:88-91 | the rotated pointers lie inside the channel arrays exactly when the old ones do |
| Music.RotatePermutes | Firmware/PhotoniClock/Music.cpp:88-91 | rotation only permutes the three buffers, so they stay pairwise disjoint |
| Music.RotateThrice | Firmware/PhotoniClock/Music.cpp:88-91 | three rotations bring every pointer back |
| Music.Thirds | Firmware/PhotoniClock/Music.cpp:195-196 | the reset pointers lie inside the channel arrays |
| Music.ThirdsLayout | Firmware/PhotoniClock/Music.cpp:195-196 | a channel's three reset buffers are disjoint and all lie in that channel's own array |
| Music.InitialRing | Firmware/PhotoniClock/Music.cpp:38-39 | each initial stream has three disjoint buffers inside the arrays, with prev and data in its own channel |
| Music.InitialRingsShareNext | Firmware/PhotoniClock/Music.cpp:38-39 | as written, both streams' next pointer is the same buffer of music_channel_A, so the six buffers are not disjoint |
| Music.ResetRingsDisjoint | Firmware/PhotoniClock/Music.cpp:194-196 | after PlayMusic's reset the six buffers of the two streams are pairwise disjoint |
| Music.WrapsModWord | Firmware/PhotoniClock/Music.cpp:72-79 | uint16_t addition and subtraction are modulo 2^16 |
| Music.BoundaryStep | Firmware/PhotoniClock/Music.cpp:79-92 | moving pos on by one buffer keeps it a multiple of 32 |
| Music.ReadSize | Firmware/PhotoniClock/Music.cpp:100-104 | the read size is at most 32; it is the remaining length, capped at 32, while the offset is within the song, and 32 when the offset is one past its end |
| Music.StreamStep | Firmware/PhotoniClock/Music.cpp:69-126 | one call keeps the stream's fields in range, its buffers inside the arrays and pos at a buffer boundary |
| Music.StreamStepCases | Firmware/PhotoniClock/Music.cpp:69-126 | the song ends exactly when offset > length + 1; the device resets exactly at a boundary whose buffer is not loaded; at a boundary the buffers rotate; a read of the next buffer is issued exactly when one is due, and is retried after a failure; the byte returned comes from data, or from prev for an offset before pos |
| Music.StreamReadsCurrentBuffer | Firmware/PhotoniClock/Music.cpp:118-120 | within the current buffer the byte returned is byte `offset - pos` of data |
| Music.StreamMovesToNextBuffer | Firmware/PhotoniClock/Music.cpp:79-95 | at the first offset past the current buffer the stream plays the buffer that was loaded, from its first byte, and reloads the old prev |
| Music.Stream.constructor | Firmware/PhotoniClock/Music.cpp:38-39 | the aggregate initialiser: the given pointers, start, length and pos 0, a load due and no buffer valid |
| Music.Stream.Reset | Firmware/PhotoniClock/Music.cpp:195-196 | the stream is replaced by a fresh aggregate with the given pointers |
| Music.Stream.Completed | Firmware/PhotoniClock/Music.cpp:41-67 | error 0 marks the loaded buffer valid and changes nothing else; any other error resets the device |
| Music.Advance | Firmware/PhotoniClock/Music.cpp:85-95 | the buffers rotate, pos becomes the offset, the buffer is invalid and a load is due |
| Music.I2CStream | Firmware/PhotoniClock/Music.cpp:69-126 | the stream's new state, the read it issues and the value returned are those of one stream step |
| Music.Word | Firmware/PhotoniClock/Music.cpp:157-161 | two bytes make a value below 2^16 |
| Music.WordBytes | Firmware/PhotoniClock/Music.cpp:157-161 | the low and the high byte come back out of the word |
| Music.WordOfLE16 | Utilities/notes2eeprom.py:173-174 | a table entry as written by the host tool reads back as its offset modulo 2^16 |
| Music.WordAsWrittenIff | Firmware/PhotoniClock/Music.cpp:159-160 | the as-written decoding agrees with the word exactly when the high byte is below 0x80, and is 0xFFFF0000 larger otherwise |
| Music.WordAsWrittenCounterexample | Firmware/PhotoniClock/Music.cpp:159-160 | the offset 0x8000, stored as 00 80, decodes as written to 0xFFFF8000 |
| Music.WordAt | Firmware/PhotoniClock/Music.cpp:157-161 | the word at an address is below 2^16 |
| Music.LookupFound | Firmware/PhotoniClock/Music.cpp:142-167 | an entry found lies in the range searched, was read without error and has a nonzero span |
| Music.LookupIsFirst | Firmware/PhotoniClock/Music.cpp:142-167 | every entry before the one found was read without error and has a zero span |
| Music.LookupNoneIsEmpty | Firmware/PhotoniClock/Music.cpp:142-167 | when nothing is found every entry up to the first failed read has a zero span |
| Music.LowBytesWord | Firmware/PhotoniClock/Music.cpp:157-161 | two rounds of the decode loop make the little-endian word |
| Music.DecodeOffsets | Firmware/PhotoniClock/Music.cpp:157-161 | the decode loop yields the words at the entry and at the entry after it |
| Music.ReadEntry | Firmware/PhotoniClock/Music.cpp:144-166 | the status is the read's; on success start and length are the entry's word and span, on failure both are 0 |
| Music.LookupSkipsClear | Firmware/PhotoniClock/Music.cpp:142-167 | a search passes over entries that were read cleanly and have a zero span |
| Music.TableSlot | Utilities/notes2eeprom.py:159-174 | bytes 2k+2 and 2k+3 of the table are the little-endian low bytes of the k-th channel offset |
| Music.TableEndSlot | Utilities/notes2eeprom.py:194-199 | the two bytes after the last channel entry are the little-endian low bytes of the end offset |
| Music.EntryWord | Firmware/PhotoniClock/Music.cpp:148-161 | on an EEPROM holding the table, the word the lookup decodes at entry k is the offset stored there modulo 2^16 |
| Music.EntrySpan | Firmware/PhotoniClock/Music.cpp:164-166 | on an EEPROM holding the table, the span of entry k is the difference of the stored offsets k+1 and k modulo 2^16 |
| Music.FirstEntryOfSong | Utilities/notes2eeprom.py:145-174 | entry 2i holds song i's start offset and spans Channel_A, or spans nothing when Channel_B is missing |
| Music.SecondEntryOfSong | Utilities/notes2eeprom.py:145-174 | entry 2i+1 holds Channel_B's start and spans Channel_B or, when Channel_B is missing, holds Channel_A's start and spans Channel_A |
| Music.PairLookup | Firmware/PhotoniClock/Music.cpp:142-167 | channel 0 stops at entry 2i when its span is nonzero and otherwise at entry 2i+1 when that span is nonzero; channel 1 stops at entry 2i+1 when its span is nonzero |
| Music.SongLookup | Firmware/PhotoniClock/Music.cpp:142-167 | on entries spanning a song's channel lengths, channel 1 finds Channel_B's entry; channel 0 finds Channel_A's entry, or skips on to entry 2i+1 when Channel_A is empty or Channel_B is missing |
| Music.TableLookup | Firmware/PhotoniClock/Music.cpp:141-167 | on an EEPROM holding the table process_data wrote, each channel of song i finds the entry of its own channel data, with that channel's start and length; an empty Channel_A or a missing Channel_B makes channel 0 skip on to entry 2i+1 |
| Music.ReadFirstBuffer | Firmware/PhotoniClock/Music.cpp:169-177 | the first read takes min(length, 32) bytes from start into data, and its status is or-ed in |
| Music.LookupStep | Firmware/PhotoniClock/Music.cpp:142-166 | one pass of the lookup: a failed read ends it with nothing, a nonzero span is the entry found, a zero span moves on to the next entry |
| Music.PassStep | Firmware/PhotoniClock/Music.cpp:142-166 | a pass after only cleared entries: a failed read means the lookup finds nothing, a nonzero span is the entry the lookup finds, a zero span clears one more entry |
| Music.AllCleared | Firmware/PhotoniClock/Music.cpp:141-167 | when all 256 entries the 8-bit offset reaches are cleared, the lookup finds nothing |
| Music.Passes | Firmware/PhotoniClock/Music.cpp:141-167 | the loop entered with length 0 ends exactly when the lookup finds an entry, with that entry's start and span |
| Music.Search | Firmware/PhotoniClock/Music.cpp:141-167 | with a length already set the loop does not run; otherwise it ends exactly when the lookup finds an entry, with that entry's start and span |
| Music.SeekEntry | Firmware/PhotoniClock/Music.cpp:141-167 | as Search, on the stream, changing only its start and length |
| Music.GetMusicEEPROM | Firmware/PhotoniClock/Music.cpp:133-180 | it never returns when no entry is found; otherwise the stream is located at the entry found and the status is that of the first buffer's read |
| Music.Player.constructor | Firmware/PhotoniClock/Music.cpp:36-39 | both arrays start with NOTE::END and zeros, and the streams hold the pointers the file initialises them with |
| Music.PlayMusic | Firmware/PhotoniClock/Music.cpp:184-207 | an index below 2 plays the built-in tune and leaves both streams as they were. A larger index resets each stream to its own channel's three buffers, with position 0, the next load pending and nothing valid; this reset stays in place even when it gets stuck. It then looks up EEPROM song index - 2, and gets stuck exactly when the lookup for either channel finds nothing. Otherwise both streams are located at the entries found, and the two results are the first-buffer reads: the status at each stream's start and min(length, 32) bytes from there |
| Framing.Framed | Utilities/notes2eeprom.py:186-187 | the sections of a list of strings, one after another |
| Framing.Frame | Utilities/notes2eeprom.py:184-187 | one section: the escaped bytes, then the 0xFE indicator |
| Framing.Sections | Utilities/notes2eeprom.py:250-257 | the sections the transmitter sends, from previous_byte 0 |
| Framing.SplitFrom | Utilities/notes2eeprom.py:250-257 | the transmitters' splitter loop from a given previous byte and open section |
| Framing.Chunks | Utilities/notes2eeprom.py:528-531 | chunks(l, n): the slices l[i:i+n] for i = 0, n, 2n, … |
| Framing.Unescape | Utilities/notes2eeprom.py:519-526 | the inverse decoding: a 0xFF followed by a byte stands for that byte |
| Framing.Escaped | Utilities/notes2eeprom.py:519-526 | escape_array, built front to back |
| Framing.EscapedByte | Utilities/notes2eeprom.py:521-524 | what escape_array appends for one byte |
| Framing.IsIndicator | Utilities/notes2eeprom.py:519-526 | the four indicator bytes escape_array prefixes with 0xFF |
| Framing.EscapedAppend | Utilities/notes2eeprom.py:519-526 | escaping a concatenation is the concatenation of the escaped parts, so escape_array works byte by byte |
| Framing.EscapedLength | Utilities/notes2eeprom.py:519-526 | the escaped copy is exactly one byte longer per 0xFC/0xFD/0xFE/0xFF in the input |
| Framing.UnescapeEscapedByte | Utilities/notes2eeprom.py:521-524 | the one or two bytes written for an input byte decode back to that byte, whatever follows |
| Framing.UnescapeEscaped | Utilities/notes2eeprom.py:519-526 | removing the inserted 0xFF prefixes gives back the original array (round trip) |
| Framing.EscapeArray | Utilities/notes2eeprom.py:519-526 | the loop's copy is the escaped input, longer by the indicator count, and unescapes to the input |
| Framing.ChunksFlatten | Utilities/notes2eeprom.py:528-531 | the chunks joined in order are the input list, nothing lost or repeated |
| Framing.ChunksSizes | Utilities/notes2eeprom.py:528-531 | every chunk is nonempty and at most n long, and every chunk but the last is exactly n long |
| Framing.ChunksCount | Utilities/notes2eeprom.py:528-531 | there are no more chunks than bytes and enough of them to hold every byte |
| Framing.SplitKeepsBytes | Utilities/notes2eeprom.py:250-257 | the splitter only cuts: its sections followed by the unsent remainder are the input in order |
| Framing.SectionsEndInIndicator | Utilities/notes2eeprom.py:250-257 | every section the splitter closes is nonempty and ends in 0xFE |
| Framing.SplitSections | Utilities/notes2eeprom.py:250-257 | the loop's section list is the one the splitter function defines from previous_byte = 0 |
| Framing.SplitEscapedByte | Utilities/notes2eeprom.py:253-256 | an escaped byte never closes a section, even an escaped 0xFE, and leaves it as previous_byte |
| Framing.SplitEscaped | Utilities/notes2eeprom.py:250-257 | a whole escaped string passes through the splitter without closing a section |
| Framing.FramedAppend | Utilities/notes2eeprom.py:186-187 | framing a list of sections distributes over concatenation of the list |
| Framing.FrameSplits | Utilities/notes2eeprom.py:250-257 | a frame whose content does not end in 0xFF is closed by its own 0xFE and the splitter restarts after it |
| Framing.Frames | Utilities/notes2eeprom.py:186-187 | one frame per content string |
| Framing.FramedSplits | Utilities/notes2eeprom.py:250-257 | frames of nonempty contents not ending in 0xFF split back into exactly those frames, nothing pending |
| Framing.FrameAfterEscapedFFIsNotClosed | Utilities/notes2eeprom.py:253-254 | a content ending in 0xFF escapes to ... 0xFF 0xFF 0xFE, and the splitter leaves that frame unclosed |
| Framing.OneSectionIff | Utilities/notes2eeprom.py:250-257 | one frame is sent as one section exactly when its content is empty or does not end in 0xFF |
| Framing.FrameContent | Utilities/notes2eeprom.py:226-229 | a frame without its indicator is the escaped content, which unescapes back to the content |
| Notes2Eeprom.IsPower2 | Utilities/notes2eeprom.py:516-517 | is_power2 on any int: num != 0 and num & (num - 1) == 0, with Python's `&` |
| Notes2Eeprom.BitAnd | Utilities/notes2eeprom.py:516-517 | Python's `&` on non-negative integers |
| Notes2Eeprom.BitOr | Utilities/notes2eeprom.py:516-517 | bitwise or on non-negative integers, used for `&` of two negatives |
| Notes2Eeprom.BitAndNot | Utilities/notes2eeprom.py:516-517 | `a & ~c` on non-negative integers, used for `&` of a non-negative and a negative |
| Notes2Eeprom.IntAnd | Utilities/notes2eeprom.py:516-517 | Python's `&` on any two ints, as two's complement with unbounded sign bits |
| Notes2Eeprom.BitAndSelf | Utilities/notes2eeprom.py:516-517 | x & x == x for the bitwise and on naturals |
| Notes2Eeprom.PopCountPositive | Utilities/notes2eeprom.py:516-517 | a positive number has at least one set bit |
| Notes2Eeprom.ClearLowestBit | Utilities/notes2eeprom.py:516-517 | n & (n - 1) is 0 exactly when n has a single set bit |
| Notes2Eeprom.IsPower2Iff | Utilities/notes2eeprom.py:516-517 | for every int, is_power2 holds exactly for the positive numbers with one set bit: 0 and every negative number are excluded, 1 is included |
| Notes2Eeprom.CheckArguments | Utilities/notes2eeprom.py:47-84 | for any int arguments, as argparse's type=int gives them: main stops exactly on an odd address_start, address_start not below size_memory, or pagesize above size_memory (the odd start reported first); otherwise it warns exactly for a pagesize that is not a positive power of 2 and for address_start above a tenth of size_memory |
| Notes2Eeprom.NegativeAddressStartReachesProcessData | Utilities/notes2eeprom.py:59-66 | every negative even address_start below size_memory, with pagesize not above it, passes these checks, and process_data then stops with the ValueError of `bytearray(address_start)` at line 127 |
| Notes2Eeprom.DefaultsWithAddressStartMinus2 | Utilities/notes2eeprom.py:47-84 | address_start -2 with the default pagesize 32 and size_memory 0x2000 is accepted without a warning, and process_data stops with the ValueError of line 127 |
| Notes2Eeprom.NegativePageSizeOnlyWarns | Utilities/notes2eeprom.py:59-79 | a negative pagesize not above size_memory, with an even address_start below it, is accepted with only the not-a-power-of-2 warning |
| Notes2Eeprom.CrcPrecomputeTable | Utilities/notes2eeprom.py:533-543 | after the loop every crc_table entry is the remainder of its index under polynomial 0x1D, the table the firmware uses |
| Notes2Eeprom.CalcCrc | Utilities/notes2eeprom.py:545-549 | the loop computes the firmware's CRC-8 of the list (the precedence of `^` and `&` keeps only the table entry) |
| Notes2Eeprom.SplitChannel | Utilities/notes2eeprom.py:177-189 | the loop emits every chunk of at most 296 bytes with its CRC, escaped and closed by 0xFE, and counts one section per chunk |
| Notes2Eeprom.FramedSnoc | Utilities/notes2eeprom.py:184-187 | one more chunk appends its escaped bytes and one 0xFE to what the earlier chunks framed |
| Notes2Eeprom.SongStepsErr | Utilities/notes2eeprom.py:140-192 | an error exit in one channel pass is the song's outcome |
| Notes2Eeprom.SongsBuiltNext | Utilities/notes2eeprom.py:133-192 | the song loop after i + 1 songs is the two channel passes of song i after the first i |
| Notes2Eeprom.SongsBuiltErr | Utilities/notes2eeprom.py:133-192 | an error exit after the first i songs is the outcome of the whole loop |
| Notes2Eeprom.ChannelPass | Utilities/notes2eeprom.py:140-192 | one pass over the table in place: a missing Channel_A stops, a missing Channel_B copies the previous entry, otherwise the offset is packed, checked against size_memory and the table room, written and the chunks appended; the result agrees with the loop-state function in every case |
| Notes2Eeprom.Write16 | Utilities/notes2eeprom.py:173-174 | the two byte writes change the table at the two indices and nowhere else |
| Notes2Eeprom.Prepend16 | Utilities/notes2eeprom.py:222-223 | the two inserts at index 0 put the low count byte first and the high one second |
| Notes2Eeprom.FinishErrors | Utilities/notes2eeprom.py:194-218 | the end offset of 2^32 or more fails struct.pack, an end entry past the table raises IndexError, and 2^32 sections or more fail the section count's pack, in that order |
| Notes2Eeprom.FinishValue | Utilities/notes2eeprom.py:194-232 | when no exit is taken the result is the escaped, 0xFE-closed header (section count, table with end offset and song count, CRC) followed by the values |
| Notes2Eeprom.FinishImage | Utilities/notes2eeprom.py:194-232 | the in-place finishing steps give the same result or the same exit as the finishing function |
| Notes2Eeprom.ProcessData | Utilities/notes2eeprom.py:125-236 | for any int address_start and size_memory, the loops over songs and channels return the image or the exit the function of the whole process defines, including the ValueError of `bytearray(address_start)` for a negative address_start |
| EepromImage.ExpectedImage | Utilities/notes2eeprom.py:125-236 | the closed-form image: the table section, then one section per chunk |
| EepromImage.Header | Utilities/notes2eeprom.py:208-223 | the table section's content: section count, table, table CRC |
| EepromImage.TableOf | Utilities/notes2eeprom.py:127-205 | the table as stored: song count, the 2n offsets, the end offset, zeros |
| EepromImage.Offsets | Utilities/notes2eeprom.py:145-174 | table entries 1..2n: each song's Channel_A start and its Channel_B start, or Channel_A's again |
| EepromImage.ImageOf | Utilities/notes2eeprom.py:125-236 | process_data: the ValueError for a negative address_start, otherwise the song loop then the finish |
| EepromImage.Finish | Utilities/notes2eeprom.py:194-232 | the end offset, song count, table CRC, section count, escaping and values |
| EepromImage.SongsBuilt | Utilities/notes2eeprom.py:133-192 | the song loop over all songs |
| EepromImage.SongSteps | Utilities/notes2eeprom.py:140 | the first c passes of the channel loop for one song |
| EepromImage.ChannelStep | Utilities/notes2eeprom.py:140-192 | one pass of the channel loop, including the missing-Channel_A exit |
| EepromImage.CopyEntry | Utilities/notes2eeprom.py:145-153 | a missing Channel_B repeats the previous table entry, or raises IndexError past the table |
| EepromImage.AddChannel | Utilities/notes2eeprom.py:157-192 | one present channel: the pack, Max bytes and Max entries exits, the table entry and the sections |
| EepromImage.ChannelFrames | Utilities/notes2eeprom.py:177-189 | the value sections of one channel |
| EepromImage.Checked | Utilities/notes2eeprom.py:180-184 | a chunk with its CRC appended |
| EepromImage.LE16 | Utilities/notes2eeprom.py:159 | the two bytes of `struct.pack("I", v)` that are copied, on a little-endian host: the low 16 bits, low byte first |
| EepromImage.EncodeAt | Utilities/notes2eeprom.py:173-174 | entry j of an encoded offset list sits at bytes 2j and 2j+1, little-endian |
| EepromImage.SongOffsets | Utilities/notes2eeprom.py:159-174 | each song adds two entries: its Channel_A start and its Channel_B start, or Channel_A's start again when Channel_B is missing |
| EepromImage.AddChannelOk | Utilities/notes2eeprom.py:157-192 | a present channel writes the old offset as the next entry, advances the offset by its length, and appends its framed chunks and their count |
| EepromImage.CopyEntryOk | Utilities/notes2eeprom.py:145-153 | a missing Channel_B copies the previous two table bytes into the next entry and changes nothing else |
| EepromImage.ChannelATable | Utilities/notes2eeprom.py:159-174 | after song k's Channel_A the table holds the earlier songs' offsets and then Channel_A's start, the rest zero |
| EepromImage.LaidOutTable | Utilities/notes2eeprom.py:127-192 | between songs the table is two zero bytes, the encoded offsets so far, then zeros |
| EepromImage.SongFrames | Utilities/notes2eeprom.py:177-192 | a song's value sections come after the earlier songs', Channel_A's before Channel_B's |
| EepromImage.ChannelAStep | Utilities/notes2eeprom.py:140-192 | the first channel pass of a song keeps the loop state in closed form |
| EepromImage.ChannelBStepTable | Utilities/notes2eeprom.py:145-174 | after the second pass entry 2k+2 is Channel_B's start or a copy of entry 2k+1 |
| EepromImage.AddedTable | Utilities/notes2eeprom.py:159-174 | a present Channel_B's start becomes entry 2k+2 |
| EepromImage.CopiedTable | Utilities/notes2eeprom.py:145-153 | a missing Channel_B makes entry 2k+2 equal to entry 2k+1 |
| EepromImage.ChannelBStepFields | Utilities/notes2eeprom.py:140-192 | after a song the offset is address_start plus all channel bytes so far, the entry count 2n, and values and sections are those of all chunks so far |
| EepromImage.SongStep | Utilities/notes2eeprom.py:140-192 | a song that gets through the channel loop keeps the loop state in closed form |
| EepromImage.SongsLaidOut | Utilities/notes2eeprom.py:133-192 | whenever the song loop completes, table, values, offset, entries and sections are the closed form of the songs |
| EepromImage.FinishOk | Utilities/notes2eeprom.py:194-232 | a successful finish is the framed header (section count, finished table, its CRC) followed by the values |
| EepromImage.TableFinish | Utilities/notes2eeprom.py:194-205 | writing the end offset after the entries and the song count at the front |
| EepromImage.FinishedTable | Utilities/notes2eeprom.py:194-205 | the finished table of a laid-out state is the closed-form table |
| EepromImage.HeaderFramed | Utilities/notes2eeprom.py:208-232 | the framed header followed by the values is the closed-form image |
| EepromImage.FinishLaidOut | Utilities/notes2eeprom.py:194-232 | finishing a laid-out state gives the closed-form image |
| EepromImage.FinishShaped | Utilities/notes2eeprom.py:194-232 | finishing a state whose table holds the encoded offsets frames the expected header |
| EepromImage.ImageLayout | Utilities/notes2eeprom.py:125-236 | whenever process_data returns an image, the table has room for 2n + 2 entries and the image is the table section followed by one section per chunk |
| EepromImage.ChannelFramesChecked | Utilities/notes2eeprom.py:177-189 | every value section of a channel is 1 to 296 data bytes followed by their CRC |
| EepromImage.AllFramesChecked | Utilities/notes2eeprom.py:133-192 | every value section of every song is a CRC-checked chunk of 1 to 296 data bytes |
| EepromImage.CheckedEndsBelow32 | Utilities/notes2eeprom.py:533-549 | a CRC-checked section ends in a CRC below 32, so never in 0xFF |
| EepromImage.ImageSplits | Utilities/notes2eeprom.py:250-257 | the transmitters' splitter cuts every image process_data returns into exactly the table section and one section per chunk, nothing pending |
| EepromImage.HeaderAndSectionsSplit | Utilities/notes2eeprom.py:250-257 | a header ending below 32 followed by CRC-checked sections splits back into its frames |
| EepromImage.SectionsEnd | Utilities/notes2eeprom.py:184-187 | no section of the image ends in 0xFF |
| EepromImage.ValueSectionsCheck | Utilities/notes2eeprom.py:177-189 | every value section, unescaped without its indicator, is at most 296 data bytes and their CRC, and its own CRC is 0 |
| EepromImage.CheckedSection | Utilities/notes2eeprom.py:180-187 | a CRC-checked section unescapes to itself and checks to CRC 0 |
| EepromImage.ChannelFramesData | Utilities/notes2eeprom.py:177-189 | the data bytes of a channel's sections, in order, are the channel |
| EepromImage.LE16Decodes | Utilities/notes2eeprom.py:159 | a stored entry reads back little-endian as its offset modulo 65536 |
| EepromImage.OffsetsSorted | Utilities/notes2eeprom.py:159-174 | channel offsets lie between address_start and the end offset and never decrease |
| EepromImage.OffsetsAt | Utilities/notes2eeprom.py:145-174 | song i's entries are where its Channel_A starts and where its Channel_B starts, or A's start when B is missing |
| EepromImage.TableParts | Utilities/notes2eeprom.py:194-205 | the table is address_start bytes: song count, the encoded offsets, the end offset, zeros |
| EepromImage.TableEntry | Utilities/notes2eeprom.py:173-174 | entry k of the table holds the k-th channel offset |
| EepromImage.TablePadding | Utilities/notes2eeprom.py:127 | past the end entry the table is zero |
| EepromImage.TableEntries | Utilities/notes2eeprom.py:127-205 | bytes 0-1 hold the song count, entry k the k-th channel offset, entry 2n+1 the end offset, and the rest is zero |
| EepromImage.SongsFitSplit | Utilities/notes2eeprom.py:133-192 | the songs fit exactly when all but the last fit and the last does |
| EepromImage.LaidOutTableLength | Utilities/notes2eeprom.py:127 | the table keeps its length of address_start bytes through the loop |
| EepromImage.SongStepsUnfold | Utilities/notes2eeprom.py:140 | a song is its Channel_A pass followed by its Channel_B pass |
| EepromImage.AddChannelOkIff | Utilities/notes2eeprom.py:157-174 | a present channel passes exactly when the offset packs, the channel ends within size_memory and the table has room for the next entry and the end entry |
| EepromImage.CopyEntryOkIff | Utilities/notes2eeprom.py:145-153 | copying the previous entry succeeds exactly when the next entry lies inside the table |
| EepromImage.SongFits | Utilities/notes2eeprom.py:140-192 | one more song goes through exactly when it has a Channel_A, its channels end within size_memory and the table has room for its entries |
| EepromImage.SongsBuiltIff | Utilities/notes2eeprom.py:133-192 | the song loop runs to the end exactly when every song has a Channel_A, all channels fit below size_memory and the table has room for the last song's entries |
| EepromImage.AllFramesCount | Utilities/notes2eeprom.py:177-189 | there are no more value sections than channel bytes |
| EepromImage.FinishOkIff | Utilities/notes2eeprom.py:194-218 | finishing succeeds exactly when the end offset packs, the end entry lies in the table and the section count packs |
| EepromImage.ImageOkIff | Utilities/notes2eeprom.py:125-236 | for a non-negative even address_start below size_memory below 2^32, process_data returns an image exactly when every song has a Channel_A, the channels fit between address_start and size_memory, and the table has room for the song count, 2n entries and the end entry |
| EepromImage.MissingLastChannelBOverflowsTable | Utilities/notes2eeprom.py:194-199 | one song without Channel_B and address_start 6: the copied entry fits, but the end entry's slot does not, so process_data raises IndexError rather than its "Max entries" exit |

## Left out

- **FastLED.** `hsv2rgb_spectrum`, `ColorFromPalette`, `nscale8` and the palettes are FastLED internals. They are function-valued constants of the engine and the controller, so the model states which colour is requested, not the RGB bytes that come out.
- **`random8`.** Each draw is a field of a `Draws` parameter, constrained to the range of the call that produces it. The generator itself is not modelled.
- **I2C and EEPROM status.** I2C writes and `g_eeprom.Read` return status values the model takes as parameters. The EEPROM is a value: its contents, and a read status per address.
- **Asynchronous reads.** The completion callbacks of `Music.cpp` run as `Stream.Completed(err)`. The `asm jmp 0` device reset is the `DeviceReset` outcome, and its restart is not modelled.
- **Lookup bound.** `GetMusicEEPROM` stops its search after 256 entries; the 8-bit entry counter makes the loop repeat itself from there on. A search that finds nothing is the `Hangs` outcome and not a loop that never ends.
- **Built-in tunes.** `GetMusicDATA` and `g_audio.Play` are outside this model. A built-in tune is the `Inbuilt` outcome of `PlayMusic`.
- **Host tool's I/O.** The JSON parsing and file handling of `main` are not modelled. The same goes for the serial, SPI and usbtiny transport code, the bytes-sent counter (it is only printed), the verbosity levels and every message printed. The splitter loop of `transmit_UART` and `transmit_helper_SPI` is modelled.
- **Host tool's arguments.** `process_data` takes songs with optional `Channel_A` and `Channel_B` byte strings. `process_data` reads each song's `Filename` (`Utilities/notes2eeprom.py:134`) and only prints it, so the `Song` datatype has no file name. A song without that key stops `process_data` with a KeyError, which the model does not capture.
- LedEffect.Engine.constructor: starts the Ghost orb centre at WIDTH, the corrected half of the Ghost finding below. Only `EffectSpec.GhostStartWritesOutside` models the as-written start at 0.
- Music.DecodeOffsets: decodes each entry with the intended `Word`, the offset modulo 2^16. The as-written decoding sign-extends a high byte of 0x80 or more; it is `WordAsWritten`, and `WordAsWrittenIff` relates the two.
- Music.ReadEntry: reads the entry through `DecodeOffsets`, so it decodes with the intended `Word` and not with `WordAsWritten`.
- Music.Passes: finds the entry through `ReadEntry`, so it decodes with the intended `Word` and not with `WordAsWritten`.
- Music.Search: finds the entry through `Passes`, so it decodes with the intended `Word` and not with `WordAsWritten`.
- Music.SeekEntry: locates the stream through `Search`, so it decodes with the intended `Word` and not with `WordAsWritten`.
- Music.GetMusicEEPROM: locates the stream through `SeekEntry`, so it decodes with the intended `Word` and not with `WordAsWritten`. Tables with an offset of 0x8000 or more decode differently as written.
- Music.PlayMusic: locates the streams through `GetMusicEEPROM`, so it decodes with the intended `Word` and not with `WordAsWritten`.
- EepromImage.LE16: `struct.pack("I", v)` uses the host's native byte order. The model assumes a little-endian host, which is the order the firmware reads; a big-endian host would write the bytes the other way round.
- Notes2Eeprom.CheckArguments: main compares `address_start > size_memory * 0.1` in floating point; the model compares `10 * address_start > size_memory` exactly, which agrees for size_memory of magnitude below 2^40, where the rounding of the product stays far below the gap of at least 0.1 between the two sides when they differ; when 10 * address_start equals size_memory, the stored 0.1 lies slightly above a tenth, so the product rounds to at least address_start and neither warns.
- **Negative pagesize.** main accepts a negative pagesize with only a warning (`Notes2Eeprom.NegativePageSizeOnlyWarns`). What the SPI and UART transmitters then do with it is not modelled.
- **Other scripts.** `Utilities/FlashProduction.py` and `Utilities/FlashUnitTest.py` are not part of this model.
- **Voltages and headers.** The floating-point voltage constants are left out. Of the headers `PhotoniClock.h`, `Preload.h`, `UnitTest.h`, `IS31FL3218.h`, `Menu.h`, `Music.h` and `LEDController.h`, only the constants and sizes the core uses are taken.
- **Timing.** Clocks, delays and interrupts are left out. The real-time clock is an `Rtc` object whose hour, minute and second are given.

## Where the code and its design description differ

The model follows the code in each case but the last.

- **Tetris shift-out.** It does not remove one block per step. It moves the lowest block one cell down and deletes only a block in cell 0 (`EffectSpec.DrainLowers`).
- **Menu clock.** It advances the second every 61 calls, not every 60 (`EffectSpec.MenuSecondEvery61Calls`).
- **`process_data` table overflow.** Take a song list whose last song has no `Channel_B`, with `address_start` equal to 4n + 2. The copied entry still fits, but writing the end offset runs past the table. `process_data` then raises an IndexError instead of its "Max entries" message. The model returns `Err(TableIndexOutOfRange)` (`EepromImage.MissingLastChannelBOverflowsTable`).
- **Ghost orb.** `Engine`'s constructor starts the orb centre at WIDTH, not at 0. This is the corrected behaviour of the first finding below.

## Findings

| source | as written | input that shows it | evidently intended | confidence | as-written member | corrected member |
|---|---|---|---|---|---|---|
| Firmware/PhotoniClock/LEDEffect.cpp:342-361 | `position` starts at 0 and only moves at a spawn, when `g_value` is below 2 | entering Ghost with `g_value` from 39 to 197, as a previous effect can leave it: no spawn, and the glow loop writes canvas cell -1, before the array | every cell the orb writes lies on the 8-cell canvas | not executed | EffectSpec.GhostStartWritesOutside | EffectSpec.GhostCellsInRange |
| Firmware/PhotoniClock/Music.cpp:39 | the initial `next` pointer of stream B is `music_channel_A + BUFFER_SIZE * 2`, the same buffer as stream A's `next` | none reachable, so the defect is latent: the streams are loaded only from `PlayMusic`, after its reset at lines 195-196; if the initial pointers were used, both streams would load into bytes 64-95 of `music_channel_A` | each stream's three buffers lie in its own channel array, and the six buffers are disjoint | not executed | Music.InitialRingsShareNext | Music.ResetRingsDisjoint |
| Firmware/PhotoniClock/Music.cpp:159-160 | `offset[1] << 8` is a 16-bit `int` on the AVR, so a high byte of 0x80 or more makes it negative; `|=` sign-extends it into the `uint32_t` | a table entry for offset 0x8000, stored as 00 80, decodes to 0xFFFF8000 | the entry decodes to its offset modulo 2^16 | not executed | Music.WordAsWrittenCounterexample | Music.WordOfLE16 |
