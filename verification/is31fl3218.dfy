/**
 * Shadow state of the IS31FL3218 18-channel LED driver (class CIS31FL3218):
 * one PWM byte per LED, three control bytes whose low six bits enable the
 * six LEDs of a group, and the shutdown (device) state. Every setter also
 * writes the changed registers over I2C; the status that write returns is
 * a parameter here (`i2c`), since the bus is outside the model.
 */
module IS31FL3218 {
  import opened Bytes

  /** COUNT: LED channels, RGB pixels, control banks, LEDs per bank. */
  const LED: nat := 18
  const RGB: nat := 6
  const BANK: nat := 3
  const GROUP: nat := 6

  /** status_t */
  const STATUS_OK: byte := 0
  const STATUS_OUT_OF_BOUNDS: byte := 1

  /** State (an enum class over bool: DISABLE = 0, ENABLE = 1). */
  datatype State = Disable | Enable

  /** `0x1 << k`: the mask of bit k, spelled out per bit position. */
  function BitMask(k: nat): (m: bv8)
    requires k < 8
  {
    if k == 0 then 0x01 else if k == 1 then 0x02 else if k == 2 then 0x04
    else if k == 3 then 0x08 else if k == 4 then 0x10 else if k == 5 then 0x20
    else if k == 6 then 0x40 else 0x80
  }

  /** Two different bit masks share no bit; a mask is never zero. */
  lemma MasksDisjoint(j: nat, k: nat)
    requires j < 8 && k < 8
    ensures BitMask(k) != 0
    ensures j != k ==> BitMask(j) & BitMask(k) == 0
  {
    if k == 0 {} else if k == 1 {} else if k == 2 {} else if k == 3 {}
    else if k == 4 {} else if k == 5 {} else if k == 6 {} else {}
    if j == 0 {} else if j == 1 {} else if j == 2 {} else if j == 3 {}
    else if j == 4 {} else if j == 5 {} else if j == 6 {} else {}
  }

  /** The masked update hits exactly the masked bits. */
  lemma MaskedUpdate(b: bv8, ones: bv8, m: bv8, n: bv8)
    ensures (b ^ ((ones ^ b) & m)) & m == ones & m
    ensures m & n == 0 ==> (b ^ ((ones ^ b) & m)) & n == b & n
  {
  }

  /** Bit k of a control byte, read as a state (GetLEDState's test). */
  function BitState(b: bv8, k: nat): State
    requires k < 8
  {
    if b & BitMask(k) != 0 then Enable else Disable
  }

  /**
   * `byte ^= (-getValue(state) ^ byte) & (0x1 << k)`: -getValue(state) is
   * 0 for DISABLE and all ones for ENABLE.
   */
  function UpdateBit(b: bv8, k: nat, s: State): bv8
    requires k < 8
  {
    var ones: bv8 := if s == Enable then 0xFF else 0x00;
    b ^ ((ones ^ b) & BitMask(k))
  }

  /** The update leaves a bit j other than k as it was. */
  lemma UpdateBitKeepsOtherBit(b: bv8, k: nat, s: State, j: nat)
    requires k < 8 && j < 8 && j != k
    ensures BitState(UpdateBit(b, k, s), j) == BitState(b, j)
  {
    var ones: bv8 := if s == Enable then 0xFF else 0x00;
    MasksDisjoint(j, k);
    MaskedUpdate(b, ones, BitMask(k), BitMask(j));
  }

  /** The update sets bit k to the state and leaves the other bits alone. */
  lemma UpdateBitSetsOnlyBitK(b: bv8, k: nat, s: State)
    requires k < 8
    ensures BitState(UpdateBit(b, k, s), k) == s
    ensures forall j :: 0 <= j < 8 && j != k ==> BitState(UpdateBit(b, k, s), j) == BitState(b, j)
  {
    var ones: bv8 := if s == Enable then 0xFF else 0x00;
    var m := BitMask(k);
    var r := UpdateBit(b, k, s);
    MasksDisjoint(k, k);
    MaskedUpdate(b, ones, m, m);
    assert r & m == ones & m;
    if s == Enable {
      assert ones & m == m;
      assert r & m != 0;
    } else {
      assert ones & m == 0;
      assert r & m == 0;
    }
    forall j | 0 <= j < 8 && j != k
      ensures BitState(r, j) == BitState(b, j)
    {
      UpdateBitKeepsOtherBit(b, k, s, j);
    }
  }

  /** The uint32 that GetRGBPWM returns: red in bits 16-23, green 8-15, blue 0-7. */
  function Pack(red: byte, green: byte, blue: byte): (c: nat)
  {
    red * 65536 + green * 256 + blue
  }

  /** The three PWM bytes SetRGBPWM(rgb, color) extracts from a uint32 colour. */
  function Unpack(color: nat): (s: seq<byte>)
    ensures |s| == 3
  {
    [(color / 65536) % 256, (color / 256) % 256, color % 256]
  }

  /** Unpacking then packing keeps exactly the low 24 bits (color & 0xFFFFFF). */
  lemma PackUnpack(color: nat)
    ensures var s := Unpack(color); Pack(s[0], s[1], s[2]) == color % 16777216
  {
    var q := color / 65536;
    var m := color % 65536;
    assert color == q * 65536 + m;
    assert (color / 256) % 256 == m / 256 by {
      assert color == (q * 256 + m / 256) * 256 + m % 256;
      assert color / 256 == q * 256 + m / 256;
    }
    assert color % 256 == m % 256 by {
      assert color == (q * 256 + m / 256) * 256 + m % 256;
    }
    assert color % 16777216 == (q % 256) * 65536 + m by {
      assert color == (q / 256) * 16777216 + ((q % 256) * 65536 + m);
    }
  }

  class Driver {
    var deviceState: State   // m_device_state
    const pwm: array<byte>   // m_led_pwm
    const control: array<bv8>  // m_led_control

    ghost predicate Valid()
      reads this
    {
      pwm.Length == LED && control.Length == BANK
    }

    /** The enable state of every LED, as the control bytes record it. */
    ghost function States(): (s: seq<State>)
      reads this, control
      requires Valid()
      ensures |s| == LED
    {
      seq(LED, led requires 0 <= led < LED reads this, control => BitState(control[led / GROUP], led % GROUP))
    }

    constructor ()
      ensures Valid() && fresh(pwm) && fresh(control)
      ensures forall i :: 0 <= i < LED ==> pwm[i] == 0
      ensures forall i :: 0 <= i < BANK ==> control[i] == 0
      ensures deviceState == Disable
    {
      pwm := new byte[LED];
      control := new bv8[BANK];
      deviceState := Disable;
      new;
      Reset();
    }

    /** reset(): clear the shadow registers and mark the device disabled. */
    method Reset()
      requires Valid()
      modifies this, pwm, control
      ensures Valid()
      ensures forall i :: 0 <= i < LED ==> pwm[i] == 0
      ensures forall i :: 0 <= i < BANK ==> control[i] == 0
      ensures deviceState == Disable
    {
      var i := 0;
      while i < LED
        invariant 0 <= i <= LED
        invariant forall j :: 0 <= j < i ==> pwm[j] == 0
      {
        pwm[i] := 0;
        i := i + 1;
      }
      control[0], control[1], control[2] := 0, 0, 0;
      deviceState := Disable;
    }

    /** Initialize(): reset, leave shutdown, enable every LED. The statuses
        of its I2C writes are discarded by the source. */
    method Initialize()
      requires Valid()
      modifies this, pwm, control
      ensures Valid()
      ensures forall i :: 0 <= i < LED ==> pwm[i] == 0
      ensures deviceState == Enable
      ensures forall led :: 0 <= led < LED ==> GetLEDState(led) == Enable
    {
      var _ := ResetDevice(STATUS_OK);
      var _ := SetDeviceState(Enable, STATUS_OK);
      var _ := SetAllStateValue(Enable, STATUS_OK);
    }

    method SetDeviceState(state: State, i2c: byte) returns (status: byte)
      requires Valid()
      modifies this
      ensures Valid() && unchanged(pwm) && unchanged(control)
      ensures deviceState == state && GetDeviceState() == state
      ensures status == i2c
    {
      deviceState := state;
      status := i2c;
    }

    method SetLEDPWM(led: byte, value: byte, i2c: byte) returns (status: byte)
      requires Valid()
      modifies pwm
      ensures led < LED ==> pwm[..] == old(pwm[..])[led := value] && GetLEDPWM(led) == value && status == i2c
      ensures led >= LED ==> unchanged(pwm) && status == STATUS_OUT_OF_BOUNDS
    {
      if led < LED {
        pwm[led] := value;
        status := i2c;
      } else {
        status := STATUS_OUT_OF_BOUNDS;
      }
    }

    method SetLEDState(led: byte, state: State, i2c: byte) returns (status: byte)
      requires Valid()
      modifies control
      ensures led < LED ==> GetLEDState(led) == state && status == i2c
      ensures led < LED ==> forall other :: 0 <= other < LED && other != led ==> GetLEDState(other) == old(GetLEDState(other))
      ensures led >= LED ==> unchanged(control) && status == STATUS_OUT_OF_BOUNDS
    {
      if led < LED {
        var bank := led / GROUP;
        UpdateBitSetsOnlyBitK(control[bank], led % GROUP, state);
        control[bank] := UpdateBit(control[bank], led % GROUP, state);
        status := i2c;
      } else {
        status := STATUS_OUT_OF_BOUNDS;
      }
    }

    /** SetAllPWM(value): memset of the PWM registers. */
    method SetAllPWMValue(value: byte, i2c: byte) returns (status: byte)
      requires Valid()
      modifies pwm
      ensures forall i :: 0 <= i < LED ==> pwm[i] == value
      ensures status == i2c
    {
      var i := 0;
      while i < LED
        invariant 0 <= i <= LED
        invariant forall j :: 0 <= j < i ==> pwm[j] == value
      {
        pwm[i] := value;
        i := i + 1;
      }
      status := i2c;
    }

    /** SetAllState(state): every control byte becomes 0x3F or 0x00. */
    method SetAllStateValue(state: State, i2c: byte) returns (status: byte)
      requires Valid()
      modifies control
      ensures forall i :: 0 <= i < BANK ==> control[i] == if state == Enable then 0x3F else 0x00
      ensures forall led :: 0 <= led < LED ==> GetLEDState(led) == state
      ensures status == i2c
    {
      var b: bv8 := if state == Enable then 0x3F else 0x00;
      control[0], control[1], control[2] := b, b, b;
      status := i2c;
    }

    /** SetAllPWM(pwm_array): memcpy of 18 bytes into the PWM registers. */
    method SetAllPWM(values: seq<byte>, i2c: byte) returns (status: byte)
      requires Valid() && |values| == LED
      modifies pwm
      ensures pwm[..] == values && GetAllPWM() == values
      ensures status == i2c
    {
      var i := 0;
      while i < LED
        invariant 0 <= i <= LED
        invariant forall j :: 0 <= j < i ==> pwm[j] == values[j]
      {
        pwm[i] := values[i];
        i := i + 1;
      }
      status := i2c;
    }

    /** SetAllState(state_array): each LED's bit set in turn. */
    method SetAllState(states: seq<State>, i2c: byte) returns (status: byte)
      requires Valid() && |states| == LED
      modifies control
      ensures States() == states
      ensures status == i2c
    {
      var led := 0;
      while led < LED
        invariant 0 <= led <= LED
        invariant forall l :: 0 <= l < led ==> BitState(control[l / GROUP], l % GROUP) == states[l]
      {
        var bank := led / GROUP;
        ghost var before := control[..];
        UpdateBitSetsOnlyBitK(control[bank], led % GROUP, states[led]);
        control[bank] := UpdateBit(control[bank], led % GROUP, states[led]);
        forall l | 0 <= l < led
          ensures BitState(control[l / GROUP], l % GROUP) == states[l]
        {
          if l / GROUP == bank {
            assert l % GROUP != led % GROUP;
            assert BitState(control[bank], l % GROUP) == BitState(before[bank], l % GROUP);
          } else {
            assert control[l / GROUP] == before[l / GROUP];
          }
        }
        led := led + 1;
      }
      status := i2c;
    }

    method SetRGBPWM(rgb: byte, values: seq<byte>, i2c: byte) returns (status: byte)
      requires Valid() && |values| == 3
      modifies pwm
      ensures rgb < RGB ==> pwm[..] == old(pwm[..])[3 * rgb := values[0]][3 * rgb + 1 := values[1]][3 * rgb + 2 := values[2]]
      ensures rgb < RGB ==> GetRGBPWMArray(rgb, [0, 0, 0]) == values && status == i2c
      ensures rgb >= RGB ==> unchanged(pwm) && status == STATUS_OUT_OF_BOUNDS
    {
      if rgb < RGB {
        pwm[3 * rgb] := values[0];
        pwm[3 * rgb + 1] := values[1];
        pwm[3 * rgb + 2] := values[2];
        status := i2c;
      } else {
        status := STATUS_OUT_OF_BOUNDS;
      }
    }

    /** SetRGBPWM(rgb, color): the colour split into R, G, B bytes. */
    method SetRGBPWMColor(rgb: byte, color: nat, i2c: byte) returns (status: byte)
      requires Valid() && color < 0x1_0000_0000
      modifies pwm
      ensures rgb < RGB ==> GetRGBPWM(rgb) == color % 0x100_0000 && status == i2c
      ensures rgb < RGB ==> forall i :: 0 <= i < LED && i / 3 != rgb ==> pwm[i] == old(pwm[i])
      ensures rgb >= RGB ==> unchanged(pwm) && GetRGBPWM(rgb) == 0 && status == STATUS_OUT_OF_BOUNDS
    {
      status := SetRGBPWM(rgb, Unpack(color), i2c);
      PackUnpack(color);
    }

    method Update(i2c: byte) returns (status: byte)
      ensures status == i2c
    {
      status := i2c;
    }

    /** ResetDevice(): reset() and the chip's software reset register. */
    method ResetDevice(i2c: byte) returns (status: byte)
      requires Valid()
      modifies this, pwm, control
      ensures Valid()
      ensures forall i :: 0 <= i < LED ==> pwm[i] == 0
      ensures forall led :: 0 <= led < LED ==> GetLEDState(led) == Disable
      ensures deviceState == Disable
      ensures status == i2c
    {
      Reset();
      status := i2c;
    }

    function GetDeviceState(): State
      reads this
    {
      deviceState
    }

    /** The stored PWM value, or STATUS_OUT_OF_BOUNDS (1) for led >= 18. */
    function GetLEDPWM(led: byte): (value: byte)
      reads this, pwm
      requires Valid()
      ensures led < LED ==> value == pwm[led]
      ensures led >= LED ==> value == STATUS_OUT_OF_BOUNDS
    {
      if led < LED then pwm[led] else STATUS_OUT_OF_BOUNDS
    }

    function GetLEDState(led: byte): (state: State)
      reads this, control
      requires Valid()
      ensures led < LED ==> state == States()[led]
      ensures led >= LED ==> state == Disable
    {
      if led < LED then BitState(control[led / GROUP], led % GROUP) else Disable
    }

    function GetAllPWM(): (values: seq<byte>)
      reads this, pwm
      requires Valid()
      ensures |values| == LED && forall led :: 0 <= led < LED ==> values[led] == GetLEDPWM(led)
    {
      pwm[..]
    }

    method GetAllState() returns (states: seq<State>)
      requires Valid()
      ensures |states| == LED
      ensures forall led :: 0 <= led < LED ==> states[led] == GetLEDState(led)
    {
      states := [];
      var led := 0;
      while led < LED
        invariant 0 <= led <= LED && |states| == led
        invariant forall l :: 0 <= l < led ==> states[l] == GetLEDState(l)
      {
        var state := if control[led / GROUP] & BitMask(led % GROUP) != 0 then Enable else Disable;
        states := states + [state];
        led := led + 1;
      }
    }

    /** GetRGBPWM(rgb, pwm_array): the caller's array after the call. */
    function GetRGBPWMArray(rgb: byte, buffer: seq<byte>): (values: seq<byte>)
      reads this, pwm
      requires Valid() && |buffer| == 3
      ensures rgb < RGB ==> values == [GetLEDPWM(3 * rgb), GetLEDPWM(3 * rgb + 1), GetLEDPWM(3 * rgb + 2)]
      ensures rgb >= RGB ==> values == buffer
    {
      if rgb < RGB then pwm[3 * rgb .. 3 * rgb + 3] else buffer
    }

    /** GetRGBPWM(rgb): the pixel's PWM bytes packed as 0x00RRGGBB, 0 out of range. */
    function GetRGBPWM(rgb: byte): (color: nat)
      reads this, pwm
      requires Valid()
      ensures color < 0x100_0000
      ensures rgb >= RGB ==> color == 0
    {
      var s := GetRGBPWMArray(rgb, [0, 0, 0]);
      Pack(s[0], s[1], s[2])
    }
  }

  /**
   * An out-of-range GetLEDPWM cannot be told apart from a stored PWM of
   * STATUS_OUT_OF_BOUNDS (1): every LED index past the last reads as any
   * LED in range that holds 1.
   */
  lemma OutOfRangeReadIsAmbiguous(d: Driver, k: byte, led: byte)
    requires d.Valid() && k < LED && d.pwm[k] == STATUS_OUT_OF_BOUNDS && led >= LED
    ensures d.GetLEDPWM(led) == d.GetLEDPWM(k) == STATUS_OUT_OF_BOUNDS
  {
  }
}
