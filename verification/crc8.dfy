/**
 * The table-driven CRC-8 of the Preload firmware (crc8.cpp): polynomial
 * 0x1D applied to a right-shifting register, initial value 0, no final
 * XOR. The 256-entry table is computed on first use. notes2eeprom.py
 * computes the same table and the same fold on the host side.
 */
module Crc8 {

  /** The polynomial the table is built from. */
  const POLYNOMIAL: bv8 := 0x1D

  /** One bit step of the table loop: shift right, and fold in the polynomial when bit 0 was set. */
  function Shift(r: bv8): bv8
  {
    if r & 0x01 != 0 then (r >> 1) ^ POLYNOMIAL else r >> 1
  }

  /** The remainder after `bits` steps, starting from `dividend`. */
  function Remainder(dividend: bv8, bits: nat): bv8
  {
    if bits == 0 then dividend else Shift(Remainder(dividend, bits - 1))
  }

  /** crc_table[d]: eight steps from d. */
  function TableEntry(d: bv8): bv8
  {
    Remainder(d, 8)
  }

  /** A zero register stays zero, however many steps it takes. */
  lemma {:induction false} RemainderOfZero(bits: nat)
    ensures Remainder(0, bits) == 0
  {
    if bits > 0 {
      RemainderOfZero(bits - 1);
    }
  }

  /** crc_table[0] == 0. */
  lemma TableZero()
    ensures TableEntry(0) == 0
  {
    RemainderOfZero(8);
  }

  /**
   * Line 80 as written: `crc = value ^ (crc << 8)`, computed on the int the
   * uint8_t operands are promoted to and truncated back to uint8_t.
   */
  function Step(crc: bv8, b: bv8): bv8
  {
    Combine(TableEntry(b ^ crc), crc)
  }

  /** `value ^ (crc << 8)` on the promoted operands, truncated to uint8_t. */
  function Combine(value: bv8, crc: bv8): bv8
  {
    (((value as bv16) ^ ((crc as bv16) << 8)) & 0xFF) as bv8
  }

  /** The shifted-out register never reaches the low byte. */
  lemma CombineIsValue(value: bv8, crc: bv8)
    ensures Combine(value, crc) == value
  {
    assert ((value as bv16) ^ ((crc as bv16) << 8)) & 0xFF == value as bv16;
  }

  /** Hence each step is a table lookup. */
  lemma StepIsLookup(crc: bv8, b: bv8)
    ensures Step(crc, b) == TableEntry(b ^ crc)
  {
    CombineIsValue(TableEntry(b ^ crc), crc);
  }

  /** The CRC of a byte string: a left fold of Step from 0. */
  function Checksum(data: seq<bv8>): bv8
  {
    if |data| == 0 then 0 else Step(Checksum(data[..|data| - 1]), data[|data| - 1])
  }

  /** Appending a byte folds it in with one table lookup. */
  lemma ChecksumAppend(data: seq<bv8>, b: bv8)
    ensures Checksum(data + [b]) == TableEntry(b ^ Checksum(data))
  {
    assert (data + [b])[..|data|] == data;
    StepIsLookup(Checksum(data), b);
  }

  /** The CRC of one more element of a sequence's prefix. */
  lemma ChecksumPrefix(data: seq<bv8>, i: nat)
    requires i < |data|
    ensures Checksum(data[..i + 1]) == Step(Checksum(data[..i]), data[i])
  {
    assert data[..i + 1][..i] == data[..i];
  }

  /** Appending its own CRC to a message gives CRC 0: the receiver's check. */
  lemma ChecksumOfCheckedMessage(data: seq<bv8>)
    ensures Checksum(data + [Checksum(data)]) == 0
  {
    ChecksumAppend(data, Checksum(data));
    TableZero();
  }

  /**
   * The polynomial fits in five bits and the register shifts right, so each
   * step clears one more of the top three bits and never sets them again.
   */
  lemma ShiftNarrows(r: bv8)
    ensures Shift(r) < 0x80
    ensures r < 0x80 ==> Shift(r) < 0x40
    ensures r < 0x40 ==> Shift(r) < 0x20
    ensures r < 0x20 ==> Shift(r) < 0x20
  {
  }

  /** Every table entry is below 32: the table holds at most 32 distinct values. */
  lemma TableEntryBelow32(d: bv8)
    ensures TableEntry(d) < 0x20
  {
    var k := 0;
    while k < 8
      invariant 0 <= k <= 8
      invariant k >= 1 ==> Remainder(d, k) < 0x80
      invariant k >= 2 ==> Remainder(d, k) < 0x40
      invariant k >= 3 ==> Remainder(d, k) < 0x20
    {
      ShiftNarrows(Remainder(d, k));
      k := k + 1;
    }
  }

  /**
   * Hence every CRC is below 32, so a CRC byte is never one of the framing
   * indicators 0xFC..0xFF.
   */
  lemma ChecksumBelow32(data: seq<bv8>)
    ensures Checksum(data) < 0x20
  {
    if |data| > 0 {
      StepIsLookup(Checksum(data[..|data| - 1]), data[|data| - 1]);
      TableEntryBelow32(data[|data| - 1] ^ Checksum(data[..|data| - 1]));
    }
  }

  /** The table and the flag that says whether it has been filled. */
  class Crc {
    var isTableComputed: bool   // is_table_computed
    const table: array<bv8>     // crc_table

    ghost predicate Valid()
      reads this, table
    {
      table.Length == 256 &&
      (isTableComputed ==> forall d :: 0 <= d < 256 ==> table[d] == TableEntry(d as bv8))
    }

    constructor ()
      ensures Valid() && !isTableComputed && fresh(table)
    {
      isTableComputed := false;
      table := new bv8[256];
    }

    /** crc_precompute_table: fill every entry, then set the flag. */
    method PrecomputeTable()
      requires table.Length == 256
      modifies this, table
      ensures Valid() && isTableComputed
      ensures forall d :: 0 <= d < 256 ==> table[d] == TableEntry(d as bv8)
    {
      for dividend := 0 to 256
        invariant forall d :: 0 <= d < dividend ==> table[d] == TableEntry(d as bv8)
      {
        var remainder: bv8 := dividend as bv8;
        for bit := 0 to 8
          invariant remainder == Remainder(dividend as bv8, bit)
        {
          if remainder & 0x01 != 0 {
            remainder := (remainder >> 1) ^ POLYNOMIAL;
          } else {
            remainder := remainder >> 1;
          }
        }
        table[dividend] := remainder;
      }
      isTableComputed := true;
    }

    /**
     * crc_compute(data, length): fills the table on first use only, then
     * folds data[0..length) through it. `data` itself is not changed.
     */
    method Compute(data: array<bv8>, length: nat) returns (crc: bv8)
      requires Valid() && length <= data.Length && data != table
      modifies this, table
      ensures Valid() && isTableComputed
      ensures old(isTableComputed) ==> unchanged(table)
      ensures crc == Checksum(data[..length])
    {
      if !isTableComputed {
        PrecomputeTable();
      }
      crc := 0;
      for index := 0 to length
        invariant crc == Checksum(data[..index])
        modifies {}
      {
        var value := table[data[index] ^ crc];
        ChecksumPrefix(data[..], index);
        assert data[..index + 1] == data[..][..index + 1] && data[..index] == data[..][..index];
        crc := Combine(value, crc);
      }
    }
  }
}
