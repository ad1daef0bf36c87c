/**
 * The host-side steps of notes2eeprom.py that build the EEPROM image: the
 * argument checks of main, is_power2, calc_crc, the chunk loop and
 * process_data, each as the loop the script runs, proved against the
 * functions of EepromImage and Framing.
 */
module Notes2Eeprom {
  import opened Framing
  import opened EepromImage
  import Crc8

  // ---------------------------------------------------------------------
  // is_power2

  /** Python's & on non-negative integers, bit by bit. */
  function BitAnd(a: nat, b: nat): nat
  {
    if a == 0 || b == 0 then 0
    else 2 * BitAnd(a / 2, b / 2) + (if a % 2 == 1 && b % 2 == 1 then 1 else 0)
  }

  /** The number of set bits. */
  function PopCount(n: nat): nat
  {
    if n == 0 then 0 else PopCount(n / 2) + n % 2
  }

  /** `a | b` on non-negative integers, bit by bit. */
  function BitOr(a: nat, b: nat): nat
  {
    if a == 0 then b
    else if b == 0 then a
    else 2 * BitOr(a / 2, b / 2) + (if a % 2 == 1 || b % 2 == 1 then 1 else 0)
  }

  /** `a & ~c` on non-negative integers: the bits of a that c does not have. */
  function BitAndNot(a: nat, c: nat): nat
  {
    if a == 0 then 0
    else 2 * BitAndNot(a / 2, c / 2) + (if a % 2 == 1 && c % 2 == 0 then 1 else 0)
  }

  /**
   * Python's & on any two integers, which act as two's complement with
   * infinitely many sign bits: a negative x is ~(-1 - x), so a & b is
   * written with BitAnd, BitAndNot or, for two negatives, De Morgan's law.
   */
  function IntAnd(a: int, b: int): int
  {
    if a >= 0 && b >= 0 then BitAnd(a, b)
    else if a >= 0 then BitAndNot(a, -1 - b)
    else if b >= 0 then BitAndNot(b, -1 - a)
    else -1 - BitOr(-1 - a, -1 - b)
  }

  /** is_power2(num): num != 0 and num & (num - 1) == 0, for any int num. */
  predicate IsPower2(num: int)
  {
    num != 0 && IntAnd(num, num - 1) == 0
  }

  lemma {:induction false} BitAndSelf(a: nat)
    ensures BitAnd(a, a) == a
  {
    if a > 0 {
      BitAndSelf(a / 2);
    }
  }

  lemma {:induction false} PopCountPositive(n: nat)
    requires n > 0
    ensures PopCount(n) >= 1
  {
    if n % 2 == 0 {
      PopCountPositive(n / 2);
    }
  }

  /** n & (n - 1) clears the lowest set bit, so it is 0 exactly when one bit is set. */
  lemma {:induction false} ClearLowestBit(n: nat)
    requires n > 0
    ensures BitAnd(n, n - 1) == 0 <==> PopCount(n) == 1
  {
    if n == 1 {
    } else if n % 2 == 1 {
      assert (n - 1) / 2 == n / 2 && (n - 1) % 2 == 0;
      BitAndSelf(n / 2);
      PopCountPositive(n / 2);
    } else {
      assert (n - 1) / 2 == n / 2 - 1 && (n - 1) % 2 == 1;
      ClearLowestBit(n / 2);
    }
  }

  /**
   * is_power2 holds exactly for the positive numbers with one set bit. A
   * negative num fails: num and num - 1 both carry the sign bit, so their
   * & is negative.
   */
  lemma IsPower2Iff(n: int)
    ensures IsPower2(n) <==> n > 0 && PopCount(n) == 1
  {
    if n > 0 {
      ClearLowestBit(n);
    }
  }

  // ---------------------------------------------------------------------
  // main's argument checks

  datatype ArgumentError = OddAddressStart | AddressStartNotBelowMemory | PageSizeAboveMemory
  datatype Warning = PageSizeNotPowerOf2 | LowMemory

  /** The error exits of lines 59-66, or the warnings of lines 78-84. */
  datatype ArgumentCheck = Rejected(error: ArgumentError) | Accepted(warnings: seq<Warning>)

  /**
   * main's checks on pagesize, address_start and size_memory, in the order
   * it makes them. argparse reads each with type=int, so any sign gets
   * here; Python's `address_start % 2` is 0 or 1 as Dafny's is.
   */
  function CheckArguments(pagesize: int, addressStart: int, sizeMemory: int): (r: ArgumentCheck)
    ensures r.Rejected? <==> addressStart % 2 == 1 || addressStart >= sizeMemory || pagesize > sizeMemory
    ensures r == Rejected(OddAddressStart) <==> addressStart % 2 == 1
    ensures r.Accepted? ==> addressStart % 2 == 0 && addressStart < sizeMemory && pagesize <= sizeMemory
    ensures r.Accepted? ==> (PageSizeNotPowerOf2 in r.warnings <==> !(pagesize > 0 && PopCount(pagesize) == 1))
    ensures r.Accepted? ==> (LowMemory in r.warnings <==> 10 * addressStart > sizeMemory)
  {
    IsPower2Iff(pagesize);
    if addressStart % 2 == 1 then Rejected(OddAddressStart)
    else if addressStart >= sizeMemory then Rejected(AddressStartNotBelowMemory)
    else if pagesize > sizeMemory then Rejected(PageSizeAboveMemory)
    else
      Accepted((if !IsPower2(pagesize) then [PageSizeNotPowerOf2] else []) +
               (if 10 * addressStart > sizeMemory then [LowMemory] else []))
  }

  /**
   * main's checks let every negative even address_start below size_memory
   * through, and process_data then stops at `bytearray(address_start)`
   * with a ValueError instead of an error message.
   */
  lemma NegativeAddressStartReachesProcessData(pagesize: int, addressStart: int, sizeMemory: int, songs: seq<Song>)
    requires addressStart < 0 && addressStart % 2 == 0 && addressStart < sizeMemory && pagesize <= sizeMemory
    ensures CheckArguments(pagesize, addressStart, sizeMemory).Accepted?
    ensures ImageOf(songs, addressStart, sizeMemory) == Err(NegativeTableSize(addressStart))
  {
  }

  /** address_start = -2 with the default pagesize and size_memory passes main's checks. */
  lemma DefaultsWithAddressStartMinus2()
    ensures CheckArguments(32, -2, 0x2000) == Accepted([])
    ensures ImageOf([], -2, 0x2000) == Err(NegativeTableSize(-2))
  {
    IsPower2Iff(32);
    assert PopCount(32) == 1 by {
      assert PopCount(1) == 1;
      assert PopCount(2) == 1;
      assert PopCount(4) == 1;
      assert PopCount(8) == 1;
      assert PopCount(16) == 1;
    }
  }

  /** A negative pagesize that passes the size check is never refused for its sign: it only draws the not-a-power-of-2 warning. */
  lemma NegativePageSizeOnlyWarns(pagesize: int, addressStart: int, sizeMemory: int)
    requires pagesize < 0 && pagesize <= sizeMemory && addressStart % 2 == 0 && addressStart < sizeMemory
    ensures CheckArguments(pagesize, addressStart, sizeMemory).Accepted?
    ensures PageSizeNotPowerOf2 in CheckArguments(pagesize, addressStart, sizeMemory).warnings
  {
  }

  // ---------------------------------------------------------------------
  // calc_crc and the chunk loop

  /** crc_table once crc_precompute_table has run (line 663, before main). */
  predicate CrcTableReady(crcTable: seq<bv8>)
  {
    |crcTable| == 256 && forall d :: 0 <= d < 256 ==> crcTable[d] == Crc8.TableEntry(d as bv8)
  }

  /** crc_precompute_table: fills the module's crc_table (a bytearray of 256) in place. */
  method CrcPrecomputeTable(crcTable: array<bv8>)
    requires crcTable.Length == 256
    modifies crcTable
    ensures CrcTableReady(crcTable[..])
  {
    var polynomial: bv8 := 0x1D;
    for dividend := 0 to 256
      invariant forall d :: 0 <= d < dividend ==> crcTable[d] == Crc8.TableEntry(d as bv8)
    {
      var remainder: bv8 := dividend as bv8;
      for bit := 0 to 8
        invariant remainder == Crc8.Remainder(dividend as bv8, bit)
      {
        if remainder & 0x01 != 0 {
          remainder := (remainder >> 1) ^ polynomial;
        } else {
          remainder := remainder >> 1;
        }
      }
      crcTable[dividend] := remainder;
    }
  }

  /**
   * calc_crc(list): crc is a Python int; `crc_table[...] ^ (crc << 8) & 0xFF`
   * parses as `crc_table[...] ^ ((crc << 8) & 0xFF)`.
   */
  method CalcCrc(list: seq<bv8>, crcTable: seq<bv8>) returns (crc: bv8)
    requires CrcTableReady(crcTable)
    ensures crc == Crc8.Checksum(list)
  {
    var c: bv16 := 0;
    for i := 0 to |list|
      invariant c < 256 && c as bv8 == Crc8.Checksum(list[..i])
    {
      var b := list[i];
      var value := crcTable[((b as bv16 ^ c) & 0xFF) as int];
      assert ((b as bv16 ^ c) & 0xFF) as bv8 == b ^ (c as bv8);
      Crc8.ChecksumAppend(list[..i], b);
      assert list[..i + 1] == list[..i] + [b];
      c := (value as bv16) ^ ((c << 8) & 0xFF);
      assert c == value as bv16;
    }
    assert list[..|list|] == list;
    crc := c as bv8;
  }

  /**
   * Lines 177-189: each chunk of at most 296 bytes gets its CRC, is escaped
   * and is closed by 0xFE; `count` is how many sections were added.
   */
  method SplitChannel(channel: seq<bv8>, crcTable: seq<bv8>) returns (splitChannel: seq<bv8>, count: nat)
    requires CrcTableReady(crcTable)
    ensures splitChannel == Framed(ChannelFrames(channel))
    ensures count == |ChannelFrames(channel)|
  {
    splitChannel := [];
    count := 0;
    var pieces := Chunks(channel, BUFFER_SIZE - 4);
    ghost var frames := ChannelFrames(channel);
    for k := 0 to |pieces|
      invariant count == k
      invariant splitChannel == Framed(frames[..k])
    {
      var chunk := pieces[k];
      var crc := CalcCrc(chunk, crcTable);
      chunk := chunk + [crc];
      var escaped := EscapeArray(chunk);
      splitChannel := splitChannel + escaped;
      splitChannel := splitChannel + [SECTION_INDICATOR];
      count := count + 1;
      assert frames[k] == chunk;
      FramedSnoc(frames, k);
    }
    assert frames[..|pieces|] == frames;
  }

  /** One more frame on the end of a prefix of frames. */
  lemma FramedSnoc(frames: seq<seq<bv8>>, k: nat)
    requires k < |frames|
    ensures Framed(frames[..k + 1]) == Framed(frames[..k]) + Escaped(frames[k]) + [SECTION_INDICATOR]
  {
    assert frames[..k + 1] == frames[..k] + [frames[k]];
    FramedAppend(frames[..k], [frames[k]]);
    assert Framed([frames[k]]) == Frame(frames[k]) + Framed([]);
  }

  // ---------------------------------------------------------------------
  // process_data

  /** A failure in one pass of the channel loop ends the song with that failure. */
  lemma SongStepsErr(b: Built, song: Song, c: nat, index: nat, addressStart: nat, sizeMemory: int)
    requires c <= NUMBER_OF_CHANNELS
    requires SongSteps(b, song, c, index, addressStart, sizeMemory).Err?
    ensures SongSteps(b, song, NUMBER_OF_CHANNELS, index, addressStart, sizeMemory) ==
      SongSteps(b, song, c, index, addressStart, sizeMemory)
  {
  }

  /** A failure after the first i songs is process_data's failure. */
  /** The outer loop's step: one more song is its two channel passes. */
  lemma SongsBuiltNext(songs: seq<Song>, i: nat, addressStart: nat, sizeMemory: int, b: Built)
    requires i < |songs| && SongsBuilt(songs[..i], addressStart, sizeMemory) == Ok(b)
    ensures SongsBuilt(songs[..i + 1], addressStart, sizeMemory) ==
      SongSteps(b, songs[i], NUMBER_OF_CHANNELS, i, addressStart, sizeMemory)
  {
    assert songs[..i + 1][..i] == songs[..i];
  }

  lemma {:induction false} SongsBuiltErr(songs: seq<Song>, i: nat, addressStart: nat, sizeMemory: int)
    requires i <= |songs|
    requires SongsBuilt(songs[..i], addressStart, sizeMemory).Err?
    ensures SongsBuilt(songs, addressStart, sizeMemory) == SongsBuilt(songs[..i], addressStart, sizeMemory)
    decreases |songs| - i
  {
    if i < |songs| {
      assert songs[..|songs| - 1][..i] == songs[..i];
      SongsBuiltErr(songs[..|songs| - 1], i, addressStart, sizeMemory);
    } else {
      assert songs[..i] == songs;
    }
  }

  /**
   * One pass of the channel loop (lines 141-192) on the table in place and
   * the other loop variables; `error` is the exit it takes, if any.
   */
  method ChannelPass(table: array<bv8>, song: Song, c: nat, index: nat, addressStart: nat, sizeMemory: int,
                     crcTable: seq<bv8>, values: seq<bv8>, offset: nat, entries: nat, sections: nat)
    returns (error: Option<Error>, values': seq<bv8>, offset': nat, entries': nat, sections': nat)
    requires CrcTableReady(crcTable)
    modifies table
    ensures var before := Built(old(table[..]), values, offset, entries, sections);
      ChannelStep(before, song, c, index, addressStart, sizeMemory) ==
      if error.Some? then Err(error.value) else Ok(Built(table[..], values', offset', entries', sections'))
  {
    values', offset', entries', sections' := values, offset, entries, sections;
    var channel := Channel(song, c);
    if channel.None? {
      if c > 0 {
        // Copy the previous offset into the table.
        if TABLE_ADDRESS_SIZE * (entries + 1) + 1 >= table.Length {
          return Some(TableIndexOutOfRange), values', offset', entries', sections';
        }
        table[TABLE_ADDRESS_SIZE * (entries + 1)] := table[TABLE_ADDRESS_SIZE * entries];
        table[TABLE_ADDRESS_SIZE * (entries + 1) + 1] := table[TABLE_ADDRESS_SIZE * entries + 1];
        entries' := entries + 1;
        return None, values', offset', entries', sections';
      }
      return Some(MissingChannelA(index)), values', offset', entries', sections';
    }
    var data := channel.value;
    if offset >= PACK_LIMIT {
      return Some(NotPackable(offset)), values', offset', entries', sections';
    }
    var offsetBytes := LE16(offset);
    offset' := offset + |data|;
    if offset' > sizeMemory {
      return Some(MemoryExceeded(offset')), values', offset', entries', sections';
    }
    entries' := entries + 1;
    if (entries' + 1) * TABLE_ADDRESS_SIZE >= addressStart {
      return Some(EntriesExceeded(entries')), values', offset', entries', sections';
    }
    if TABLE_ADDRESS_SIZE * entries' + 1 >= table.Length {
      return Some(TableIndexOutOfRange), values', offset', entries', sections';
    }
    table[TABLE_ADDRESS_SIZE * entries'] := offsetBytes[0];
    table[TABLE_ADDRESS_SIZE * entries' + 1] := offsetBytes[1];
    var splitChannel, count := SplitChannel(data, crcTable);
    sections' := sections + count;
    values' := values + splitChannel;
    error := None;
  }

  /** The two byte writes `table[at] = v[0]; table[at + 1] = v[1]`. */
  method Write16(table: array<bv8>, at: nat, v: seq<bv8>)
    requires at + 1 < table.Length && |v| == 2
    modifies table
    ensures table[..] == Put16(old(table[..]), at, v)
  {
    table[at] := v[0];
    table[at + 1] := v[1];
  }

  /** The two inserts at index 0 put the section count in front. */
  lemma Prepend16(image: seq<bv8>, v: seq<bv8>, t: seq<bv8>, crc: bv8)
    requires |v| == 2 && image == [v[0]] + ([v[1]] + (t + [crc]))
    ensures image == v + t + [crc]
  {
  }

  /** Finish's three exits. */
  lemma FinishErrors(b: Built)
    ensures b.offset >= PACK_LIMIT ==> Finish(b) == Err(NotPackable(b.offset))
    ensures b.offset < PACK_LIMIT && TABLE_ADDRESS_SIZE * (b.entries + 1) + 1 >= |b.table| ==>
      Finish(b) == Err(TableIndexOutOfRange)
    ensures b.offset < PACK_LIMIT && TABLE_ADDRESS_SIZE * (b.entries + 1) + 1 < |b.table| && b.sections + 1 >= PACK_LIMIT ==>
      Finish(b) == Err(NotPackable(b.sections + 1))
  {
  }

  /** Finish when neither packing nor the table index fails. */
  lemma FinishValue(b: Built, table: seq<bv8>, header: seq<bv8>)
    requires b.offset < PACK_LIMIT && TABLE_ADDRESS_SIZE * (b.entries + 1) + 1 < |b.table| && b.sections + 1 < PACK_LIMIT
    requires table == Put16(Put16(b.table, 2 * (b.entries + 1), LE16(b.offset)), 0, LE16((b.entries + 1) / 2))
    requires header == LE16(b.sections + 1) + table + [Crc8.Checksum(table)]
    ensures Finish(b) == Ok(Frame(header) + b.values)
  {
  }

  /**
   * Lines 194-232: the end offset and the song count go into the table, the
   * table gets its CRC and, in front, the section count; the whole is
   * escaped, closed by 0xFE and followed by the value sections.
   */
  method FinishImage(table: array<bv8>, crcTable: seq<bv8>, values: seq<bv8>, offset: nat, entries: nat, sections: nat)
    returns (r: Result<seq<bv8>>)
    requires CrcTableReady(crcTable)
    modifies table
    ensures r == Finish(Built(old(table[..]), values, offset, entries, sections))
  {
    ghost var b := Built(table[..], values, offset, entries, sections);
    FinishErrors(b);
    var entries' := entries + 1;
    if offset >= PACK_LIMIT {
      return Err(NotPackable(offset));
    }
    var offsetBytes := LE16(offset);
    if TABLE_ADDRESS_SIZE * entries' + 1 >= table.Length {
      return Err(TableIndexOutOfRange);
    }
    Write16(table, TABLE_ADDRESS_SIZE * entries', offsetBytes);
    var songCount := LE16(entries' / NUMBER_OF_CHANNELS);
    Write16(table, 0, songCount);
    var t := table[..];
    var crc := CalcCrc(t, crcTable);
    var image := t + [crc];
    var sections' := sections + 1;
    if sections' >= PACK_LIMIT {
      return Err(NotPackable(sections'));
    }
    var sectionBytes := LE16(sections');
    image := [sectionBytes[1]] + image;
    image := [sectionBytes[0]] + image;
    Prepend16(image, sectionBytes, t, crc);
    FinishValue(b, t, image);
    image := EscapeArray(image);
    image := image + [SECTION_INDICATOR];
    image := image + values;
    return Ok(image);
  }

  /**
   * process_data(data, address_start, size_memory): the image, or the exit
   * it takes. `crcTable` is the module's crc_table.
   */
  method ProcessData(data: seq<Song>, addressStart: int, sizeMemory: int, crcTable: seq<bv8>)
    returns (r: Result<seq<bv8>>)
    requires CrcTableReady(crcTable)
    ensures r == ImageOf(data, addressStart, sizeMemory)
  {
    if addressStart < 0 {
      // bytearray(address_start) raises ValueError
      return Err(NegativeTableSize(addressStart));
    }
    var table := new bv8[addressStart](_ => 0);
    var values: seq<bv8> := [];
    var offset: nat := addressStart;
    var entries := 0;
    var sections := 0;
    assert table[..] == Zeros(addressStart);
    for index := 0 to |data|
      invariant SongsBuilt(data[..index], addressStart, sizeMemory) == Ok(Built(table[..], values, offset, entries, sections))
    {
      ghost var start := Built(table[..], values, offset, entries, sections);
      SongsBuiltNext(data, index, addressStart, sizeMemory, start);
      for c := 0 to NUMBER_OF_CHANNELS
        invariant SongSteps(start, data[index], c, index, addressStart, sizeMemory) ==
          Ok(Built(table[..], values, offset, entries, sections))
      {
        var error;
        error, values, offset, entries, sections :=
          ChannelPass(table, data[index], c, index, addressStart, sizeMemory, crcTable, values, offset, entries, sections);
        if error.Some? {
          SongStepsErr(start, data[index], c + 1, index, addressStart, sizeMemory);
          SongsBuiltErr(data, index + 1, addressStart, sizeMemory);
          return Err(error.value);
        }
      }
    }
    assert data[..|data|] == data;
    r := FinishImage(table, crcTable, values, offset, entries, sections);
  }
}
