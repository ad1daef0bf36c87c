/**
 * The EEPROM image that notes2eeprom.py's process_data builds from a list
 * of songs: a table section (section count, song count, one little-endian
 * start offset per channel, the end offset, zero padding up to
 * address_start, and the table's CRC), followed by the channel bytes cut
 * into chunks of at most 296 bytes, each with its CRC. Every section is
 * escaped and closed by 0xFE.
 *
 * The functions below follow process_data step by step (Built is the state
 * of its loop); TableOf and ExpectedImage describe the same image in closed
 * form, and the lemmas connect the two.
 */
module EepromImage {
  import opened Framing
  import Crc8

  const TABLE_ADDRESS_SIZE: nat := 2
  const NUMBER_OF_CHANNELS: nat := 2
  const BUFFER_SIZE: nat := 300
  /** The data bytes per value section: BUFFER_SIZE - 4. */
  const CHUNK_SIZE: nat := BUFFER_SIZE - 4
  /** struct.pack("I", v) fails from here on. */
  const PACK_LIMIT: nat := 0x1_0000_0000

  datatype Option<T> = None | Some(value: T)

  /** One entry of the JSON song list: Channel_A and Channel_B, either of which may be missing. */
  datatype Song = Song(channelA: Option<seq<bv8>>, channelB: Option<seq<bv8>>)

  /** Channel_A for c = 0, Channel_B for c = 1. */
  function Channel(song: Song, c: nat): Option<seq<bv8>>
  {
    if c == 0 then song.channelA else song.channelB
  }

  /**
   * Why process_data stops: the ValueError of `bytearray(address_start)` for
   * a negative address_start, the error exits of lines 155, 167 and 171, an
   * IndexError, or a struct.error.
   */
  datatype Error =
    | NegativeTableSize(addressStart: int)
    | MissingChannelA(song: nat)
    | MemoryExceeded(offset: nat)
    | EntriesExceeded(entries: nat)
    | TableIndexOutOfRange
    | NotPackable(value: nat)

  datatype Result<T> = Ok(value: T) | Err(error: Error)

  /** The state of process_data's loop: table, values, offset, entries and sections. */
  datatype Built = Built(table: seq<bv8>, values: seq<bv8>, offset: nat, entries: nat, sections: nat)

  /**
   * The two bytes of struct.pack("I", v) that are copied: its low 16 bits,
   * little-endian. "I" packs in the host's native byte order, so this is
   * the image a little-endian host writes, as the firmware expects.
   */
  function LE16(v: nat): (r: seq<bv8>)
    ensures |r| == 2
  {
    [(v % 256) as bv8, (v / 256 % 256) as bv8]
  }

  /** Writes two bytes at `at`. */
  function Put16(t: seq<bv8>, at: nat, v: seq<bv8>): (r: seq<bv8>)
    requires at + 1 < |t| && |v| == 2
    ensures |r| == |t|
  {
    t[at := v[0]][at + 1 := v[1]]
  }

  function Zeros(n: nat): (r: seq<bv8>)
    ensures |r| == n && forall i :: 0 <= i < n ==> r[i] == 0
  {
    seq(n, _ => 0)
  }

  /** A chunk with its CRC appended. */
  function Checked(c: seq<bv8>): seq<bv8>
  {
    c + [Crc8.Checksum(c)]
  }

  /** The contents of the value sections of one channel. */
  function ChannelFrames(channel: seq<bv8>): seq<seq<bv8>>
  {
    var pieces := Chunks(channel, CHUNK_SIZE);
    seq(|pieces|, i requires 0 <= i < |pieces| => Checked(pieces[i]))
  }

  /** Lines 157-192: one present channel. */
  function AddChannel(b: Built, channel: seq<bv8>, addressStart: nat, sizeMemory: int): Result<Built>
  {
    if b.offset >= PACK_LIMIT then Err(NotPackable(b.offset))
    else
      var offset := b.offset + |channel|;
      var entries := b.entries + 1;
      if offset > sizeMemory then Err(MemoryExceeded(offset))
      else if (entries + 1) * TABLE_ADDRESS_SIZE >= addressStart then Err(EntriesExceeded(entries))
      else if TABLE_ADDRESS_SIZE * entries + 1 >= |b.table| then Err(TableIndexOutOfRange)
      else
        var frames := ChannelFrames(channel);
        Ok(Built(Put16(b.table, TABLE_ADDRESS_SIZE * entries, LE16(b.offset)),
                 b.values + Framed(frames), offset, entries, b.sections + |frames|))
  }

  /** Lines 145-153: a missing Channel_B repeats the previous table entry. */
  function CopyEntry(b: Built): Result<Built>
  {
    var from := TABLE_ADDRESS_SIZE * b.entries;
    var to := TABLE_ADDRESS_SIZE * (b.entries + 1);
    if to + 1 >= |b.table| then Err(TableIndexOutOfRange)
    else Ok(b.(table := Put16(b.table, to, [b.table[from], b.table[from + 1]]), entries := b.entries + 1))
  }

  /** One pass of the channel loop of lines 140-192. */
  function ChannelStep(b: Built, song: Song, c: nat, index: nat, addressStart: nat, sizeMemory: int): Result<Built>
  {
    match Channel(song, c)
    case Some(channel) => AddChannel(b, channel, addressStart, sizeMemory)
    case None => if c > 0 then CopyEntry(b) else Err(MissingChannelA(index))
  }

  /** The first c passes of the channel loop for one song. */
  function SongSteps(b: Built, song: Song, c: nat, index: nat, addressStart: nat, sizeMemory: int): Result<Built>
  {
    if c == 0 then Ok(b)
    else match SongSteps(b, song, c - 1, index, addressStart, sizeMemory)
      case Err(e) => Err(e)
      case Ok(b') => ChannelStep(b', song, c - 1, index, addressStart, sizeMemory)
  }

  /** The state before the song loop: a zeroed table of address_start bytes. */
  function Initial(addressStart: nat): Built
  {
    Built(Zeros(addressStart), [], addressStart, 0, 0)
  }

  /** The song loop of lines 133-192 over the given songs. */
  function SongsBuilt(songs: seq<Song>, addressStart: nat, sizeMemory: int): Result<Built>
  {
    if |songs| == 0 then Ok(Initial(addressStart))
    else match SongsBuilt(songs[..|songs| - 1], addressStart, sizeMemory)
      case Err(e) => Err(e)
      case Ok(b) => SongSteps(b, songs[|songs| - 1], NUMBER_OF_CHANNELS, |songs| - 1, addressStart, sizeMemory)
  }

  /** Lines 194-232: end offset, song count, table CRC, section count, escaping and the values. */
  function Finish(b: Built): Result<seq<bv8>>
  {
    var entries := b.entries + 1;
    if b.offset >= PACK_LIMIT then Err(NotPackable(b.offset))
    else if TABLE_ADDRESS_SIZE * entries + 1 >= |b.table| then Err(TableIndexOutOfRange)
    else
      var withEnd := Put16(b.table, TABLE_ADDRESS_SIZE * entries, LE16(b.offset));
      var table := Put16(withEnd, 0, LE16(entries / NUMBER_OF_CHANNELS));
      var sections := b.sections + 1;
      if sections >= PACK_LIMIT then Err(NotPackable(sections))
      else Ok(Frame(LE16(sections) + table + [Crc8.Checksum(table)]) + b.values)
  }

  /** process_data(data, address_start, size_memory). */
  function ImageOf(songs: seq<Song>, addressStart: int, sizeMemory: int): Result<seq<bv8>>
  {
    if addressStart < 0 then Err(NegativeTableSize(addressStart))
    else match SongsBuilt(songs, addressStart, sizeMemory)
    case Err(e) => Err(e)
    case Ok(b) => Finish(b)
  }

  // ---------------------------------------------------------------------
  // The layout in closed form

  function Length(o: Option<seq<bv8>>): nat
  {
    if o.Some? then |o.value| else 0
  }

  /** The number of channel bytes in the songs. */
  function Total(songs: seq<Song>): nat
  {
    if |songs| == 0 then 0
    else Total(songs[..|songs| - 1]) + Length(songs[|songs| - 1].channelA) + Length(songs[|songs| - 1].channelB)
  }

  /**
   * The offsets of table entries 1 .. 2n: per song, where its Channel_A
   * starts, and where its Channel_B starts, or Channel_A's start again when
   * Channel_B is missing.
   */
  function Offsets(songs: seq<Song>, addressStart: nat): (r: seq<nat>)
    ensures |r| == 2 * |songs|
  {
    if |songs| == 0 then []
    else
      var song := songs[|songs| - 1];
      var a := addressStart + Total(songs[..|songs| - 1]);
      Offsets(songs[..|songs| - 1], addressStart) + [a, if song.channelB.Some? then a + Length(song.channelA) else a]
  }

  /** Entries as consecutive little-endian 16-bit values. */
  function Encode(es: seq<nat>): (r: seq<bv8>)
    ensures |r| == 2 * |es|
  {
    if |es| == 0 then [] else Encode(es[..|es| - 1]) + LE16(es[|es| - 1])
  }

  function FramesOf(o: Option<seq<bv8>>): seq<seq<bv8>>
  {
    if o.Some? then ChannelFrames(o.value) else []
  }

  /** The contents of all value sections, in order. */
  function AllFrames(songs: seq<Song>): seq<seq<bv8>>
  {
    if |songs| == 0 then []
    else AllFrames(songs[..|songs| - 1]) + FramesOf(songs[|songs| - 1].channelA) + FramesOf(songs[|songs| - 1].channelB)
  }

  /**
   * The table as stored: song count, the 2n channel offsets, the end
   * offset, then zeros up to address_start.
   */
  function TableOf(songs: seq<Song>, addressStart: nat): seq<bv8>
    requires 4 * |songs| + 4 <= addressStart
  {
    LE16(|songs|) + Encode(Offsets(songs, addressStart)) + LE16(addressStart + Total(songs)) +
    Zeros(addressStart - 4 * |songs| - 4)
  }

  /** The table section's content: section count, table, table CRC. */
  function Header(songs: seq<Song>, addressStart: nat): seq<bv8>
    requires 4 * |songs| + 4 <= addressStart
  {
    var table := TableOf(songs, addressStart);
    LE16(|AllFrames(songs)| + 1) + table + [Crc8.Checksum(table)]
  }

  /** The whole image: the table section, then one section per chunk. */
  function ExpectedImage(songs: seq<Song>, addressStart: nat): seq<bv8>
    requires 4 * |songs| + 4 <= addressStart
  {
    Frame(Header(songs, addressStart)) + Framed(AllFrames(songs))
  }

  /** The loop state after the given songs, in closed form. */
  predicate LaidOut(b: Built, songs: seq<Song>, addressStart: nat)
  {
    b.offset == addressStart + Total(songs) && b.entries == 2 * |songs| &&
    b.values == Framed(AllFrames(songs)) && b.sections == |AllFrames(songs)| &&
    (if |songs| == 0 then b.table == Zeros(addressStart)
     else (4 * |songs| + 2 <= addressStart &&
           b.table == [0, 0] + Encode(Offsets(songs, addressStart)) + Zeros(addressStart - 2 - 4 * |songs|)))
  }

  // ---------------------------------------------------------------------
  // Lemmas

  lemma EncodeAppend(es: seq<nat>, x: nat)
    ensures Encode(es + [x]) == Encode(es) + LE16(x)
  {
    assert (es + [x])[..|es|] == es;
  }

  /** Entry j of an encoded list sits at bytes 2j and 2j+1. */
  lemma {:induction false} EncodeAt(es: seq<nat>, j: nat)
    requires j < |es|
    ensures Encode(es)[2 * j..2 * j + 2] == LE16(es[j])
    decreases |es|
  {
    if j < |es| - 1 {
      EncodeAt(es[..|es| - 1], j);
      assert Encode(es)[..2 * |es| - 2] == Encode(es[..|es| - 1]);
    }
  }

  /** Writing two bytes right after a prefix into zeros. */
  lemma PutAfter(p: seq<bv8>, v: seq<bv8>, r: nat)
    requires |v| == 2 && r >= 2
    ensures Put16(p + Zeros(r), |p|, v) == p + v + Zeros(r - 2)
  {
  }

  /** Writing two bytes at the front. */
  lemma PutFront(v: seq<bv8>, rest: seq<bv8>)
    requires |v| == 2 && |rest| >= 2
    ensures Put16([0, 0] + rest, 0, v) == v + rest
  {
  }

  /** Writing entry 2n, v, after the entries e + a of a table of address_start bytes. */
  lemma AppendEntry(e: seq<bv8>, a: seq<bv8>, v: seq<bv8>, n: nat, addressStart: nat, t1: seq<bv8>, table: seq<bv8>)
    requires |e| + 4 == 4 * n && |a| == 2 && |v| == 2 && 4 * n + 2 <= addressStart
    requires t1 == [0, 0] + e + a + Zeros(addressStart - 4 * n)
    requires table == Put16(t1, 4 * n, v)
    ensures table == [0, 0] + (e + a + v) + Zeros(addressStart - 2 - 4 * n)
  {
    PutAfter([0, 0] + e + a, v, addressStart - 4 * n);
  }

  /** The last two bytes before the padding are the entry a. */
  lemma CopiedEntry(e: seq<bv8>, a: seq<bv8>, z: seq<bv8>, t: seq<bv8>)
    requires |a| == 2 && t == [0, 0] + e + a + z
    ensures [t[|e| + 2], t[|e| + 3]] == a
  {
    SliceAfter([0, 0] + e, a, z);
  }

  /** The slice that sits right after a prefix. */
  lemma SliceAfter(p: seq<bv8>, v: seq<bv8>, z: seq<bv8>)
    requires |v| == 2
    ensures (p + v + z)[|p|] == v[0] && (p + v + z)[|p| + 1] == v[1]
  {
  }

  /** Each song adds two offsets: where its Channel_A starts, and bStart, where its Channel_B starts or A's start again. */
  lemma SongOffsets(songs: seq<Song>, addressStart: nat, bStart: nat)
    requires |songs| > 0
    requires bStart == if songs[|songs| - 1].channelB.Some?
      then addressStart + Total(songs[..|songs| - 1]) + Length(songs[|songs| - 1].channelA)
      else addressStart + Total(songs[..|songs| - 1])
    ensures Encode(Offsets(songs, addressStart)) ==
      Encode(Offsets(songs[..|songs| - 1], addressStart)) + LE16(addressStart + Total(songs[..|songs| - 1])) + LE16(bStart)
  {
    var o := Offsets(songs[..|songs| - 1], addressStart);
    var a := addressStart + Total(songs[..|songs| - 1]);
    assert Offsets(songs, addressStart) == (o + [a]) + [bStart];
    EncodeAppend(o + [a], bStart);
    EncodeAppend(o, a);
  }

  /** What a successful AddChannel did. */
  lemma AddChannelOk(b: Built, channel: seq<bv8>, addressStart: nat, sizeMemory: int, b1: Built)
    requires AddChannel(b, channel, addressStart, sizeMemory) == Ok(b1)
    ensures (b.entries + 2) * 2 < addressStart && 2 * (b.entries + 1) + 1 < |b.table|
    ensures b1 == Built(Put16(b.table, 2 * (b.entries + 1), LE16(b.offset)),
                        b.values + Framed(ChannelFrames(channel)), b.offset + |channel|,
                        b.entries + 1, b.sections + |ChannelFrames(channel)|)
  {
  }

  /** What a successful CopyEntry did. */
  lemma CopyEntryOk(b: Built, b1: Built)
    requires CopyEntry(b) == Ok(b1)
    ensures 2 * (b.entries + 1) + 1 < |b.table|
    ensures b1 == b.(table := Put16(b.table, 2 * (b.entries + 1), [b.table[2 * b.entries], b.table[2 * b.entries + 1]]),
                     entries := b.entries + 1)
  {
  }

  /** The table after Channel_A of song k: k songs' offsets and Channel_A's start. */
  lemma ChannelATable(b: Built, songs: seq<Song>, addressStart: nat, table: seq<bv8>)
    requires |songs| > 0
    requires LaidOut(b, songs[..|songs| - 1], addressStart)
    requires (b.entries + 2) * 2 < addressStart && 2 * (b.entries + 1) + 1 < |b.table|
    requires table == Put16(b.table, 2 * (b.entries + 1), LE16(b.offset))
    ensures 4 * |songs| < addressStart
    ensures table == [0, 0] + Encode(Offsets(songs[..|songs| - 1], addressStart)) +
      LE16(addressStart + Total(songs[..|songs| - 1])) + Zeros(addressStart - 4 * |songs|)
  {
    var prefix := songs[..|songs| - 1];
    LaidOutTable(b, prefix, addressStart);
    PutAfter([0, 0] + Encode(Offsets(prefix, addressStart)), LE16(b.offset), addressStart - 2 - 4 * |prefix|);
  }

  /** A laid-out table is the zero count, the entries so far, then zeros. */
  lemma LaidOutTable(b: Built, songs: seq<Song>, addressStart: nat)
    requires LaidOut(b, songs, addressStart) && 4 * |songs| + 2 <= addressStart
    ensures b.table == [0, 0] + Encode(Offsets(songs, addressStart)) + Zeros(addressStart - 2 - 4 * |songs|)
  {
    if |songs| == 0 {
      assert Zeros(addressStart) == [0, 0] + Encode([]) + Zeros(addressStart - 2);
    }
  }

  /** The frames of one more song follow the earlier frames. */
  lemma SongFrames(songs: seq<Song>)
    requires |songs| > 0
    ensures var prefix := songs[..|songs| - 1];
      var song := songs[|songs| - 1];
      Framed(AllFrames(songs)) ==
        Framed(AllFrames(prefix)) + Framed(FramesOf(song.channelA)) + Framed(FramesOf(song.channelB)) &&
      |AllFrames(songs)| == |AllFrames(prefix)| + |FramesOf(song.channelA)| + |FramesOf(song.channelB)|
  {
    var prefix := songs[..|songs| - 1];
    var song := songs[|songs| - 1];
    FramedAppend(AllFrames(prefix), FramesOf(song.channelA));
    FramedAppend(AllFrames(prefix) + FramesOf(song.channelA), FramesOf(song.channelB));
  }

  /** The state after Channel_A of the last song has been added. */
  predicate AfterChannelA(b1: Built, songs: seq<Song>, addressStart: nat)
    requires |songs| > 0
  {
    4 * |songs| < addressStart &&
    b1.offset == addressStart + Total(songs[..|songs| - 1]) + Length(songs[|songs| - 1].channelA) &&
    b1.entries == 2 * |songs| - 1 &&
    b1.values == Framed(AllFrames(songs[..|songs| - 1])) + Framed(FramesOf(songs[|songs| - 1].channelA)) &&
    b1.sections == |AllFrames(songs[..|songs| - 1])| + |FramesOf(songs[|songs| - 1].channelA)| &&
    b1.table == [0, 0] + Encode(Offsets(songs[..|songs| - 1], addressStart)) +
      LE16(addressStart + Total(songs[..|songs| - 1])) + Zeros(addressStart - 4 * |songs|)
  }

  /** The first pass of the channel loop adds Channel_A's start as entry 2k+1. */
  lemma ChannelAStep(b: Built, songs: seq<Song>, addressStart: nat, sizeMemory: int, b1: Built)
    requires |songs| > 0 && songs[|songs| - 1].channelA.Some?
    requires LaidOut(b, songs[..|songs| - 1], addressStart)
    requires AddChannel(b, songs[|songs| - 1].channelA.value, addressStart, sizeMemory) == Ok(b1)
    ensures AfterChannelA(b1, songs, addressStart)
  {
    AddChannelOk(b, songs[|songs| - 1].channelA.value, addressStart, sizeMemory, b1);
    ChannelATable(b, songs, addressStart, b1.table);
  }

  /** The table after the second pass: entry 2k+2 is Channel_B's start, or a copy of entry 2k+1. */
  lemma ChannelBStepTable(b1: Built, songs: seq<Song>, addressStart: nat, sizeMemory: int, b2: Built)
    requires |songs| > 0 && AfterChannelA(b1, songs, addressStart)
    requires ChannelStep(b1, songs[|songs| - 1], 1, |songs| - 1, addressStart, sizeMemory) == Ok(b2)
    ensures 4 * |songs| + 2 <= addressStart
    ensures b2.table == [0, 0] + Encode(Offsets(songs, addressStart)) + Zeros(addressStart - 2 - 4 * |songs|)
  {
    if songs[|songs| - 1].channelB.Some? {
      assert ChannelStep(b1, songs[|songs| - 1], 1, |songs| - 1, addressStart, sizeMemory) ==
        AddChannel(b1, songs[|songs| - 1].channelB.value, addressStart, sizeMemory);
      AddChannelOk(b1, songs[|songs| - 1].channelB.value, addressStart, sizeMemory, b2);
      AddedTable(b1, songs, addressStart, b2.table);
    } else {
      assert ChannelStep(b1, songs[|songs| - 1], 1, |songs| - 1, addressStart, sizeMemory) == CopyEntry(b1);
      CopyEntryOk(b1, b2);
      CopiedTable(b1, songs, addressStart, b2.table);
    }
  }

  /** A present Channel_B: its start becomes entry 2k+2. */
  lemma AddedTable(b1: Built, songs: seq<Song>, addressStart: nat, table: seq<bv8>)
    requires |songs| > 0 && AfterChannelA(b1, songs, addressStart)
    requires songs[|songs| - 1].channelB.Some?
    requires (b1.entries + 2) * 2 < addressStart && 2 * (b1.entries + 1) + 1 < |b1.table|
    requires table == Put16(b1.table, 2 * (b1.entries + 1), LE16(b1.offset))
    ensures 4 * |songs| + 2 <= addressStart
    ensures table == [0, 0] + Encode(Offsets(songs, addressStart)) + Zeros(addressStart - 2 - 4 * |songs|)
  {
    assert 2 * (b1.entries + 1) == 4 * |songs|;
    assert |Encode(Offsets(songs[..|songs| - 1], addressStart))| + 4 == 4 * |songs|;
    AppendEntry(Encode(Offsets(songs[..|songs| - 1], addressStart)), LE16(addressStart + Total(songs[..|songs| - 1])),
                LE16(b1.offset), |songs|, addressStart, b1.table, table);
    SongOffsets(songs, addressStart, b1.offset);
    assert Encode(Offsets(songs, addressStart)) == Encode(Offsets(songs[..|songs| - 1], addressStart)) +
      LE16(addressStart + Total(songs[..|songs| - 1])) + LE16(b1.offset);
    assert table == [0, 0] + (Encode(Offsets(songs[..|songs| - 1], addressStart)) +
      LE16(addressStart + Total(songs[..|songs| - 1])) + LE16(b1.offset)) + Zeros(addressStart - 2 - 4 * |songs|);
  }

  /** A missing Channel_B: entry 2k+1 is copied to entry 2k+2. */
  lemma CopiedTable(b1: Built, songs: seq<Song>, addressStart: nat, table: seq<bv8>)
    requires |songs| > 0 && AfterChannelA(b1, songs, addressStart)
    requires songs[|songs| - 1].channelB.None?
    requires 2 * (b1.entries + 1) + 1 < |b1.table|
    requires table == Put16(b1.table, 2 * (b1.entries + 1), [b1.table[2 * b1.entries], b1.table[2 * b1.entries + 1]])
    ensures 4 * |songs| + 2 <= addressStart
    ensures table == [0, 0] + Encode(Offsets(songs, addressStart)) + Zeros(addressStart - 2 - 4 * |songs|)
  {
    assert 2 * (b1.entries + 1) == 4 * |songs| && 2 * b1.entries == 4 * |songs| - 2;
    assert |Encode(Offsets(songs[..|songs| - 1], addressStart))| + 4 == 4 * |songs|;
    CopiedEntry(Encode(Offsets(songs[..|songs| - 1], addressStart)), LE16(addressStart + Total(songs[..|songs| - 1])),
                Zeros(addressStart - 4 * |songs|), b1.table);
    AppendEntry(Encode(Offsets(songs[..|songs| - 1], addressStart)), LE16(addressStart + Total(songs[..|songs| - 1])),
                LE16(addressStart + Total(songs[..|songs| - 1])), |songs|, addressStart, b1.table, table);
    SongOffsets(songs, addressStart, addressStart + Total(songs[..|songs| - 1]));
    assert Encode(Offsets(songs, addressStart)) == Encode(Offsets(songs[..|songs| - 1], addressStart)) +
      LE16(addressStart + Total(songs[..|songs| - 1])) + LE16(addressStart + Total(songs[..|songs| - 1]));
    assert table == [0, 0] + (Encode(Offsets(songs[..|songs| - 1], addressStart)) +
      LE16(addressStart + Total(songs[..|songs| - 1])) + LE16(addressStart + Total(songs[..|songs| - 1]))) +
      Zeros(addressStart - 2 - 4 * |songs|);
  }

  /** The other fields after the second pass. */
  lemma ChannelBStepFields(b1: Built, songs: seq<Song>, addressStart: nat, sizeMemory: int, b2: Built)
    requires |songs| > 0 && AfterChannelA(b1, songs, addressStart)
    requires ChannelStep(b1, songs[|songs| - 1], 1, |songs| - 1, addressStart, sizeMemory) == Ok(b2)
    ensures b2.offset == addressStart + Total(songs) && b2.entries == 2 * |songs|
    ensures b2.values == Framed(AllFrames(songs)) && b2.sections == |AllFrames(songs)|
  {
    if songs[|songs| - 1].channelB.Some? {
      assert ChannelStep(b1, songs[|songs| - 1], 1, |songs| - 1, addressStart, sizeMemory) ==
        AddChannel(b1, songs[|songs| - 1].channelB.value, addressStart, sizeMemory);
      AddChannelOk(b1, songs[|songs| - 1].channelB.value, addressStart, sizeMemory, b2);
    } else {
      assert ChannelStep(b1, songs[|songs| - 1], 1, |songs| - 1, addressStart, sizeMemory) == CopyEntry(b1);
      CopyEntryOk(b1, b2);
    }
    SongFrames(songs);
  }

  /** A song that goes through the channel loop keeps the closed form. */
  lemma SongStep(b: Built, songs: seq<Song>, addressStart: nat, sizeMemory: int)
    requires |songs| > 0
    requires LaidOut(b, songs[..|songs| - 1], addressStart)
    requires SongSteps(b, songs[|songs| - 1], NUMBER_OF_CHANNELS, |songs| - 1, addressStart, sizeMemory).Ok?
    ensures LaidOut(SongSteps(b, songs[|songs| - 1], NUMBER_OF_CHANNELS, |songs| - 1, addressStart, sizeMemory).value, songs, addressStart)
  {
    SongStepsUnfold(b, songs[|songs| - 1], |songs| - 1, addressStart, sizeMemory);
    var r1 := ChannelStep(b, songs[|songs| - 1], 0, |songs| - 1, addressStart, sizeMemory);
    assert songs[|songs| - 1].channelA.Some?;
    assert r1 == AddChannel(b, songs[|songs| - 1].channelA.value, addressStart, sizeMemory);
    ChannelAStep(b, songs, addressStart, sizeMemory, r1.value);
    var r2 := ChannelStep(r1.value, songs[|songs| - 1], 1, |songs| - 1, addressStart, sizeMemory);
    ChannelBStepTable(r1.value, songs, addressStart, sizeMemory, r2.value);
    ChannelBStepFields(r1.value, songs, addressStart, sizeMemory, r2.value);
  }

  /** Whenever the song loop completes, its state is the closed form. */
  lemma {:induction false} SongsLaidOut(songs: seq<Song>, addressStart: nat, sizeMemory: int)
    requires SongsBuilt(songs, addressStart, sizeMemory).Ok?
    ensures LaidOut(SongsBuilt(songs, addressStart, sizeMemory).value, songs, addressStart)
  {
    if |songs| > 0 {
      var prefix := songs[..|songs| - 1];
      SongsLaidOut(prefix, addressStart, sizeMemory);
      SongStep(SongsBuilt(prefix, addressStart, sizeMemory).value, songs, addressStart, sizeMemory);
    }
  }

  /** What a successful Finish returns. */
  lemma FinishOk(b: Built)
    requires Finish(b).Ok?
    ensures 2 * (b.entries + 1) + 1 < |b.table|
    ensures Finish(b).value ==
      Frame(LE16(b.sections + 1) + FinishedEntries(b) + [Crc8.Checksum(FinishedEntries(b))]) + b.values
  {
  }

  /** The table once the end offset and the song count are written. */
  function FinishedEntries(b: Built): (r: seq<bv8>)
    requires 2 * (b.entries + 1) + 1 < |b.table|
    ensures |r| == |b.table|
  {
    Put16(Put16(b.table, 2 * (b.entries + 1), LE16(b.offset)), 0, LE16((b.entries + 1) / 2))
  }

  /** Writing the end offset after the entries and the song count in front. */
  lemma TableFinish(b: Built, e: seq<bv8>, n: nat, addressStart: nat)
    requires b.entries == 2 * n && |e| == 4 * n && 4 * n + 4 <= addressStart
    requires b.table == [0, 0] + e + Zeros(addressStart - 2 - 4 * n)
    ensures 2 * (b.entries + 1) + 1 < |b.table|
    ensures FinishedEntries(b) == LE16(n) + e + LE16(b.offset) + Zeros(addressStart - 4 * n - 4)
  {
    assert (b.entries + 1) / 2 == n;
    var p := [0, 0] + e;
    PutAfter(p, LE16(b.offset), addressStart - 2 - 4 * n);
    assert Put16(b.table, 4 * n + 2, LE16(b.offset)) == [0, 0] + (e + LE16(b.offset) + Zeros(addressStart - 4 * n - 4));
    PutFront(LE16(n), e + LE16(b.offset) + Zeros(addressStart - 4 * n - 4));
  }

  /** A laid-out table with room for the end offset holds the encoded offsets after its two count bytes. */
  lemma LaidOutShape(b: Built, songs: seq<Song>, addressStart: nat)
    requires LaidOut(b, songs, addressStart)
    requires 4 * |songs| + 2 <= addressStart
    ensures b.table == [0, 0] + Encode(Offsets(songs, addressStart)) + Zeros(addressStart - 2 - 4 * |songs|)
  {
    if |songs| == 0 {
      assert Encode(Offsets(songs, addressStart)) == [];
    }
  }

  /** The finished table of a laid-out state is TableOf. */
  lemma FinishedTable(b: Built, songs: seq<Song>, addressStart: nat)
    requires b.entries == 2 * |songs| && b.offset == addressStart + Total(songs)
    requires 4 * |songs| + 4 <= addressStart
    requires b.table == [0, 0] + Encode(Offsets(songs, addressStart)) + Zeros(addressStart - 2 - 4 * |songs|)
    ensures 2 * (b.entries + 1) + 1 < |b.table|
    ensures FinishedEntries(b) == TableOf(songs, addressStart)
  {
    TableFinish(b, Encode(Offsets(songs, addressStart)), |songs|, addressStart);
  }


  /** The header framed in front of the value sections is the expected image. */
  lemma HeaderFramed(sections: nat, values: seq<bv8>, table: seq<bv8>, songs: seq<Song>, addressStart: nat)
    requires 4 * |songs| + 4 <= addressStart && table == TableOf(songs, addressStart)
    requires sections == |AllFrames(songs)| && values == Framed(AllFrames(songs))
    ensures Frame(LE16(sections + 1) + table + [Crc8.Checksum(table)]) + values == ExpectedImage(songs, addressStart)
  {
  }

  /** Finishing a laid-out state writes the end offset and the song count, and frames the table. */
  lemma FinishLaidOut(b: Built, songs: seq<Song>, addressStart: nat)
    requires LaidOut(b, songs, addressStart) && Finish(b).Ok?
    ensures 4 * |songs| + 4 <= addressStart
    ensures Finish(b).value == ExpectedImage(songs, addressStart)
  {
    FinishOk(b);
    LaidOutTableLength(b, songs, addressStart);
    assert 4 * |songs| + 4 <= addressStart by {
      assert b.entries == 2 * |songs|;
    }
    LaidOutShape(b, songs, addressStart);
    FinishShaped(b, songs, addressStart);
    assert Finish(b).value ==
      Frame(LE16(b.sections + 1) + FinishedEntries(b) + [Crc8.Checksum(FinishedEntries(b))]) + b.values;
  }

  /** Finishing a state whose table holds the encoded offsets frames the expected header. */
  lemma FinishShaped(b: Built, songs: seq<Song>, addressStart: nat)
    requires 4 * |songs| + 4 <= addressStart
    requires b.entries == 2 * |songs| && b.offset == addressStart + Total(songs)
    requires b.sections == |AllFrames(songs)| && b.values == Framed(AllFrames(songs))
    requires b.table == [0, 0] + Encode(Offsets(songs, addressStart)) + Zeros(addressStart - 2 - 4 * |songs|)
    ensures 2 * (b.entries + 1) + 1 < |b.table|
    ensures Frame(LE16(b.sections + 1) + FinishedEntries(b) + [Crc8.Checksum(FinishedEntries(b))]) + b.values ==
      ExpectedImage(songs, addressStart)
  {
    FinishedTable(b, songs, addressStart);
    HeaderFramed(b.sections, b.values, FinishedEntries(b), songs, addressStart);
  }

  /** process_data's result, when it returns one, is the closed-form image. */
  lemma ImageLayout(songs: seq<Song>, addressStart: nat, sizeMemory: int)
    requires ImageOf(songs, addressStart, sizeMemory).Ok?
    ensures 4 * |songs| + 4 <= addressStart
    ensures ImageOf(songs, addressStart, sizeMemory).value == ExpectedImage(songs, addressStart)
  {
    SongsLaidOut(songs, addressStart, sizeMemory);
    FinishLaidOut(SongsBuilt(songs, addressStart, sizeMemory).value, songs, addressStart);
  }

  /** A section's content as the receiver checks it: data, then the CRC of the data. */
  predicate IsChecked(x: seq<bv8>)
  {
    |x| > 0 && x[|x| - 1] == Crc8.Checksum(x[..|x| - 1])
  }

  /** The value sections of one channel: CRC-checked chunks whose data, in order, is the channel. */
  lemma ChannelFramesChecked(channel: seq<bv8>)
    ensures forall i :: 0 <= i < |ChannelFrames(channel)| ==>
      IsChecked(ChannelFrames(channel)[i]) && 2 <= |ChannelFrames(channel)[i]| <= CHUNK_SIZE + 1
  {
    ChunksSizes(channel, CHUNK_SIZE);
    var f := ChannelFrames(channel);
    forall i | 0 <= i < |f|
      ensures IsChecked(f[i]) && 2 <= |f[i]| <= CHUNK_SIZE + 1
    {
      var c := Chunks(channel, CHUNK_SIZE)[i];
      assert f[i] == c + [Crc8.Checksum(c)];
      assert f[i][..|f[i]| - 1] == c;
    }
  }

  /** Every value section of every song is a CRC-checked chunk. */
  lemma {:induction false} AllFramesChecked(songs: seq<Song>)
    ensures forall i :: 0 <= i < |AllFrames(songs)| ==>
      IsChecked(AllFrames(songs)[i]) && 2 <= |AllFrames(songs)[i]| <= CHUNK_SIZE + 1
  {
    if |songs| > 0 {
      var song := songs[|songs| - 1];
      AllFramesChecked(songs[..|songs| - 1]);
      if song.channelA.Some? {
        ChannelFramesChecked(song.channelA.value);
      }
      if song.channelB.Some? {
        ChannelFramesChecked(song.channelB.value);
      }
      var a := AllFrames(songs[..|songs| - 1]);
      var fa := FramesOf(song.channelA);
      var fb := FramesOf(song.channelB);
      assert AllFrames(songs) == a + fa + fb;
      forall i | 0 <= i < |AllFrames(songs)|
        ensures IsChecked(AllFrames(songs)[i]) && 2 <= |AllFrames(songs)[i]| <= CHUNK_SIZE + 1
      {
        if i < |a| {
          assert AllFrames(songs)[i] == a[i];
        } else if i < |a| + |fa| {
          assert AllFrames(songs)[i] == fa[i - |a|];
        } else {
          assert AllFrames(songs)[i] == fb[i - |a| - |fa|];
        }
      }
    }
  }

  /** A CRC-checked string never ends in 0xFF, since every CRC is below 32. */
  lemma CheckedEndsBelow32(x: seq<bv8>)
    requires IsChecked(x)
    ensures x[|x| - 1] < 0x20 && x[|x| - 1] != ESCAPE_INDICATOR
  {
    Crc8.ChecksumBelow32(x[..|x| - 1]);
  }

  /**
   * The transmitters' splitter cuts every image into exactly its sections:
   * the table section, then one section per chunk, with nothing left over.
   * Its blind spot (0xFE after a raw 0xFF) is never reached, because every
   * section ends in a CRC byte below 32.
   */
  lemma ImageSplits(songs: seq<Song>, addressStart: nat, sizeMemory: int)
    requires ImageOf(songs, addressStart, sizeMemory).Ok?
    ensures 4 * |songs| + 4 <= addressStart
    ensures SplitFrom(ImageOf(songs, addressStart, sizeMemory).value, 0, []) ==
      Split(Frames([Header(songs, addressStart)] + AllFrames(songs)), [])
  {
    ImageLayout(songs, addressStart, sizeMemory);
    AllFramesChecked(songs);
    Crc8.ChecksumBelow32(TableOf(songs, addressStart));
    HeaderAndSectionsSplit(Header(songs, addressStart), AllFrames(songs));
  }

  /** A header ending below 32, followed by CRC-checked sections, splits back into its frames. */
  lemma HeaderAndSectionsSplit(h: seq<bv8>, fs: seq<seq<bv8>>)
    requires |h| > 0 && h[|h| - 1] < 0x20
    requires forall i :: 0 <= i < |fs| ==> IsChecked(fs[i])
    ensures SplitFrom(Frame(h) + Framed(fs), 0, []) == Split(Frames([h] + fs), [])
  {
    SectionsEnd(h, fs);
    assert ([h] + fs)[0] == h && ([h] + fs)[1..] == fs;
    assert Framed([h] + fs) == Frame(h) + Framed(fs);
    FramedSplits([h] + fs, 0);
  }

  /** No section of the image ends in 0xFF. */
  lemma SectionsEnd(h: seq<bv8>, fs: seq<seq<bv8>>)
    requires |h| > 0 && h[|h| - 1] < 0x20
    requires forall i :: 0 <= i < |fs| ==> IsChecked(fs[i])
    ensures forall i :: 0 <= i < |[h] + fs| ==>
      |([h] + fs)[i]| > 0 && ([h] + fs)[i][|([h] + fs)[i]| - 1] != ESCAPE_INDICATOR
  {
    forall i | 0 <= i < |[h] + fs|
      ensures |([h] + fs)[i]| > 0 && ([h] + fs)[i][|([h] + fs)[i]| - 1] != ESCAPE_INDICATOR
    {
      if i > 0 {
        assert ([h] + fs)[i] == fs[i - 1];
        CheckedEndsBelow32(fs[i - 1]);
      }
    }
  }

  /**
   * Every value section, once its indicator is dropped and its escapes are
   * removed, is at most 296 data bytes and their CRC, and its own CRC is 0.
   */
  lemma ValueSectionsCheck(songs: seq<Song>, i: nat)
    requires i < |AllFrames(songs)|
    ensures var x := AllFrames(songs)[i];
      Unescape(Frame(x)[..|Frame(x)| - 1]) == x &&
      2 <= |x| <= CHUNK_SIZE + 1 && Crc8.Checksum(x) == 0
  {
    AllFramesChecked(songs);
    CheckedSection(AllFrames(songs)[i]);
  }

  /** A CRC-checked section unescapes to itself and has CRC 0. */
  lemma CheckedSection(x: seq<bv8>)
    requires IsChecked(x)
    ensures Unescape(Frame(x)[..|Frame(x)| - 1]) == x && Crc8.Checksum(x) == 0
  {
    FrameContent(x);
    assert x == x[..|x| - 1] + [Crc8.Checksum(x[..|x| - 1])];
    Crc8.ChecksumOfCheckedMessage(x[..|x| - 1]);
  }

  /** A section's data bytes: all but its CRC. */
  function Payload(x: seq<bv8>): seq<bv8>
  {
    if |x| == 0 then [] else x[..|x| - 1]
  }

  /** The data bytes of a channel's sections, in order, are the channel. */
  lemma ChannelFramesData(channel: seq<bv8>)
    ensures Flatten(seq(|ChannelFrames(channel)|, i requires 0 <= i < |ChannelFrames(channel)| =>
      Payload(ChannelFrames(channel)[i]))) == channel
  {
    var f := ChannelFrames(channel);
    var pieces := Chunks(channel, CHUNK_SIZE);
    forall i | 0 <= i < |f|
      ensures Payload(f[i]) == pieces[i]
    {
      assert f[i] == pieces[i] + [Crc8.Checksum(pieces[i])];
    }
    assert seq(|ChannelFrames(channel)|, i requires 0 <= i < |ChannelFrames(channel)| =>
      Payload(ChannelFrames(channel)[i])) == pieces;
    ChunksFlatten(channel, CHUNK_SIZE);
  }

  // ---------------------------------------------------------------------
  // The table's contents

  /** The byte value x, counted up from zero. */
  function FromNat(x: nat): bv8
    requires x < 256
  {
    if x == 0 then 0 else FromNat(x - 1) + 1
  }

  lemma {:induction false} FromNatValue(x: nat)
    requires x < 256
    ensures FromNat(x) as int == x
  {
    if x > 0 { FromNatValue(x - 1); }
  }

  /**
   * A byte value survives the conversion to bv8 and back. Going through
   * FromNat keeps the solver away from the int/bit-vector conversion, which
   * it otherwise proves only at a high cost.
   */
  lemma ByteRoundTrip(x: nat)
    requires x < 256
    ensures (x as bv8) as int == x
  {
    FromNatValue(x);
    assert ((FromNat(x) as int) as bv8) == FromNat(x);
  }

  lemma ModWord(v: nat, a: nat, r: nat)
    requires r < 0x1_0000 && v == 0x1_0000 * a + r
    ensures v % 0x1_0000 == r
  {
  }

  lemma Mod16(v: nat)
    ensures v % 256 + 256 * (v / 256 % 256) == v % 0x1_0000
  {
    var q := v / 256;
    assert v == 256 * q + v % 256;
    assert q == 256 * (q / 256) + q % 256;
    ModWord(v, q / 256, 256 * (q % 256) + v % 256);
  }

  /** A stored entry reads back, little-endian, as its offset's low 16 bits. */
  lemma LE16Decodes(v: nat)
    ensures LE16(v)[0] as int + 256 * LE16(v)[1] as int == v % 0x1_0000
  {
    ByteRoundTrip(v % 256);
    ByteRoundTrip(v / 256 % 256);
    Mod16(v);
  }

  /** Channel offsets start at address_start, never decrease, and end at the end offset. */
  lemma {:induction false} OffsetsSorted(songs: seq<Song>, addressStart: nat)
    ensures forall i :: 0 <= i < |Offsets(songs, addressStart)| ==>
      addressStart <= Offsets(songs, addressStart)[i] <= addressStart + Total(songs)
    ensures forall i, j :: 0 <= i <= j < |Offsets(songs, addressStart)| ==>
      Offsets(songs, addressStart)[i] <= Offsets(songs, addressStart)[j]
  {
    if |songs| > 0 {
      var prefix := songs[..|songs| - 1];
      OffsetsSorted(prefix, addressStart);
      var o := Offsets(prefix, addressStart);
      assert forall i :: 0 <= i < |o| ==> Offsets(songs, addressStart)[i] == o[i];
    }
  }

  /** Song i's entries: where its Channel_A starts, and where its Channel_B starts (A's start when B is missing). */
  lemma {:induction false} OffsetsAt(songs: seq<Song>, addressStart: nat, i: nat)
    requires i < |songs|
    ensures Offsets(songs, addressStart)[2 * i] == addressStart + Total(songs[..i])
    ensures Offsets(songs, addressStart)[2 * i + 1] ==
      if songs[i].channelB.Some? then addressStart + Total(songs[..i]) + Length(songs[i].channelA)
      else addressStart + Total(songs[..i])
  {
    var prefix := songs[..|songs| - 1];
    if i < |prefix| {
      OffsetsAt(prefix, addressStart, i);
      assert prefix[..i] == songs[..i] && prefix[i] == songs[i];
      assert Offsets(songs, addressStart)[..2 * |prefix|] == Offsets(prefix, addressStart);
    } else {
      assert songs[..i] == prefix;
    }
  }

  /** Entry k of a table whose entries 1 .. 2n are the encoded list e is entry k - 1 of e. */
  lemma EntryWithin(t: seq<bv8>, offsets: seq<nat>, n: nat, k: nat)
    requires 4 * n + 2 <= |t| && |offsets| == 2 * n && t[2..4 * n + 2] == Encode(offsets) && 1 <= k <= 2 * n
    ensures t[2 * k..2 * k + 2] == LE16(offsets[k - 1])
  {
    var e := Encode(offsets);
    EncodeAt(offsets, k - 1);
    assert t[2 * k] == e[2 * k - 2] && t[2 * k + 1] == e[2 * k - 1];
  }

  /** Where the four parts of a concatenation sit. */
  lemma FourParts(h: seq<bv8>, e: seq<bv8>, end: seq<bv8>, z: seq<bv8>)
    ensures var t := h + e + end + z;
      |t| == |h| + |e| + |end| + |z| &&
      t[..|h|] == h && t[|h|..|h| + |e|] == e &&
      t[|h| + |e|..|h| + |e| + |end|] == end && t[|h| + |e| + |end|..] == z
  {
  }

  /** The table as its four parts. */
  lemma TableParts(songs: seq<Song>, addressStart: nat)
    requires 4 * |songs| + 4 <= addressStart
    ensures var t := TableOf(songs, addressStart);
      |t| == addressStart &&
      t[..2] == LE16(|songs|) &&
      t[2..4 * |songs| + 2] == Encode(Offsets(songs, addressStart)) &&
      t[4 * |songs| + 2..4 * |songs| + 4] == LE16(addressStart + Total(songs)) &&
      t[4 * |songs| + 4..] == Zeros(addressStart - 4 * |songs| - 4)
  {
    var e := Encode(Offsets(songs, addressStart));
    assert |e| == 4 * |songs|;
    FourParts(LE16(|songs|), e, LE16(addressStart + Total(songs)), Zeros(addressStart - 4 * |songs| - 4));
  }

  /** Entry k of the table holds the k-th channel offset. */
  lemma TableEntry(songs: seq<Song>, addressStart: nat, k: nat)
    requires 4 * |songs| + 4 <= addressStart && 1 <= k <= 2 * |songs|
    ensures TableOf(songs, addressStart)[2 * k..2 * k + 2] == LE16(Offsets(songs, addressStart)[k - 1])
  {
    TableParts(songs, addressStart);
    EntryWithin(TableOf(songs, addressStart), Offsets(songs, addressStart), |songs|, k);
  }

  /** Past the end entry, the table is zero. */
  lemma TablePadding(songs: seq<Song>, addressStart: nat, j: nat)
    requires 4 * |songs| + 4 <= j < addressStart
    ensures TableOf(songs, addressStart)[j] == 0
  {
    var t := TableOf(songs, addressStart);
    TableParts(songs, addressStart);
    assert t[j] == t[4 * |songs| + 4..][j - 4 * |songs| - 4];
  }

  /**
   * The table: bytes 0-1 hold the song count, entry k (1 <= k <= 2n) the
   * k-th channel offset, entry 2n+1 the end offset, and the rest is zero.
   */
  lemma TableEntries(songs: seq<Song>, addressStart: nat)
    requires 4 * |songs| + 4 <= addressStart
    ensures |TableOf(songs, addressStart)| == addressStart
    ensures TableOf(songs, addressStart)[0..2] == LE16(|songs|)
    ensures forall k :: 1 <= k <= 2 * |songs| ==>
      TableOf(songs, addressStart)[2 * k..2 * k + 2] == LE16(Offsets(songs, addressStart)[k - 1])
    ensures TableOf(songs, addressStart)[4 * |songs| + 2..4 * |songs| + 4] == LE16(addressStart + Total(songs))
    ensures forall j :: 4 * |songs| + 4 <= j < addressStart ==> TableOf(songs, addressStart)[j] == 0
  {
    TableParts(songs, addressStart);
    forall k | 1 <= k <= 2 * |songs|
      ensures TableOf(songs, addressStart)[2 * k..2 * k + 2] == LE16(Offsets(songs, addressStart)[k - 1])
    {
      TableEntry(songs, addressStart, k);
    }
    forall j | 4 * |songs| + 4 <= j < addressStart
      ensures TableOf(songs, addressStart)[j] == 0
    {
      TablePadding(songs, addressStart, j);
    }
  }

  // ---------------------------------------------------------------------
  // When process_data succeeds

  predicate AllHaveChannelA(songs: seq<Song>)
  {
    forall i :: 0 <= i < |songs| ==> songs[i].channelA.Some?
  }

  /**
   * The conditions under which the channel loop gets through the last song:
   * it has a Channel_A, its channels fit below size_memory, and the table has
   * room for its entries.
   */
  predicate LastSongFits(songs: seq<Song>, addressStart: nat, sizeMemory: int)
    requires |songs| > 0
  {
    songs[|songs| - 1].channelA.Some? && addressStart + Total(songs) <= sizeMemory &&
    4 * |songs| + (if songs[|songs| - 1].channelB.Some? then 2 else 0) < addressStart
  }

  /** The conditions under which the song loop runs to the end. */
  predicate SongsFit(songs: seq<Song>, addressStart: nat, sizeMemory: int)
  {
    |songs| == 0 ||
    (AllHaveChannelA(songs) && addressStart + Total(songs) <= sizeMemory &&
     4 * |songs| + (if songs[|songs| - 1].channelB.Some? then 2 else 0) < addressStart)
  }

  /** The songs fit exactly when all but the last fit and the last one does. */
  lemma SongsFitSplit(songs: seq<Song>, addressStart: nat, sizeMemory: int)
    requires |songs| > 0
    ensures SongsFit(songs, addressStart, sizeMemory) <==>
      SongsFit(songs[..|songs| - 1], addressStart, sizeMemory) && LastSongFits(songs, addressStart, sizeMemory)
  {
    var prefix := songs[..|songs| - 1];
    assert Total(songs) >= Total(prefix);
    assert forall i :: 0 <= i < |prefix| ==> prefix[i] == songs[i];
    if SongsFit(prefix, addressStart, sizeMemory) && LastSongFits(songs, addressStart, sizeMemory) {
      forall i | 0 <= i < |songs|
        ensures songs[i].channelA.Some?
      {
        if i < |prefix| {
          assert prefix[i] == songs[i];
        }
      }
    }
  }

  lemma LaidOutTableLength(b: Built, songs: seq<Song>, addressStart: nat)
    requires LaidOut(b, songs, addressStart)
    ensures |b.table| == addressStart
  {
  }

  /** The two passes of the channel loop for one song. */
  lemma SongStepsUnfold(b: Built, song: Song, index: nat, addressStart: nat, sizeMemory: int)
    ensures SongSteps(b, song, NUMBER_OF_CHANNELS, index, addressStart, sizeMemory) ==
      match ChannelStep(b, song, 0, index, addressStart, sizeMemory)
      case Err(e) => Err(e)
      case Ok(b1) => ChannelStep(b1, song, 1, index, addressStart, sizeMemory)
  {
    assert SongSteps(b, song, 0, index, addressStart, sizeMemory) == Ok(b);
  }

  /** When AddChannel succeeds, and what it leaves. */
  lemma AddChannelOkIff(b: Built, channel: seq<bv8>, addressStart: nat, sizeMemory: int)
    ensures AddChannel(b, channel, addressStart, sizeMemory).Ok? <==>
      b.offset < PACK_LIMIT && b.offset + |channel| <= sizeMemory &&
      (b.entries + 2) * 2 < addressStart && 2 * (b.entries + 1) + 1 < |b.table|
    ensures AddChannel(b, channel, addressStart, sizeMemory).Ok? ==>
      var b1 := AddChannel(b, channel, addressStart, sizeMemory).value;
      b1.offset == b.offset + |channel| && b1.entries == b.entries + 1 && |b1.table| == |b.table|
  {
  }

  /** When CopyEntry succeeds, and what it leaves. */
  lemma CopyEntryOkIff(b: Built)
    ensures CopyEntry(b).Ok? <==> 2 * (b.entries + 1) + 1 < |b.table|
    ensures CopyEntry(b).Ok? ==>
      CopyEntry(b).value.offset == b.offset && CopyEntry(b).value.entries == b.entries + 1 &&
      |CopyEntry(b).value.table| == |b.table|
  {
  }

  /** One more song: the loop goes on exactly when the song fits. */
  lemma SongFits(b: Built, songs: seq<Song>, addressStart: nat, sizeMemory: int)
    requires addressStart % 2 == 0 && sizeMemory < PACK_LIMIT && |songs| > 0
    requires b.offset == addressStart + Total(songs[..|songs| - 1]) && b.entries == 2 * |songs| - 2
    requires |b.table| == addressStart
    requires |songs| > 1 ==> b.offset <= sizeMemory
    ensures SongSteps(b, songs[|songs| - 1], NUMBER_OF_CHANNELS, |songs| - 1, addressStart, sizeMemory).Ok? <==>
      LastSongFits(songs, addressStart, sizeMemory)
  {
    var prefix := songs[..|songs| - 1];
    var song := songs[|songs| - 1];
    var index := |songs| - 1;
    var n := |songs|;
    SongStepsUnfold(b, song, index, addressStart, sizeMemory);
    assert Total(songs) == Total(prefix) + Length(song.channelA) + Length(song.channelB);
    assert 4 * n < addressStart ==> 4 * n + 1 < addressStart by {
      assert addressStart == 2 * (addressStart / 2);
    }
    var r1 := ChannelStep(b, song, 0, index, addressStart, sizeMemory);
    if song.channelA.None? {
      assert r1 == Err(MissingChannelA(index));
    } else {
      var a := song.channelA.value;
      assert r1 == AddChannel(b, a, addressStart, sizeMemory);
      AddChannelOkIff(b, a, addressStart, sizeMemory);
      if r1.Ok? {
        var b1 := r1.value;
        var r2 := ChannelStep(b1, song, 1, index, addressStart, sizeMemory);
        if song.channelB.Some? {
          assert r2 == AddChannel(b1, song.channelB.value, addressStart, sizeMemory);
          AddChannelOkIff(b1, song.channelB.value, addressStart, sizeMemory);
        } else {
          assert r2 == CopyEntry(b1);
          CopyEntryOkIff(b1);
        }
      }
    }
  }

  /** The song loop runs to the end exactly when the songs fit. */
  lemma {:induction false} SongsBuiltIff(songs: seq<Song>, addressStart: nat, sizeMemory: int)
    requires addressStart % 2 == 0 && sizeMemory < PACK_LIMIT
    ensures SongsBuilt(songs, addressStart, sizeMemory).Ok? <==> SongsFit(songs, addressStart, sizeMemory)
  {
    if |songs| > 0 {
      var prefix := songs[..|songs| - 1];
      var song := songs[|songs| - 1];
      SongsBuiltIff(prefix, addressStart, sizeMemory);
      SongsFitSplit(songs, addressStart, sizeMemory);
      var r := SongsBuilt(prefix, addressStart, sizeMemory);
      if r.Ok? {
        var b := r.value;
        SongsLaidOut(prefix, addressStart, sizeMemory);
        LaidOutTableLength(b, prefix, addressStart);
        SongFits(b, songs, addressStart, sizeMemory);
        assert SongsBuilt(songs, addressStart, sizeMemory) ==
          SongSteps(b, song, NUMBER_OF_CHANNELS, |songs| - 1, addressStart, sizeMemory);
      } else {
        assert SongsBuilt(songs, addressStart, sizeMemory).Err?;
      }
    }
  }

  /** No more value sections than channel bytes. */
  lemma {:induction false} AllFramesCount(songs: seq<Song>)
    ensures |AllFrames(songs)| <= Total(songs)
  {
    if |songs| > 0 {
      AllFramesCount(songs[..|songs| - 1]);
      var song := songs[|songs| - 1];
      if song.channelA.Some? {
        ChunksCount(song.channelA.value, CHUNK_SIZE);
      }
      if song.channelB.Some? {
        ChunksCount(song.channelB.value, CHUNK_SIZE);
      }
    }
  }

  /** When Finish succeeds. */
  lemma FinishOkIff(b: Built)
    ensures Finish(b).Ok? <==>
      b.offset < PACK_LIMIT && 2 * (b.entries + 1) + 1 < |b.table| && b.sections + 1 < PACK_LIMIT
  {
  }

  /**
   * With arguments that pass main's checks and an EEPROM below 4 GiB,
   * process_data returns an image exactly when every song has a Channel_A,
   * the channels fit between address_start and size_memory, and the table
   * has room for the song count, 2n channel entries and the end entry.
   */
  lemma ImageOkIff(songs: seq<Song>, addressStart: nat, sizeMemory: int)
    requires addressStart % 2 == 0 && addressStart < sizeMemory < PACK_LIMIT
    ensures ImageOf(songs, addressStart, sizeMemory).Ok? <==>
      AllHaveChannelA(songs) && addressStart + Total(songs) <= sizeMemory && 4 * |songs| + 4 <= addressStart
  {
    SongsBuiltIff(songs, addressStart, sizeMemory);
    if SongsBuilt(songs, addressStart, sizeMemory).Ok? {
      var b := SongsBuilt(songs, addressStart, sizeMemory).value;
      SongsLaidOut(songs, addressStart, sizeMemory);
      LaidOutTableLength(b, songs, addressStart);
      AllFramesCount(songs);
      FinishOkIff(b);
      assert ImageOf(songs, addressStart, sizeMemory) == Finish(b);
    }
  }

  /**
   * One song without Channel_B and address_start = 6: Channel_A and the
   * copied entry fit, but the end offset's slot (bytes 6-7) is past the
   * table, so process_data raises an IndexError instead of its "Max entries"
   * error.
   */
  lemma MissingLastChannelBOverflowsTable()
    ensures ImageOf([Song(Some([1]), None)], 6, 100) == Err(TableIndexOutOfRange)
  {
    var songs := [Song(Some([1]), None)];
    assert songs[..0] == [];
    var b := Initial(6);
    SongStepsUnfold(b, songs[0], 0, 6, 100);
    assert SongsBuilt(songs, 6, 100).Ok?;
  }
}
