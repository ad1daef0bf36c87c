/**
 * The EEPROM music streams of the PhotoniClock firmware (Music.cpp): two
 * streams, one per audio channel, each cycling three 32-byte buffers of its
 * own channel array; GetMusicEEPROM, which finds a channel's bytes through
 * the offset table notes2eeprom.py writes at the start of the EEPROM; and
 * PlayMusic, which picks a built-in tune or resets the streams and loads an
 * EEPROM song.
 *
 * The target is an AVR, where int is 16 bits and uint16_t is unsigned int,
 * so sums of two uint16_t values wrap at 2^16.
 */
module Music {
  import opened Bytes
  import EepromImage

  const BUFFER_SIZE: nat := 32
  const PADDED_BUFFER_SIZE: nat := BUFFER_SIZE * 3 + 1
  /** Music::ADDRESS_SIZE and Music::CHANNEL_COUNT. */
  const ADDRESS_SIZE: nat := 2
  const CHANNEL_COUNT: nat := 2
  /** The rows of music_list. */
  const INBUILT_SONG_COUNT: nat := 2

  /** The ranges of uint16_t and uint32_t. */
  const WORD: nat := 0x1_0000
  const LONG: nat := 0x1_0000_0000

  // ---------------------------------------------------------------------
  // Buffers

  /** music_channel_A and music_channel_B. */
  datatype Buffer = ChannelA | ChannelB

  /** A pointer `&music_channel_X[at]`. */
  datatype Slot = Slot(buffer: Buffer, at: nat)

  /** A stream's three pointers. */
  datatype Ring = Ring(prev: Slot, data: Slot, next: Slot)

  /** Two 32-byte buffers share a byte. */
  predicate Overlap(p: Slot, q: Slot)
  {
    p.buffer == q.buffer && p.at < q.at + BUFFER_SIZE && q.at < p.at + BUFFER_SIZE
  }

  /** A 32-byte buffer lies inside its channel array. */
  predicate Fits(p: Slot)
  {
    p.at + BUFFER_SIZE <= PADDED_BUFFER_SIZE
  }

  predicate RingFits(r: Ring)
  {
    Fits(r.prev) && Fits(r.data) && Fits(r.next)
  }

  function Slots(r: Ring): seq<Slot>
  {
    [r.prev, r.data, r.next]
  }

  /** No two of the buffers share a byte. */
  predicate Disjoint(s: seq<Slot>)
  {
    forall i, j :: 0 <= i < j < |s| ==> !Overlap(s[i], s[j])
  }

  /** Three buffers are disjoint exactly when each pair is. */
  lemma DisjointThree(a: Slot, b: Slot, c: Slot)
    ensures Disjoint([a, b, c]) <==> !Overlap(a, b) && !Overlap(a, c) && !Overlap(b, c)
  {
    var s := [a, b, c];
    if !Overlap(a, b) && !Overlap(a, c) && !Overlap(b, c) {
      forall i, j | 0 <= i < j < 3
        ensures !Overlap(s[i], s[j])
      {
      }
    }
    if Disjoint(s) {
      assert !Overlap(s[0], s[1]) && !Overlap(s[0], s[2]) && !Overlap(s[1], s[2]);
    }
  }

  /** Lines 88-91: prev takes data, data takes next, next takes the old prev. */
  function Rotate(r: Ring): (r': Ring)
    ensures RingFits(r') <==> RingFits(r)
  {
    Ring(r.data, r.next, r.prev)
  }

  /** The rotation only permutes the three buffers, so they stay pairwise disjoint. */
  lemma RotatePermutes(r: Ring)
    ensures multiset(Slots(Rotate(r))) == multiset(Slots(r))
    ensures Disjoint(Slots(Rotate(r))) <==> Disjoint(Slots(r))
  {
    var r' := Rotate(r);
    assert Slots(r') == [r.data] + [r.next, r.prev] && Slots(r) == [r.prev] + [r.data, r.next];
    DisjointThree(r.prev, r.data, r.next);
    DisjointThree(r.data, r.next, r.prev);
  }

  /** Three rotations bring every pointer back. */
  lemma RotateThrice(r: Ring)
    ensures Rotate(Rotate(Rotate(r))) == r
  {
  }

  /** A channel array's three buffers: [0, 32), [32, 64) and [64, 96). */
  function Thirds(b: Buffer): (r: Ring)
    ensures RingFits(r)
  {
    Ring(Slot(b, 0), Slot(b, BUFFER_SIZE), Slot(b, BUFFER_SIZE * 2))
  }

  /** The three buffers are disjoint and all lie in the channel's own array. */
  lemma ThirdsLayout(b: Buffer)
    ensures Disjoint(Slots(Thirds(b)))
    ensures forall s :: s in Slots(Thirds(b)) ==> s.buffer == b
  {
    DisjointThree(Thirds(b).prev, Thirds(b).data, Thirds(b).next);
  }

  /** The pointers lines 38-39 give the streams, as written: B's next points into music_channel_A. */
  function InitialRing(b: Buffer): (r: Ring)
    ensures RingFits(r) && Disjoint(Slots(r))
    ensures r.prev.buffer == b && r.data.buffer == b
  {
    match b
    case ChannelA => Ring(Slot(ChannelA, 0), Slot(ChannelA, BUFFER_SIZE), Slot(ChannelA, BUFFER_SIZE * 2))
    case ChannelB => Ring(Slot(ChannelB, 0), Slot(ChannelB, BUFFER_SIZE), Slot(ChannelA, BUFFER_SIZE * 2))
  }

  /** As written, both streams load their next buffer into the same bytes. */
  lemma InitialRingsShareNext()
    ensures InitialRing(ChannelA).next == InitialRing(ChannelB).next
    ensures !Disjoint(Slots(InitialRing(ChannelA)) + Slots(InitialRing(ChannelB)))
  {
    var s := Slots(InitialRing(ChannelA)) + Slots(InitialRing(ChannelB));
    assert Overlap(s[2], s[5]);
  }

  /** PlayMusic's reset (lines 195-196): the six buffers are pairwise disjoint. */
  lemma ResetRingsDisjoint()
    ensures Disjoint(Slots(Thirds(ChannelA)) + Slots(Thirds(ChannelB)))
  {
    var s := Slots(Thirds(ChannelA)) + Slots(Thirds(ChannelB));
    ThirdsLayout(ChannelA);
    ThirdsLayout(ChannelB);
    forall i, j | 0 <= i < j < |s|
      ensures !Overlap(s[i], s[j])
    {
      assert s[i] in Slots(Thirds(s[i].buffer)) && s[j] in Slots(Thirds(s[j].buffer));
    }
  }

  // ---------------------------------------------------------------------
  // I2CStream

  /** A request to g_eeprom.Read: `count` bytes from `address` into the buffer at `into`. */
  datatype ReadRequest = ReadRequest(address: nat, into: Slot, count: nat)

  datatype Option<T> = None | Some(value: T)

  /** The members of I2CStreamData that I2CStream reads and writes. */
  datatype StreamState = StreamState(ring: Ring, start: nat, length: nat, pos: nat, loadNext: bool, valid: bool)

  /** uint16_t addition on the AVR: it wraps at 2^16. */
  function Add16(a: nat, b: nat): (r: nat)
    requires a < WORD && b < WORD
    ensures r < WORD
  {
    if a + b < WORD then a + b else a + b - WORD
  }

  /** uint16_t subtraction on the AVR. */
  function Sub16(a: nat, b: nat): (r: nat)
    requires a < WORD && b < WORD
    ensures r < WORD
  {
    if a >= b then a - b else a - b + WORD
  }

  /** Add16 and Sub16 are addition and subtraction modulo 2^16. */
  lemma WrapsModWord(a: nat, b: nat)
    requires a < WORD && b < WORD
    ensures Add16(a, b) == (a + b) % WORD
    ensures Sub16(a, b) == (a - b) % WORD
  {
  }

  /** Moving a buffer boundary on by one buffer keeps it a boundary. */
  lemma BoundaryStep(pos: nat)
    requires pos < WORD && pos % BUFFER_SIZE == 0
    ensures Add16(pos, BUFFER_SIZE) % BUFFER_SIZE == 0
  {
    var k := pos / BUFFER_SIZE;
    assert pos == BUFFER_SIZE * k;
    if pos + BUFFER_SIZE < WORD {
      assert Add16(pos, BUFFER_SIZE) == BUFFER_SIZE * (k + 1);
    } else {
      assert Add16(pos, BUFFER_SIZE) == BUFFER_SIZE * (k + 1) - WORD == BUFFER_SIZE * (k + 1 - 2048);
    }
  }

  /** Field widths, buffers inside their arrays, and pos at a buffer boundary. */
  predicate StateValid(s: StreamState)
  {
    RingFits(s.ring) && s.start < LONG && s.length < WORD && s.pos < WORD && s.pos % BUFFER_SIZE == 0
  }

  /**
   * Lines 100-104: `length - offset` in 16-bit unsigned arithmetic, widened
   * to uint32_t and capped at 32.
   */
  function ReadSize(length: nat, offset: nat): (n: nat)
    requires length < WORD && offset < WORD
    ensures n <= BUFFER_SIZE
    ensures offset <= length ==> n == Min(length - offset, BUFFER_SIZE)
    ensures offset == length + 1 ==> n == BUFFER_SIZE
  {
    var remaining := Sub16(length, offset);
    if remaining >= BUFFER_SIZE then BUFFER_SIZE else remaining
  }

  /** What one call does: the song ends, the device resets, or a byte is returned from a buffer. */
  datatype Outcome = Ended | DeviceReset | ReadAt(slot: Slot, index: nat)

  datatype Stepped = Stepped(state: StreamState, outcome: Outcome, request: Option<ReadRequest>)

  /** One call I2CStream(offset, stream); `readStatus` is what g_eeprom.Read returns if it is called. */
  function StreamStep(s: StreamState, offset: nat, readStatus: bv8): (r: Stepped)
    requires StateValid(s) && offset < WORD
    ensures StateValid(r.state)
  {
    BoundaryStep(s.pos);
    if offset > Add16(s.length, 1) then Stepped(s, Ended, None)
    else if offset == Add16(s.pos, BUFFER_SIZE) && !s.valid then Stepped(s, DeviceReset, None)
    else
      var s1 := if offset == Add16(s.pos, BUFFER_SIZE)
        then s.(ring := Rotate(s.ring), pos := offset, valid := false, loadNext := true)
        else s;
      var request := if s1.loadNext
        then Some(ReadRequest((s1.start + s1.pos + BUFFER_SIZE) % LONG, s1.ring.next, ReadSize(s1.length, offset)))
        else None;
      var s2 := if s1.loadNext then s1.(loadNext := readStatus != 0) else s1;
      var slot := if offset >= s2.pos then s2.ring.data else s2.ring.prev;
      Stepped(s2, ReadAt(slot, offset % BUFFER_SIZE), request)
  }

  /** What one call does, case by case. */
  lemma StreamStepCases(s: StreamState, offset: nat, readStatus: bv8)
    requires StateValid(s) && offset < WORD
    ensures var r := StreamStep(s, offset, readStatus);
      (r.outcome == Ended <==> offset > Add16(s.length, 1)) &&
      (r.outcome == DeviceReset <==> offset <= Add16(s.length, 1) && offset == Add16(s.pos, BUFFER_SIZE) && !s.valid) &&
      (!r.outcome.ReadAt? ==> r.state == s && r.request == None)
    ensures var r := StreamStep(s, offset, readStatus);
      r.outcome.ReadAt? && offset == Add16(s.pos, BUFFER_SIZE) ==>
        r.state.ring == Rotate(s.ring) && r.state.pos == offset && !r.state.valid
    ensures var r := StreamStep(s, offset, readStatus);
      r.outcome.ReadAt? && offset != Add16(s.pos, BUFFER_SIZE) ==>
        r.state.ring == s.ring && r.state.pos == s.pos && r.state.valid == s.valid
    ensures var r := StreamStep(s, offset, readStatus);
      r.outcome.ReadAt? ==>
        r.state.start == s.start && r.state.length == s.length &&
        r.outcome.index == offset % BUFFER_SIZE &&
        r.outcome.slot == (if offset >= r.state.pos then r.state.ring.data else r.state.ring.prev)
    ensures var r := StreamStep(s, offset, readStatus);
      r.outcome.ReadAt? && (s.loadNext || offset == Add16(s.pos, BUFFER_SIZE)) ==>
        r.request == Some(ReadRequest((s.start + r.state.pos + BUFFER_SIZE) % LONG, r.state.ring.next,
                                      ReadSize(s.length, offset))) &&
        r.state.loadNext == (readStatus != 0)
    ensures var r := StreamStep(s, offset, readStatus);
      r.outcome.ReadAt? && !s.loadNext && offset != Add16(s.pos, BUFFER_SIZE) ==>
        r.request == None && !r.state.loadNext
  {
  }

  /**
   * While the stream plays its current buffer (pos <= offset < pos + 32),
   * the byte returned is byte offset - pos of that buffer.
   */
  lemma StreamReadsCurrentBuffer(s: StreamState, offset: nat, readStatus: bv8)
    requires StateValid(s) && offset < WORD
    requires s.pos <= offset < s.pos + BUFFER_SIZE && offset <= Add16(s.length, 1)
    ensures StreamStep(s, offset, readStatus).outcome == ReadAt(s.ring.data, offset - s.pos)
  {
    var k := s.pos / BUFFER_SIZE;
    assert s.pos == BUFFER_SIZE * k;
    assert offset == BUFFER_SIZE * k + (offset - s.pos);
  }

  /**
   * At the first offset past the current buffer, the stream moves on to the
   * buffer that was being loaded, and returns its first byte.
   */
  lemma StreamMovesToNextBuffer(s: StreamState, offset: nat, readStatus: bv8)
    requires StateValid(s) && s.valid && s.pos + BUFFER_SIZE < WORD
    requires offset == s.pos + BUFFER_SIZE && offset <= Add16(s.length, 1)
    ensures StreamStep(s, offset, readStatus).outcome == ReadAt(s.ring.next, 0)
    ensures StreamStep(s, offset, readStatus).state.ring.next == s.ring.prev
  {
    var k := s.pos / BUFFER_SIZE;
    assert offset == BUFFER_SIZE * (k + 1);
  }

  /** I2CStreamData: the pointers and the members I2CStream updates. */
  class Stream {
    var prev: Slot
    var data: Slot
    var next: Slot
    var start: nat       // uint32_t
    var length: nat      // uint16_t
    var pos: nat         // uint16_t
    var loadNext: bool
    var valid: bool      // set by the read's completion callback

    function State(): StreamState
      reads this
    {
      StreamState(Ring(prev, data, next), start, length, pos, loadNext, valid)
    }

    ghost predicate Valid()
      reads this
    {
      StateValid(State())
    }

    /** The aggregate initializer `{prev, data, next}`; the other members take their defaults. */
    constructor (ring: Ring)
      requires RingFits(ring)
      ensures Valid() && State() == StreamState(ring, 0, 0, 0, true, false)
    {
      prev, data, next := ring.prev, ring.data, ring.next;
      start, length, pos := 0, 0, 0;
      loadNext, valid := true, false;
    }

    /** PlayMusic's assignment of a fresh aggregate (lines 195-196). */
    method Reset(ring: Ring)
      requires RingFits(ring)
      modifies this
      ensures Valid() && State() == StreamState(ring, 0, 0, 0, true, false)
    {
      prev, data, next := ring.prev, ring.data, ring.next;
      start, length, pos := 0, 0, 0;
      loadNext, valid := true, false;
    }

    /**
     * I2CStreamACallback / I2CStreamBCallback (lines 41-67): error 0 marks
     * the loaded buffer valid; any other error resets the device.
     */
    method Completed(err: bv8) returns (reset: bool)
      requires Valid()
      modifies this
      ensures Valid()
      ensures reset <==> err != 0
      ensures !reset ==> State() == old(State()).(valid := true)
      ensures reset ==> State() == old(State())
    {
      if err == 0 {
        valid := true;
        reset := false;
      } else {
        reset := true;
      }
    }
  }

  /** The byte at index i of a buffer. */
  function Peek(channelA: array<bv8>, channelB: array<bv8>, s: Slot, i: nat): bv8
    reads channelA, channelB
    requires channelA.Length == PADDED_BUFFER_SIZE && channelB.Length == PADDED_BUFFER_SIZE
    requires Fits(s) && i < BUFFER_SIZE
  {
    if s.buffer == ChannelA then channelA[s.at + i] else channelB[s.at + i]
  }

  /** What I2CStream hands the audio driver: NOTE::END, a byte, or nothing because the device reset. */
  datatype StreamResult = EndOfSong | Reset | Byte(value: bv8)

  /** The value I2CStream returns for an outcome. */
  function Returned(channelA: array<bv8>, channelB: array<bv8>, outcome: Outcome): StreamResult
    reads channelA, channelB
    requires channelA.Length == PADDED_BUFFER_SIZE && channelB.Length == PADDED_BUFFER_SIZE
    requires outcome.ReadAt? ==> Fits(outcome.slot) && outcome.index < BUFFER_SIZE
  {
    match outcome
    case Ended => EndOfSong
    case DeviceReset => Reset
    case ReadAt(slot, index) => Byte(Peek(channelA, channelB, slot, index))
  }

  /** Lines 85-97: the three buffers rotate and the next one is marked for loading. */
  method Advance(stream: Stream, offset: nat)
    requires stream.Valid() && offset < WORD && offset % BUFFER_SIZE == 0
    modifies stream
    ensures stream.Valid()
    ensures stream.State() ==
      old(stream.State()).(ring := Rotate(old(stream.State()).ring), pos := offset, valid := false, loadNext := true)
  {
    var temp := stream.prev;
    stream.prev := stream.data;
    stream.data := stream.next;
    stream.next := temp;
    stream.pos := offset;
    stream.valid := false;
    stream.loadNext := true;
  }

  /**
   * I2CStream(offset, data) (lines 69-126). The read it starts completes
   * later, through the callback; `readStatus` is what the call returns.
   */
  method I2CStream(offset: nat, stream: Stream, readStatus: bv8, channelA: array<bv8>, channelB: array<bv8>)
    returns (result: StreamResult, request: Option<ReadRequest>)
    requires offset < WORD && stream.Valid()
    requires channelA.Length == PADDED_BUFFER_SIZE && channelB.Length == PADDED_BUFFER_SIZE
    modifies stream
    ensures stream.Valid()
    ensures var r := StreamStep(old(stream.State()), offset, readStatus);
      stream.State() == r.state && request == r.request && result == Returned(channelA, channelB, r.outcome)
  {
    ghost var s0 := stream.State();
    BoundaryStep(s0.pos);
    request := None;
    if offset > Add16(stream.length, 1) {
      return EndOfSong, None;
    }
    if offset == Add16(stream.pos, BUFFER_SIZE) {
      if !stream.valid {
        return Reset, None;
      }
      Advance(stream, offset);
    }
    ghost var s1 := stream.State();
    if stream.loadNext {
      var remaining := Sub16(stream.length, offset);
      if remaining >= BUFFER_SIZE {
        remaining := BUFFER_SIZE;
      }
      assert remaining == ReadSize(s1.length, offset);
      request := Some(ReadRequest((stream.start + stream.pos + BUFFER_SIZE) % LONG, stream.next, remaining));
      if readStatus == 0 {
        stream.loadNext := false;
      } else {
        stream.loadNext := true;
      }
      assert stream.State() == s1.(loadNext := readStatus != 0);
    }
    ghost var slot := if offset >= stream.pos then stream.data else stream.prev;
    assert StreamStep(s0, offset, readStatus) == Stepped(stream.State(), ReadAt(slot, offset % BUFFER_SIZE), request);
    if offset >= stream.pos {
      result := Byte(Peek(channelA, channelB, stream.data, offset % BUFFER_SIZE));
    } else {
      result := Byte(Peek(channelA, channelB, stream.prev, offset % BUFFER_SIZE));
    }
    assert result == Returned(channelA, channelB, ReadAt(slot, offset % BUFFER_SIZE));
  }

  // ---------------------------------------------------------------------
  // GetMusicEEPROM

  /**
   * The EEPROM as g_eeprom.Read sees it: the byte at each address, and the
   * status a read from an address returns.
   */
  datatype Eeprom = Eeprom(contents: nat -> byte, status: nat -> bv8)

  /** A little-endian 16-bit value. */
  function Word(lo: byte, hi: byte): (v: nat)
    ensures v < WORD
  {
    lo + 256 * hi
  }

  /** The low byte and the high byte come back out of a word. */
  lemma WordBytes(lo: byte, hi: byte)
    ensures Word(lo, hi) % 256 == lo && Word(lo, hi) / 256 == hi
  {
  }

  /** The table entries notes2eeprom.py writes read back as the offsets' low 16 bits. */
  lemma WordOfLE16(v: nat)
    ensures Word(EepromImage.LE16(v)[0] as int, EepromImage.LE16(v)[1] as int) == v % WORD
  {
    EepromImage.LE16Decodes(v);
  }

  /**
   * Lines 157-161 as written on a 16-bit-int target: `offset[1] << 8` is an
   * int, negative once bit 15 is set, and `|=` widens it to uint32_t with
   * sign extension.
   */
  function WordAsWritten(lo: byte, hi: byte): nat
  {
    var shifted := 256 * hi;
    var widened := if shifted >= 0x8000 then shifted + 0xFFFF_0000 else shifted;
    lo + widened
  }

  /** The two decodings agree exactly when the high byte is below 0x80. */
  lemma WordAsWrittenIff(lo: byte, hi: byte)
    ensures WordAsWritten(lo, hi) == Word(lo, hi) <==> hi < 0x80
    ensures hi >= 0x80 ==> WordAsWritten(lo, hi) == Word(lo, hi) + 0xFFFF_0000
  {
  }

  /** An offset of 0x8000, stored as 00 80, reads back as 0xFFFF8000. */
  lemma WordAsWrittenCounterexample()
    ensures EepromImage.LE16(0x8000) == [0x00, 0x80]
    ensures WordAsWritten(0x00, 0x80) == 0xFFFF_8000
  {
    assert 0x8000 % 256 == 0 && 0x8000 / 256 % 256 == 0x80;
  }

  function WordAt(e: Eeprom, address: nat): (v: nat)
    ensures v < WORD
  {
    Word(e.contents(address), e.contents(address + 1))
  }

  /**
   * The address of offset-table entry `entry`: ADDRESS_SIZE (2) bytes per
   * entry, after the two bytes that hold the section count.
   */
  function EntryAddress(entry: nat): nat
  {
    2 * entry + ADDRESS_SIZE
  }

  /** The entry a lookup of `channel` of EEPROM song `index` reads first (channel_offset 0); CHANNEL_COUNT is 2. */
  function FirstEntry(index: nat, channel: nat): nat
  {
    2 * index + channel
  }

  /** `length = end - start` for the entry at `address` and the one after it: uint32_t, truncated to uint16_t. */
  function Span(e: Eeprom, address: nat): nat
  {
    Sub16(WordAt(e, address + ADDRESS_SIZE), WordAt(e, address))
  }

  /**
   * The entry on which the loop of lines 142-167 stops, if it does,
   * searching from `entry` up to (not including) `stop`: the first entry
   * with a nonzero span, provided no read before it failed. A failed read
   * makes `status` nonzero for good; after 256 passes channel_offset is back
   * at 0 and the loop repeats itself, so a search stops at the first entry
   * plus 256.
   */
  function Lookup(e: Eeprom, entry: nat, stop: nat): Option<nat>
    requires entry <= stop
    decreases stop - entry
  {
    if entry == stop then None
    else if e.status(EntryAddress(entry)) != 0 then None
    else if Span(e, EntryAddress(entry)) != 0 then Some(entry)
    else Lookup(e, entry + 1, stop)
  }

  /** An entry found lies in the range searched, was read without error and has a nonzero span. */
  lemma {:induction false} LookupFound(e: Eeprom, entry: nat, stop: nat)
    requires entry <= stop
    ensures var r := Lookup(e, entry, stop);
      r.Some? ==> (entry <= r.value < stop && e.status(EntryAddress(r.value)) == 0 &&
        Span(e, EntryAddress(r.value)) != 0)
    decreases stop - entry
  {
    if entry < stop && e.status(EntryAddress(entry)) == 0 && Span(e, EntryAddress(entry)) == 0 {
      LookupFound(e, entry + 1, stop);
    }
  }

  /** The entry found is the first with a nonzero span, and every read before it succeeded. */
  lemma {:induction false} LookupIsFirst(e: Eeprom, entry: nat, stop: nat)
    requires entry <= stop
    ensures var r := Lookup(e, entry, stop);
      r.Some? ==> forall j :: entry <= j < r.value ==>
        e.status(EntryAddress(j)) == 0 && Span(e, EntryAddress(j)) == 0
    decreases stop - entry
  {
    if entry < stop && e.status(EntryAddress(entry)) == 0 && Span(e, EntryAddress(entry)) == 0 {
      LookupIsFirst(e, entry + 1, stop);
      assert Lookup(e, entry, stop) == Lookup(e, entry + 1, stop);
    }
  }

  /** Every entry read from `entry` to `last` was read without error. */
  predicate ReadsClear(e: Eeprom, entry: nat, last: nat)
  {
    forall i :: entry <= i <= last ==> e.status(EntryAddress(i)) == 0
  }

  /** No entry is found only when every entry up to the first failed read has a zero span. */
  lemma {:induction false} LookupNoneIsEmpty(e: Eeprom, entry: nat, stop: nat)
    requires entry <= stop
    ensures Lookup(e, entry, stop).None? ==>
      forall j :: entry <= j < stop && ReadsClear(e, entry, j) ==> Span(e, EntryAddress(j)) == 0
    decreases stop - entry
  {
    if entry < stop && e.status(EntryAddress(entry)) == 0 && Span(e, EntryAddress(entry)) == 0 {
      LookupNoneIsEmpty(e, entry + 1, stop);
      assert Lookup(e, entry, stop) == Lookup(e, entry + 1, stop);
      forall j | entry < j < stop && ReadsClear(e, entry, j)
        ensures ReadsClear(e, entry + 1, j)
      {
      }
    }
  }

  /** The entry GetMusicEEPROM's loop stops on, if it does. */
  function FoundEntry(e: Eeprom, index: nat, channel: nat): Option<nat>
  {
    Lookup(e, FirstEntry(index, channel), FirstEntry(index, channel) + 256)
  }

  // ---------------------------------------------------------------------
  // The table notes2eeprom.py writes, as the lookup reads it

  /**
   * The EEPROM holds, from address 0, the offset table process_data builds
   * for `songs` (without the section count, which is not written), and
   * every read of it succeeds.
   */
  predicate HoldsTable(e: Eeprom, songs: seq<EepromImage.Song>, addressStart: nat)
    requires 4 * |songs| + 4 <= addressStart
  {
    (forall j {:trigger EepromImage.TableOf(songs, addressStart)[j]} :: 0 <= j < addressStart ==>
      e.contents(j) == EepromImage.TableOf(songs, addressStart)[j] as int) &&
    forall j :: 0 <= j < addressStart ==> e.status(j) == 0
  }

  /**
   * The offset lookup entry k stands for: the k-th channel offset, and for
   * k = 2n the end offset that follows the last one.
   */
  function StoredOffset(songs: seq<EepromImage.Song>, addressStart: nat, k: nat): nat
    requires k <= 2 * |songs|
  {
    if k < 2 * |songs| then EepromImage.Offsets(songs, addressStart)[k]
    else addressStart + EepromImage.Total(songs)
  }

  /** A byte of the table, as the EEPROM holds it. */
  lemma TableByte(e: Eeprom, songs: seq<EepromImage.Song>, addressStart: nat, j: nat)
    requires 4 * |songs| + 4 <= addressStart && HoldsTable(e, songs, addressStart) && j < addressStart
    ensures e.contents(j) == EepromImage.TableOf(songs, addressStart)[j] as int
  {
  }

  /** Entry k + 1 of the table (k < 2n) holds the k-th channel offset, little-endian. */
  lemma TableSlot(songs: seq<EepromImage.Song>, addressStart: nat, k: nat)
    requires 4 * |songs| + 4 <= addressStart && k < 2 * |songs|
    ensures var t := EepromImage.TableOf(songs, addressStart);
      var v := EepromImage.LE16(EepromImage.Offsets(songs, addressStart)[k]);
      2 * k + 3 < |t| && t[2 * k + 2] == v[0] && t[2 * k + 3] == v[1]
  {
    var t := EepromImage.TableOf(songs, addressStart);
    EepromImage.TableEntry(songs, addressStart, k + 1);
    var slot := t[2 * (k + 1)..2 * (k + 1) + 2];
    assert slot[0] == t[2 * k + 2] && slot[1] == t[2 * k + 3];
  }

  /** Entry 2n + 1 of the table holds the end offset, little-endian. */
  lemma TableEndSlot(songs: seq<EepromImage.Song>, addressStart: nat)
    requires 4 * |songs| + 4 <= addressStart
    ensures var t := EepromImage.TableOf(songs, addressStart);
      var v := EepromImage.LE16(addressStart + EepromImage.Total(songs));
      4 * |songs| + 3 < |t| && t[4 * |songs| + 2] == v[0] && t[4 * |songs| + 3] == v[1]
  {
    var t := EepromImage.TableOf(songs, addressStart);
    EepromImage.TableParts(songs, addressStart);
    var slot := t[4 * |songs| + 2..4 * |songs| + 4];
    assert slot[0] == t[4 * |songs| + 2] && slot[1] == t[4 * |songs| + 3];
  }

  /** Lookup entry k sits at table entry k + 1 and reads back as its offset modulo 2^16. */
  lemma EntryWord(e: Eeprom, songs: seq<EepromImage.Song>, addressStart: nat, k: nat)
    requires 4 * |songs| + 4 <= addressStart && HoldsTable(e, songs, addressStart)
    requires k <= 2 * |songs|
    ensures WordAt(e, EntryAddress(k)) == StoredOffset(songs, addressStart, k) % WORD
  {
    var v := StoredOffset(songs, addressStart, k);
    if k < 2 * |songs| {
      TableSlot(songs, addressStart, k);
    } else {
      TableEndSlot(songs, addressStart);
    }
    TableByte(e, songs, addressStart, 2 * k + 2);
    TableByte(e, songs, addressStart, 2 * k + 3);
    WordOfLE16(v);
  }

  /** uint16_t subtraction of two truncated offsets is their difference modulo 2^16. */
  lemma SubOfTruncated(x: nat, y: nat)
    requires y <= x
    ensures Sub16(x % WORD, y % WORD) == (x - y) % WORD
  {
    var q := x / WORD - y / WORD;
    assert x - y == q * WORD + (x % WORD - y % WORD);
    if x % WORD >= y % WORD {
      ModUnique(x - y, q, x % WORD - y % WORD);
    } else {
      ModUnique(x - y, q - 1, x % WORD - y % WORD + WORD);
    }
  }

  lemma ModUnique(d: nat, q: int, r: int)
    requires 0 <= r < WORD && d == q * WORD + r
    ensures d % WORD == r
  {
  }

  /** Where song i's channels start and end among the stored offsets. */
  lemma SongOffsetsStored(songs: seq<EepromImage.Song>, addressStart: nat, i: nat)
    requires i < |songs|
    ensures var start := addressStart + EepromImage.Total(songs[..i]);
      var a := EepromImage.Length(songs[i].channelA);
      var b := EepromImage.Length(songs[i].channelB);
      StoredOffset(songs, addressStart, 2 * i) == start &&
      StoredOffset(songs, addressStart, 2 * i + 1) == (if songs[i].channelB.Some? then start + a else start) &&
      StoredOffset(songs, addressStart, 2 * i + 2) == start + a + b
  {
    EepromImage.OffsetsAt(songs, addressStart, i);
    var prefix := songs[..i + 1];
    assert prefix[..|prefix| - 1] == songs[..i] && prefix[|prefix| - 1] == songs[i];
    if i + 1 < |songs| {
      EepromImage.OffsetsAt(songs, addressStart, i + 1);
    } else {
      assert prefix == songs;
    }
  }

  /** The span of lookup entry k is the distance to the next stored offset, modulo 2^16. */
  lemma EntrySpan(e: Eeprom, songs: seq<EepromImage.Song>, addressStart: nat, k: nat)
    requires 4 * |songs| + 4 <= addressStart && HoldsTable(e, songs, addressStart) && k < 2 * |songs|
    requires StoredOffset(songs, addressStart, k) <= StoredOffset(songs, addressStart, k + 1)
    ensures Span(e, EntryAddress(k)) ==
      (StoredOffset(songs, addressStart, k + 1) - StoredOffset(songs, addressStart, k)) % WORD
  {
    EntryWord(e, songs, addressStart, k);
    EntryWord(e, songs, addressStart, k + 1);
    assert EntryAddress(k) + ADDRESS_SIZE == EntryAddress(k + 1);
    SubOfTruncated(StoredOffset(songs, addressStart, k + 1), StoredOffset(songs, addressStart, k));
  }

  /** Entry 2i: Channel_A's start, spanning Channel_A, or nothing when Channel_B is missing. */
  lemma FirstEntryOfSong(e: Eeprom, songs: seq<EepromImage.Song>, addressStart: nat, i: nat)
    requires 4 * |songs| + 4 <= addressStart && HoldsTable(e, songs, addressStart) && i < |songs|
    ensures WordAt(e, EntryAddress(2 * i)) == (addressStart + EepromImage.Total(songs[..i])) % WORD
    ensures Span(e, EntryAddress(2 * i)) ==
      (if songs[i].channelB.Some? then EepromImage.Length(songs[i].channelA) else 0) % WORD
  {
    var x, y := StoredOffset(songs, addressStart, 2 * i), StoredOffset(songs, addressStart, 2 * i + 1);
    SongOffsetsStored(songs, addressStart, i);
    assert x == addressStart + EepromImage.Total(songs[..i]);
    assert y - x == if songs[i].channelB.Some? then EepromImage.Length(songs[i].channelA) else 0;
    EntryWord(e, songs, addressStart, 2 * i);
    EntrySpan(e, songs, addressStart, 2 * i);
  }

  /** Entry 2i+1: Channel_B's start, spanning Channel_B, or Channel_A's start and span when Channel_B is missing. */
  lemma SecondEntryOfSong(e: Eeprom, songs: seq<EepromImage.Song>, addressStart: nat, i: nat)
    requires 4 * |songs| + 4 <= addressStart && HoldsTable(e, songs, addressStart) && i < |songs|
    ensures var start := addressStart + EepromImage.Total(songs[..i]);
      var a := EepromImage.Length(songs[i].channelA);
      WordAt(e, EntryAddress(2 * i + 1)) == (if songs[i].channelB.Some? then start + a else start) % WORD
    ensures Span(e, EntryAddress(2 * i + 1)) ==
      (if songs[i].channelB.Some? then EepromImage.Length(songs[i].channelB) else EepromImage.Length(songs[i].channelA)) % WORD
  {
    var y, z := StoredOffset(songs, addressStart, 2 * i + 1), StoredOffset(songs, addressStart, 2 * i + 2);
    SongOffsetsStored(songs, addressStart, i);
    assert songs[i].channelB.None? ==> EepromImage.Length(songs[i].channelB) == 0;
    assert z - y == if songs[i].channelB.Some? then EepromImage.Length(songs[i].channelB) else EepromImage.Length(songs[i].channelA);
    EntryWord(e, songs, addressStart, 2 * i + 1);
    EntrySpan(e, songs, addressStart, 2 * i + 1);
  }

  /** One pass of the lookup. */
  lemma LookupStep(e: Eeprom, entry: nat, stop: nat)
    requires entry < stop
    ensures e.status(EntryAddress(entry)) != 0 ==> Lookup(e, entry, stop) == None
    ensures e.status(EntryAddress(entry)) == 0 && Span(e, EntryAddress(entry)) != 0 ==> Lookup(e, entry, stop) == Some(entry)
    ensures e.status(EntryAddress(entry)) == 0 && Span(e, EntryAddress(entry)) == 0 ==>
      Lookup(e, entry, stop) == Lookup(e, entry + 1, stop)
  {
  }

  /**
   * The lookup over a song's two entries, both read without error: a channel
   * stops at its own entry when that span is not zero, and channel 0 skips a
   * zero span on to entry 2i+1.
   */
  lemma PairLookup(e: Eeprom, i: nat)
    requires e.status(EntryAddress(2 * i)) == 0 && e.status(EntryAddress(2 * i + 1)) == 0
    ensures Span(e, EntryAddress(2 * i)) != 0 ==> FoundEntry(e, i, 0) == Some(2 * i)
    ensures Span(e, EntryAddress(2 * i)) == 0 && Span(e, EntryAddress(2 * i + 1)) != 0 ==>
      FoundEntry(e, i, 0) == Some(2 * i + 1)
    ensures Span(e, EntryAddress(2 * i + 1)) != 0 ==> FoundEntry(e, i, 1) == Some(2 * i + 1)
  {
    LookupStep(e, 2 * i, 2 * i + 256);
    LookupStep(e, 2 * i + 1, 2 * i + 256);
    LookupStep(e, 2 * i + 1, 2 * i + 1 + 256);
  }

  /**
   * The lookup over a song's two entries when their spans are those
   * process_data writes for channels of lengthA and lengthB bytes, none of
   * them wrapped modulo 2^16 (hasB says whether Channel_B was given).
   */
  lemma SongLookup(e: Eeprom, i: nat, start: nat, lengthA: nat, lengthB: nat, hasB: bool)
    requires e.status(EntryAddress(2 * i)) == 0 && e.status(EntryAddress(2 * i + 1)) == 0
    requires Span(e, EntryAddress(2 * i)) == if hasB then lengthA else 0
    requires Span(e, EntryAddress(2 * i + 1)) == if hasB then lengthB else lengthA
    ensures hasB && lengthA > 0 ==> FoundEntry(e, i, 0) == Some(2 * i) && Span(e, EntryAddress(2 * i)) == lengthA
    ensures hasB && lengthB > 0 ==> FoundEntry(e, i, 1) == Some(2 * i + 1) && Span(e, EntryAddress(2 * i + 1)) == lengthB
    ensures hasB && lengthA == 0 && lengthB > 0 ==> FoundEntry(e, i, 0) == Some(2 * i + 1)
    ensures !hasB && lengthA > 0 ==>
      FoundEntry(e, i, 0) == Some(2 * i + 1) && FoundEntry(e, i, 1) == Some(2 * i + 1) &&
      Span(e, EntryAddress(2 * i + 1)) == lengthA
  {
    PairLookup(e, i);
  }

  lemma SmallWord(x: nat)
    requires x < WORD
    ensures x % WORD == x
  {
  }

  /**
   * GetMusicEEPROM on a table process_data wrote, for channels shorter than
   * 2^16 bytes: channel 1 plays Channel_B's entry; channel 0 plays
   * Channel_A's entry, or skips the zero-span entry on to entry 2i+1 when
   * Channel_B is missing (both channels then play Channel_A) or when
   * Channel_A is empty (channel 0 then plays Channel_B).
   */
  lemma TableLookup(e: Eeprom, songs: seq<EepromImage.Song>, addressStart: nat, i: nat)
    requires 4 * |songs| + 4 <= addressStart && HoldsTable(e, songs, addressStart) && i < |songs|
    requires EepromImage.Length(songs[i].channelA) < WORD && EepromImage.Length(songs[i].channelB) < WORD
    ensures (songs[i].channelB.Some? && EepromImage.Length(songs[i].channelA) > 0) ==>
      FoundEntry(e, i, 0) == Some(2 * i) &&
      WordAt(e, EntryAddress(2 * i)) == (addressStart + EepromImage.Total(songs[..i])) % WORD &&
      Span(e, EntryAddress(2 * i)) == EepromImage.Length(songs[i].channelA)
    ensures (songs[i].channelB.Some? && EepromImage.Length(songs[i].channelB) > 0) ==>
      FoundEntry(e, i, 1) == Some(2 * i + 1) &&
      WordAt(e, EntryAddress(2 * i + 1)) ==
        (addressStart + EepromImage.Total(songs[..i]) + EepromImage.Length(songs[i].channelA)) % WORD &&
      Span(e, EntryAddress(2 * i + 1)) == EepromImage.Length(songs[i].channelB)
    ensures (songs[i].channelB.Some? && EepromImage.Length(songs[i].channelA) == 0 &&
      EepromImage.Length(songs[i].channelB) > 0) ==> FoundEntry(e, i, 0) == Some(2 * i + 1)
    ensures (songs[i].channelB.None? && EepromImage.Length(songs[i].channelA) > 0) ==>
      FoundEntry(e, i, 0) == Some(2 * i + 1) && FoundEntry(e, i, 1) == Some(2 * i + 1) &&
      WordAt(e, EntryAddress(2 * i + 1)) == (addressStart + EepromImage.Total(songs[..i])) % WORD &&
      Span(e, EntryAddress(2 * i + 1)) == EepromImage.Length(songs[i].channelA)
  {
    FirstEntryOfSong(e, songs, addressStart, i);
    SecondEntryOfSong(e, songs, addressStart, i);
    assert e.status(EntryAddress(2 * i)) == 0 && e.status(EntryAddress(2 * i + 1)) == 0;
    SmallWord(EepromImage.Length(songs[i].channelA));
    SmallWord(EepromImage.Length(songs[i].channelB));
    SmallWord(0);
    SongLookup(e, i, addressStart + EepromImage.Total(songs[..i]), EepromImage.Length(songs[i].channelA),
      EepromImage.Length(songs[i].channelB), songs[i].channelB.Some?);
  }

  /** The stream's start and length are those of the entry the lookup for `channel` of EEPROM song `index` stops on. */
  ghost predicate Located(e: Eeprom, index: nat, channel: nat, s: StreamState)
  {
    var found := FoundEntry(e, index, channel);
    found.Some? && s.start == WordAt(e, EntryAddress(found.value)) && s.length == Span(e, EntryAddress(found.value))
  }

  /** What GetMusicEEPROM comes to: it never returns, or returns the status of the first buffer's read. */
  datatype Fetch = Hangs | Fetched(status: bv8, first: ReadRequest)

  function Pow256(i: nat): nat
  {
    if i == 0 then 1 else 256 * Pow256(i - 1)
  }

  /** `b << (8 * i)`, as the decode loop widens it. */
  function Shifted(b: byte, i: nat): nat
  {
    b * Pow256(i)
  }

  /** The word the bytes at address..address+n-1 make, little-endian: the decode loop after n rounds. */
  function LowBytes(e: Eeprom, address: nat, n: nat): nat
  {
    if n == 0 then 0 else LowBytes(e, address, n - 1) + Shifted(e.contents(address + (n - 1)), n - 1)
  }

  /** Two rounds make the word. */
  lemma LowBytesWord(e: Eeprom, address: nat)
    ensures LowBytes(e, address, ADDRESS_SIZE) == WordAt(e, address)
  {
    assert Pow256(1) == 256;
    calc {
      LowBytes(e, address, 2);
      LowBytes(e, address, 1) + Shifted(e.contents(address + 1), 1);
      LowBytes(e, address, 0) + Shifted(e.contents(address), 0) + Shifted(e.contents(address + 1), 1);
      e.contents(address) as nat + 256 * e.contents(address + 1) as nat;
    }
  }

  /** Lines 157-161: the little-endian start and end offsets of the entry at `address`. */
  method DecodeOffsets(eeprom: Eeprom, address: nat) returns (start: nat, end: nat)
    ensures start == WordAt(eeprom, address) && end == WordAt(eeprom, address + ADDRESS_SIZE)
  {
    start, end := 0, 0;
    for offsetIndex := 0 to ADDRESS_SIZE
      invariant start == LowBytes(eeprom, address, offsetIndex)
      invariant end == LowBytes(eeprom, address + ADDRESS_SIZE, offsetIndex)
    {
      // The intended word: each byte lands in its own bits. As written, a high
      // byte of 0x80 or more is sign-extended by |= (see WordAsWritten).
      start := start + Shifted(eeprom.contents(address + offsetIndex), offsetIndex);
      end := end + Shifted(eeprom.contents(address + ADDRESS_SIZE + offsetIndex), offsetIndex);
    }
    LowBytesWord(eeprom, address);
    LowBytesWord(eeprom, address + ADDRESS_SIZE);
  }

  /** Lines 144-161: one pass's read of the entry at `address`; `status` is 0 on entry. */
  method ReadEntry(eeprom: Eeprom, address: nat, status: bv8) returns (status': bv8, start: nat, length: nat)
    requires status == 0
    ensures status' == eeprom.status(address)
    ensures status' == 0 ==> start == WordAt(eeprom, address) && length == Span(eeprom, address)
    ensures status' != 0 ==> start == 0 && length == 0
  {
    var end: nat := 0;
    start := 0;
    status' := status | eeprom.status(address);
    if status' == 0 {
      start, end := DecodeOffsets(eeprom, address);
    }
    length := Sub16(end, start);
  }

  /** Entry j was read without error and has a zero span. */
  ghost predicate Cleared(e: Eeprom, j: nat)
  {
    e.status(EntryAddress(j)) == 0 && Span(e, EntryAddress(j)) == 0
  }

  /** Every entry in [low, high) was read without error and has a zero span. */
  ghost predicate Clear(e: Eeprom, low: nat, high: nat)
  {
    forall j :: low <= j < high ==> Cleared(e, j)
  }

  /** A search passes over cleared entries unchanged. */
  lemma {:induction false} LookupSkipsClear(e: Eeprom, low: nat, high: nat, stop: nat)
    requires low <= high <= stop && Clear(e, low, high)
    ensures Lookup(e, low, stop) == Lookup(e, high, stop)
    decreases high - low
  {
    if low < high {
      assert Cleared(e, low);
      assert Lookup(e, low, stop) == Lookup(e, low + 1, stop);
      LookupSkipsClear(e, low + 1, high, stop);
    }
  }

  /** Lines 169-177: read the first min(length, 32) bytes into the data buffer. */
  method ReadFirstBuffer(stream: Stream, eeprom: Eeprom, status: bv8) returns (status': bv8, first: ReadRequest)
    ensures status' == status | eeprom.status(stream.start)
    ensures first == ReadRequest(stream.start, stream.data, Min(stream.length, BUFFER_SIZE))
  {
    if stream.length >= BUFFER_SIZE {
      status' := status | eeprom.status(stream.start);
      first := ReadRequest(stream.start, stream.data, BUFFER_SIZE);
    } else {
      status' := status | eeprom.status(stream.start);
      first := ReadRequest(stream.start, stream.data, stream.length);
    }
  }

  /** One more cleared entry extends a cleared range. */
  lemma ClearExtend(e: Eeprom, low: nat, high: nat)
    requires Clear(e, low, high) && Cleared(e, high)
    ensures Clear(e, low, high + 1)
  {
  }

  /**
   * One pass of the search from first, with every entry before entry
   * cleared: a failed read ends the lookup with nothing, a nonzero span is
   * the entry found, and a zero span clears one more entry.
   */
  lemma PassStep(e: Eeprom, first: nat, entry: nat)
    requires first <= entry < first + 256 && Clear(e, first, entry)
    ensures e.status(EntryAddress(entry)) != 0 ==> Lookup(e, first, first + 256) == None
    ensures e.status(EntryAddress(entry)) == 0 && Span(e, EntryAddress(entry)) != 0 ==>
      Lookup(e, first, first + 256) == Some(entry)
    ensures e.status(EntryAddress(entry)) == 0 && Span(e, EntryAddress(entry)) == 0 ==> Clear(e, first, entry + 1)
  {
    LookupSkipsClear(e, first, entry, first + 256);
    LookupStep(e, entry, first + 256);
    if Cleared(e, entry) {
      ClearExtend(e, first, entry);
    }
  }

  /** A search whose 256 entries were all cleared finds nothing. */
  lemma AllCleared(e: Eeprom, first: nat)
    requires Clear(e, first, first + 256)
    ensures Lookup(e, first, first + 256) == None
  {
    LookupSkipsClear(e, first, first + 256, first + 256);
  }

  /**
   * The loop of lines 141-167 entered with stream->length 0: pass over the
   * table entries from the channel's own until one has a nonzero span.
   * `found` is false when the loop would never end; `status` is 0 whenever
   * it does end.
   */
  method Passes(eeprom: Eeprom, index: nat, channel: nat) returns (found: bool, start: nat, length: nat)
    ensures start < LONG && length < WORD
    ensures found <==> FoundEntry(eeprom, index, channel).Some?
    ensures found ==>
      var entry := FoundEntry(eeprom, index, channel).value;
      start == WordAt(eeprom, EntryAddress(entry)) && length == Span(eeprom, EntryAddress(entry))
  {
    ghost var first := FirstEntry(index, channel);
    ghost var entry := first;  // the entry this pass reads
    ghost var last := first;   // the entry the last pass read
    start, length := 0, 0;
    var status: bv8 := 0;
    var channelOffset: nat := 0;
    var k: nat := 0;  // passes so far; not in the source, it detects the repeat
    while length == 0 || status != 0
      invariant status == 0 && k <= 256 && (k < 256 ==> channelOffset == k) && entry == first + k
      invariant start < LONG && length < WORD
      invariant length == 0 ==> Clear(eeprom, first, entry)
      invariant length != 0 ==> (Lookup(eeprom, first, first + 256) == Some(last) &&
        start == WordAt(eeprom, EntryAddress(last)) && length == Span(eeprom, EntryAddress(last)))
      decreases 256 - k
    {
      if k == 256 {
        // channel_offset has wrapped: every later pass repeats an earlier one.
        AllCleared(eeprom, first);
        return false, start, length;
      }
      // ADDRESS_SIZE * (index * CHANNEL_COUNT + channel + channel_offset) + ADDRESS_SIZE
      var address := EntryAddress(FirstEntry(index, channel) + channelOffset);
      assert address == EntryAddress(entry);
      channelOffset := (channelOffset + 1) % 256;
      PassStep(eeprom, first, entry);
      status, start, length := ReadEntry(eeprom, address, status);
      if status != 0 {
        // status stays nonzero, so the loop condition holds for good.
        return false, start, length;
      }
      k := k + 1;
      last, entry := entry, entry + 1;
    }
    found := true;
  }

  /**
   * The loop of lines 141-167 on the stream's start and length. A nonzero
   * stream->length fails the loop condition at once and is kept; otherwise
   * the passes run.
   */
  method Search(eeprom: Eeprom, index: nat, channel: nat, start0: nat, length0: nat)
    returns (found: bool, start: nat, length: nat)
    requires start0 < LONG && length0 < WORD
    ensures start < LONG && length < WORD
    ensures length0 != 0 ==> found && start == start0 && length == length0
    ensures length0 == 0 ==> (found <==> FoundEntry(eeprom, index, channel).Some?)
    ensures length0 == 0 && found ==>
      var entry := FoundEntry(eeprom, index, channel).value;
      start == WordAt(eeprom, EntryAddress(entry)) && length == Span(eeprom, EntryAddress(entry))
  {
    if length0 != 0 {
      return true, start0, length0;
    }
    found, start, length := Passes(eeprom, index, channel);
  }

  /** Lines 141-167 of GetMusicEEPROM: the search, with stream->start and stream->length set as it leaves them. */
  method SeekEntry(index: nat, channel: nat, stream: Stream, eeprom: Eeprom) returns (found: bool)
    requires stream.Valid()
    modifies stream
    ensures stream.Valid()
    ensures stream.State() == old(stream.State()).(start := stream.start, length := stream.length)
    ensures old(stream.length) != 0 ==> found && stream.start == old(stream.start) && stream.length == old(stream.length)
    ensures old(stream.length) == 0 ==> (found <==> FoundEntry(eeprom, index, channel).Some?)
    ensures old(stream.length) == 0 && found ==>
      var entry := FoundEntry(eeprom, index, channel).value;
      stream.start == WordAt(eeprom, EntryAddress(entry)) &&
      stream.length == Span(eeprom, EntryAddress(entry))
  {
    var start, length;
    found, start, length := Search(eeprom, index, channel, stream.start, stream.length);
    stream.start, stream.length := start, length;
  }

  /**
   * GetMusicEEPROM(index, channel, stream) (lines 133-180): find the
   * channel's start and length in the offset table, then read its first
   * buffer. The decoding here is the evidently intended one, `Word`.
   */
  method GetMusicEEPROM(index: nat, channel: nat, stream: Stream, eeprom: Eeprom) returns (r: Fetch)
    requires stream.Valid()
    modifies stream
    ensures stream.Valid()
    ensures stream.State() == old(stream.State()).(start := stream.start, length := stream.length)
    ensures r.Fetched? ==>
      r == Fetched(eeprom.status(stream.start), ReadRequest(stream.start, stream.data, Min(stream.length, BUFFER_SIZE)))
    ensures old(stream.length) != 0 ==> r.Fetched? && stream.start == old(stream.start) && stream.length == old(stream.length)
    ensures old(stream.length) == 0 ==> (r == Hangs <==> FoundEntry(eeprom, index, channel).None?)
    ensures old(stream.length) == 0 && r.Fetched? ==> Located(eeprom, index, channel, stream.State())
  {
    var found := SeekEntry(index, channel, stream, eeprom);
    if !found {
      return Hangs;
    }
    var status, first := ReadFirstBuffer(stream, eeprom, 0);
    r := Fetched(status, first);
  }

  // ---------------------------------------------------------------------
  // PlayMusic

  /** The file-scope statics of Music.cpp. */
  class Player {
    const channelA: array<bv8>   // music_channel_A
    const channelB: array<bv8>   // music_channel_B
    const streamA: Stream        // I2CStreamA
    const streamB: Stream        // I2CStreamB

    ghost predicate Valid()
      reads this, streamA, streamB
    {
      channelA.Length == PADDED_BUFFER_SIZE && channelB.Length == PADDED_BUFFER_SIZE &&
      channelA != channelB && streamA != streamB && streamA.Valid() && streamB.Valid()
    }

    /** Lines 36-39 as written: each array starts with NOTE::END, and B's next points into A. */
    constructor (endNote: bv8)
      ensures Valid() && fresh(channelA) && fresh(channelB) && fresh(streamA) && fresh(streamB)
      ensures channelA[0] == endNote && channelB[0] == endNote
      ensures forall i :: 1 <= i < PADDED_BUFFER_SIZE ==> channelA[i] == 0 && channelB[i] == 0
      ensures streamA.State() == StreamState(InitialRing(ChannelA), 0, 0, 0, true, false)
      ensures streamB.State() == StreamState(InitialRing(ChannelB), 0, 0, 0, true, false)
    {
      channelA := new bv8[PADDED_BUFFER_SIZE](i => if i == 0 then endNote else 0);
      channelB := new bv8[PADDED_BUFFER_SIZE](i => if i == 0 then endNote else 0);
      streamA := new Stream(InitialRing(ChannelA));
      streamB := new Stream(InitialRing(ChannelB));
    }
  }

  /** What PlayMusic starts: a built-in tune, the two EEPROM streams, or nothing because a lookup never returns. */
  datatype Playback = Inbuilt(song: nat) | Streamed(a: Fetch, b: Fetch) | Stuck

  /**
   * PlayMusic(index) (lines 184-207): indices below INBUILT_SONG_COUNT play
   * from program memory; the others reset both streams to their own
   * channel's three buffers, look up EEPROM song index - 2 and load each
   * stream's first buffer, which g_audio.Play then receives.
   */
  method PlayMusic(player: Player, index: nat, eeprom: Eeprom) returns (r: Playback)
    requires player.Valid() && index < 256
    modifies player.streamA, player.streamB
    ensures player.Valid()
    ensures index < INBUILT_SONG_COUNT ==> (r == Inbuilt(index) &&
      player.streamA.State() == old(player.streamA.State()) && player.streamB.State() == old(player.streamB.State()))
    ensures index >= INBUILT_SONG_COUNT ==>
      player.streamA.State() == StreamState(Thirds(ChannelA), player.streamA.start, player.streamA.length, 0, true, false) &&
      player.streamB.State() == StreamState(Thirds(ChannelB), player.streamB.start, player.streamB.length, 0, true, false)
    ensures index >= INBUILT_SONG_COUNT ==>
      var song := index - INBUILT_SONG_COUNT;
      (r == Stuck <==> FoundEntry(eeprom, song, 0).None? || FoundEntry(eeprom, song, 1).None?) &&
      (r.Streamed? ==>
        Located(eeprom, song, 0, player.streamA.State()) && Located(eeprom, song, 1, player.streamB.State()))
    ensures r.Streamed? ==>
      r.a == Fetched(eeprom.status(player.streamA.start),
        ReadRequest(player.streamA.start, player.streamA.data, Min(player.streamA.length, BUFFER_SIZE))) &&
      r.b == Fetched(eeprom.status(player.streamB.start),
        ReadRequest(player.streamB.start, player.streamB.data, Min(player.streamB.length, BUFFER_SIZE)))
  {
    if index < INBUILT_SONG_COUNT {
      return Inbuilt(index);
    }
    ghost var song := index - INBUILT_SONG_COUNT;
    player.streamA.Reset(Thirds(ChannelA));
    player.streamB.Reset(Thirds(ChannelB));
    var a := GetMusicEEPROM(index - INBUILT_SONG_COUNT, 0, player.streamA, eeprom);
    if a.Hangs? {
      assert FoundEntry(eeprom, song, 0).None?;
      return Stuck;
    }
    ghost var afterA := player.streamA.State();
    assert Located(eeprom, song, 0, afterA);
    var b := GetMusicEEPROM(index - INBUILT_SONG_COUNT, 1, player.streamB, eeprom);
    assert player.streamA.State() == afterA;
    if b.Hangs? {
      assert FoundEntry(eeprom, song, 1).None?;
      return Stuck;
    }
    ghost var afterB := player.streamB.State();
    assert Located(eeprom, song, 1, afterB);
    r := Streamed(a, b);
  }
}
