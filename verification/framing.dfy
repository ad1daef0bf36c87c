/**
 * The byte-level framing of the EEPROM image built by notes2eeprom.py:
 * byte stuffing (escape_array), fixed-size chunking (chunks) and the
 * section splitter of the UART and SPI transmitters.
 */
module Framing {

  const POLL_SECTION_INDICATOR: bv8 := 0xFC
  const POLL_STATUS_INDICATOR: bv8 := 0xFD
  const SECTION_INDICATOR: bv8 := 0xFE
  const ESCAPE_INDICATOR: bv8 := 0xFF

  /** The four bytes with a meaning on the wire; escape_array prefixes each with 0xFF. */
  predicate IsIndicator(b: bv8)
  {
    b == ESCAPE_INDICATOR || b == SECTION_INDICATOR ||
    b == POLL_STATUS_INDICATOR || b == POLL_SECTION_INDICATOR
  }

  /** What escape_array appends for one input byte. */
  function EscapedByte(b: bv8): seq<bv8>
  {
    if IsIndicator(b) then [ESCAPE_INDICATOR, b] else [b]
  }

  /** The escaped copy of s, built front to back as escape_array builds it. */
  function Escaped(s: seq<bv8>): seq<bv8>
  {
    if |s| == 0 then [] else Escaped(s[..|s| - 1]) + EscapedByte(s[|s| - 1])
  }

  /** How many bytes of s are indicators. */
  function IndicatorCount(s: seq<bv8>): nat
  {
    if |s| == 0 then 0 else IndicatorCount(s[..|s| - 1]) + (if IsIndicator(s[|s| - 1]) then 1 else 0)
  }

  /** Removes each escape prefix: a 0xFF followed by a byte stands for that byte. */
  function Unescape(e: seq<bv8>): seq<bv8>
    decreases |e|
  {
    if |e| == 0 then []
    else if e[0] == ESCAPE_INDICATOR && |e| >= 2 then [e[1]] + Unescape(e[2..])
    else [e[0]] + Unescape(e[1..])
  }

  /** Escaping distributes over concatenation. */
  lemma {:induction false} EscapedAppend(a: seq<bv8>, b: seq<bv8>)
    ensures Escaped(a + b) == Escaped(a) + Escaped(b)
    decreases |b|
  {
    if |b| == 0 {
      assert a + b == a;
    } else {
      var b' := b[..|b| - 1];
      assert (a + b)[..|a + b| - 1] == a + b';
      EscapedAppend(a, b');
    }
  }

  /** The escaped copy is one byte longer per indicator. */
  lemma {:induction false} EscapedLength(s: seq<bv8>)
    ensures |Escaped(s)| == |s| + IndicatorCount(s)
  {
    if |s| > 0 {
      EscapedLength(s[..|s| - 1]);
    }
  }

  lemma UnescapeEscapedByte(b: bv8, t: seq<bv8>)
    ensures Unescape(EscapedByte(b) + t) == [b] + Unescape(t)
  {
    if IsIndicator(b) {
      var e := EscapedByte(b) + t;
      assert e[0] == ESCAPE_INDICATOR && e[1] == b && e[2..] == t;
    } else {
      var e := EscapedByte(b) + t;
      assert e[0] == b && e[1..] == t;
    }
  }

  /** Removing the inserted escapes gives back the input. */
  lemma {:induction false} UnescapeEscaped(s: seq<bv8>)
    ensures Unescape(Escaped(s)) == s
    decreases |s|
  {
    if |s| > 0 {
      assert s == [s[0]] + s[1..];
      EscapedAppend([s[0]], s[1..]);
      assert Escaped([s[0]]) == EscapedByte(s[0]) by {
        assert [s[0]][..0] == [];
      }
      UnescapeEscapedByte(s[0], Escaped(s[1..]));
      UnescapeEscaped(s[1..]);
    }
  }

  /**
   * escape_array: a fresh copy with 0xFF written before every indicator.
   */
  method EscapeArray(input: seq<bv8>) returns (copy: seq<bv8>)
    ensures copy == Escaped(input)
    ensures |copy| == |input| + IndicatorCount(input)
    ensures Unescape(copy) == input
  {
    copy := [];
    for i := 0 to |input|
      invariant copy == Escaped(input[..i])
    {
      var b := input[i];
      if IsIndicator(b) {
        copy := copy + [ESCAPE_INDICATOR];
      }
      copy := copy + [b];
      assert input[..i + 1][..i] == input[..i];
    }
    assert input[..|input|] == input;
    EscapedLength(input);
    UnescapeEscaped(input);
  }

  /** The concatenation of a list of byte strings. */
  function Flatten(pieces: seq<seq<bv8>>): seq<bv8>
  {
    if |pieces| == 0 then [] else pieces[0] + Flatten(pieces[1..])
  }

  /** chunks(l, n): successive slices l[i:i+n] for i = 0, n, 2n, ... */
  function Chunks(l: seq<bv8>, n: nat): seq<seq<bv8>>
    requires n > 0
    decreases |l|
  {
    if |l| == 0 then [] else if |l| <= n then [l] else [l[..n]] + Chunks(l[n..], n)
  }

  /** The chunks put back together are the input. */
  lemma {:induction false} ChunksFlatten(l: seq<bv8>, n: nat)
    requires n > 0
    ensures Flatten(Chunks(l, n)) == l
    decreases |l|
  {
    if |l| > n {
      ChunksFlatten(l[n..], n);
      assert ([l[..n]] + Chunks(l[n..], n))[1..] == Chunks(l[n..], n);
      assert l == l[..n] + l[n..];
    } else if |l| > 0 {
      assert [l][1..] == [];
    }
  }

  /** Every chunk is nonempty and at most n long, and all but the last are exactly n long. */
  lemma {:induction false} ChunksSizes(l: seq<bv8>, n: nat)
    requires n > 0
    ensures forall i :: 0 <= i < |Chunks(l, n)| ==> 0 < |Chunks(l, n)[i]| <= n
    ensures forall i :: 0 <= i < |Chunks(l, n)| - 1 ==> |Chunks(l, n)[i]| == n
    decreases |l|
  {
    if |l| > n {
      ChunksSizes(l[n..], n);
      var r := Chunks(l, n);
      var r' := Chunks(l[n..], n);
      assert r == [l[..n]] + r';
      forall i | 0 <= i < |r|
        ensures 0 < |r[i]| <= n && (i < |r| - 1 ==> |r[i]| == n)
      {
        if i > 0 {
          assert r[i] == r'[i - 1];
          assert 0 < |r'[i - 1]| <= n;
        } else {
          assert r[0] == l[..n];
        }
      }
    }
  }

  /** There are at most as many chunks as bytes, and enough of them to hold every byte. */
  lemma {:induction false} ChunksCount(l: seq<bv8>, n: nat)
    requires n > 0
    ensures |Chunks(l, n)| <= |l| <= |Chunks(l, n)| * n
    decreases |l|
  {
    if |l| > n {
      ChunksCount(l[n..], n);
      var k := |Chunks(l[n..], n)|;
      assert |Chunks(l, n)| == k + 1;
      assert (k + 1) * n == k * n + n;
    }
  }

  /** What the splitter has collected: the closed sections and the bytes after the last one. */
  datatype Split = Split(sections: seq<seq<bv8>>, pending: seq<bv8>)

  /**
   * The splitter loop, from a state where `previous` is the last byte seen
   * and `section` the bytes of the open section: every byte joins the open
   * section, and a 0xFE whose predecessor is not 0xFF closes it.
   */
  function SplitFrom(data: seq<bv8>, previous: bv8, section: seq<bv8>): Split
    decreases |data|
  {
    if |data| == 0 then Split([], section)
    else
      var b := data[0];
      if b == SECTION_INDICATOR && previous != ESCAPE_INDICATOR then
        var rest := SplitFrom(data[1..], b, []);
        Split([section + [b]] + rest.sections, rest.pending)
      else
        SplitFrom(data[1..], b, section + [b])
  }

  /** The sections the transmitter sends, from its initial state (previous_byte = 0). */
  function Sections(data: seq<bv8>): seq<seq<bv8>>
  {
    SplitFrom(data, 0, []).sections
  }

  /** The splitter only cuts: its sections and pending bytes are the input, in order. */
  lemma {:induction false} SplitKeepsBytes(data: seq<bv8>, previous: bv8, section: seq<bv8>)
    ensures var r := SplitFrom(data, previous, section);
      Flatten(r.sections) + r.pending == section + data
    decreases |data|
  {
    if |data| > 0 {
      var b := data[0];
      assert section + data == (section + [b]) + data[1..];
      if b == SECTION_INDICATOR && previous != ESCAPE_INDICATOR {
        var rest := SplitFrom(data[1..], b, []);
        SplitKeepsBytes(data[1..], b, []);
        CutKeepsBytes(section + [b], rest, data[1..]);
        assert SplitFrom(data, previous, section) == Split([section + [b]] + rest.sections, rest.pending);
      } else {
        SplitKeepsBytes(data[1..], b, section + [b]);
      }
    }
  }

  /** Closing a section in front of the rest keeps the bytes in order. */
  lemma CutKeepsBytes(closed: seq<bv8>, rest: Split, data: seq<bv8>)
    requires Flatten(rest.sections) + rest.pending == data
    ensures Flatten([closed] + rest.sections) + rest.pending == closed + data
  {
    var all := [closed] + rest.sections;
    assert all[0] == closed && all[1..] == rest.sections;
  }

  /** Every closed section ends in 0xFE. */
  lemma {:induction false} SectionsEndInIndicator(data: seq<bv8>, previous: bv8, section: seq<bv8>)
    ensures forall s :: s in SplitFrom(data, previous, section).sections ==>
      |s| > 0 && s[|s| - 1] == SECTION_INDICATOR
    decreases |data|
  {
    if |data| > 0 {
      var b := data[0];
      if b == SECTION_INDICATOR && previous != ESCAPE_INDICATOR {
        SectionsEndInIndicator(data[1..], b, []);

      } else {
        SectionsEndInIndicator(data[1..], b, section + [b]);
      }
    }
  }

  /**
   * The section loop of transmit_UART and transmit_helper_SPI: split the
   * image into the sections that are written one at a time.
   */
  method SplitSections(data: seq<bv8>) returns (sections: seq<seq<bv8>>)
    ensures sections == Sections(data)
  {
    var previous: bv8 := 0;
    var section: seq<bv8> := [];
    sections := [];
    for i := 0 to |data|
      invariant sections + SplitFrom(data[i..], previous, section).sections == Sections(data)
    {
      var b := data[i];
      assert data[i..][0] == b && data[i..][1..] == data[i + 1..];
      section := section + [b];
      if b == SECTION_INDICATOR && previous != ESCAPE_INDICATOR {
        sections := sections + [section];
        section := [];
      }
      previous := b;
    }
  }

  /** One escaped byte passes through the splitter without closing a section. */
  lemma SplitEscapedByte(x: bv8, t: seq<bv8>, previous: bv8, section: seq<bv8>)
    ensures SplitFrom(EscapedByte(x) + t, previous, section) == SplitFrom(t, x, section + EscapedByte(x))
  {
    var e := EscapedByte(x) + t;
    if IsIndicator(x) {
      assert e[0] == ESCAPE_INDICATOR && e[1..] == [x] + t;
      assert ([x] + t)[0] == x && ([x] + t)[1..] == t;
      assert section + [ESCAPE_INDICATOR] + [x] == section + EscapedByte(x);
    } else {
      assert e[0] == x && e[1..] == t;
    }
  }

  /**
   * An escaped string never closes a section: the splitter comes out of it
   * with the whole of it in the open section and its last raw byte as
   * `previous`.
   */
  lemma {:induction false} SplitEscaped(c: seq<bv8>, t: seq<bv8>, previous: bv8, section: seq<bv8>)
    requires |c| > 0
    ensures SplitFrom(Escaped(c) + t, previous, section) == SplitFrom(t, c[|c| - 1], section + Escaped(c))
    decreases |c|
  {
    var c' := c[..|c| - 1];
    var x := c[|c| - 1];
    assert Escaped(c) + t == Escaped(c') + (EscapedByte(x) + t);
    if |c'| == 0 {
      assert Escaped(c) == EscapedByte(x);
      SplitEscapedByte(x, t, previous, section);
    } else {
      SplitEscaped(c', EscapedByte(x) + t, previous, section);
      SplitEscapedByte(x, t, c'[|c'| - 1], section + Escaped(c'));
      assert section + Escaped(c') + EscapedByte(x) == section + Escaped(c);
    }
  }

  /** A frame: the escaped bytes and the section indicator. */
  function Frame(c: seq<bv8>): seq<bv8>
  {
    Escaped(c) + [SECTION_INDICATOR]
  }

  /** The frames of a list of strings, one after another. */
  function Framed(cs: seq<seq<bv8>>): seq<bv8>
  {
    if |cs| == 0 then [] else Frame(cs[0]) + Framed(cs[1..])
  }

  /** Framing distributes over concatenation of the lists. */
  lemma {:induction false} FramedAppend(xs: seq<seq<bv8>>, ys: seq<seq<bv8>>)
    ensures Framed(xs + ys) == Framed(xs) + Framed(ys)
    decreases |xs|
  {
    if |xs| == 0 {
      assert xs + ys == ys;
    } else {
      assert (xs + ys)[0] == xs[0] && (xs + ys)[1..] == xs[1..] + ys;
      FramedAppend(xs[1..], ys);
    }
  }

  /** A frame whose content does not end in 0xFF is closed by its own indicator. */
  lemma FrameSplits(c: seq<bv8>, rest: seq<bv8>, previous: bv8, section: seq<bv8>)
    requires |c| > 0 && c[|c| - 1] != ESCAPE_INDICATOR
    ensures var r := SplitFrom(rest, SECTION_INDICATOR, []);
      SplitFrom(Frame(c) + rest, previous, section) == Split([section + Frame(c)] + r.sections, r.pending)
  {
    assert Frame(c) + rest == Escaped(c) + ([SECTION_INDICATOR] + rest);
    SplitEscaped(c, [SECTION_INDICATOR] + rest, previous, section);
    var t := [SECTION_INDICATOR] + rest;
    assert t[0] == SECTION_INDICATOR && t[1..] == rest;
    assert section + Escaped(c) + [SECTION_INDICATOR] == section + Frame(c);
  }

  /** The frames of a list of strings, as a list. */
  function Frames(cs: seq<seq<bv8>>): (r: seq<seq<bv8>>)
    ensures |r| == |cs|
  {
    seq(|cs|, i requires 0 <= i < |cs| => Frame(cs[i]))
  }

  /**
   * Framed strings that are nonempty and do not end in 0xFF split back into
   * exactly their frames, with nothing pending.
   */
  lemma {:induction false} FramedSplits(cs: seq<seq<bv8>>, previous: bv8)
    requires forall i :: 0 <= i < |cs| ==> |cs[i]| > 0 && cs[i][|cs[i]| - 1] != ESCAPE_INDICATOR
    ensures SplitFrom(Framed(cs), previous, []) == Split(Frames(cs), [])
    decreases |cs|
  {
    if |cs| > 0 {
      FrameSplits(cs[0], Framed(cs[1..]), previous, []);
      FramedSplits(cs[1..], SECTION_INDICATOR);
      assert [] + Frame(cs[0]) == Frame(cs[0]);
      assert Frames(cs) == [Frame(cs[0])] + Frames(cs[1..]);
    }
  }

  /**
   * The splitter's blind spot: when the content ends in 0xFF, the escaped
   * frame ends in 0xFF 0xFF 0xFE and its indicator does not close it.
   */
  lemma FrameAfterEscapedFFIsNotClosed(c: seq<bv8>)
    requires |c| > 0 && c[|c| - 1] == ESCAPE_INDICATOR
    ensures SplitFrom(Frame(c), 0, []) == Split([], Frame(c))
  {
    SplitEscaped(c, [SECTION_INDICATOR], 0, []);
    assert [] + Escaped(c) + [SECTION_INDICATOR] == Frame(c);
  }

  /** A single frame is one section exactly when its content does not end in 0xFF. */
  lemma OneSectionIff(c: seq<bv8>)
    ensures Sections(Frame(c)) == [Frame(c)] <==> |c| == 0 || c[|c| - 1] != ESCAPE_INDICATOR
  {
    if |c| == 0 {
      var f := Frame(c);
      assert f == [SECTION_INDICATOR];
      assert f[0] == SECTION_INDICATOR && f[1..] == [];
      assert SplitFrom(f, 0, []) == Split([[] + [SECTION_INDICATOR]] + SplitFrom([], SECTION_INDICATOR, []).sections, []);
      assert [] + [SECTION_INDICATOR] == f;
    } else if c[|c| - 1] == ESCAPE_INDICATOR {
      FrameAfterEscapedFFIsNotClosed(c);
    } else {
      FrameSplits(c, [], 0, []);
      assert Frame(c) + [] == Frame(c);
      assert [] + Frame(c) == Frame(c);
      assert [Frame(c)] + [] == [Frame(c)];
    }
  }

  /** The inserted escapes are ignored by Unescape: a frame's content is recoverable. */
  lemma FrameContent(c: seq<bv8>)
    ensures Frame(c)[..|Frame(c)| - 1] == Escaped(c)
    ensures Unescape(Frame(c)[..|Frame(c)| - 1]) == c
  {
    assert Frame(c)[..|Frame(c)| - 1] == Escaped(c);
    UnescapeEscaped(c);
  }
}
