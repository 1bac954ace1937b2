/** The record framing of segment mode: a packed header of a 32-bit magic and a 16-bit length,
    the text, and a NUL that the length counts. */
module Segments {
  import opened Bytes

  type Line = seq<byte>

  const SEGMENT_MAGIC := 0xFF446154
  const HEAD_SIZE: nat := 6
  const FRAME_OVERHEAD: nat := HEAD_SIZE + 1

  /** The bytes a log keeps for one line. */
  function Frame(segment: bool, line: Line): (f: seq<byte>)
    ensures |f| == |line| + if segment then FRAME_OVERHEAD else 0
  {
    if segment then Put32(SEGMENT_MAGIC) + Put16(|line| + 1) + line + [0] else line
  }

  /** A record byte by byte: the magic FF446154 and the length with its NUL, little-endian, the text, and
      the NUL. */
  lemma FrameBytes(line: Line)
    requires |line| + 1 < 0x1_0000
    ensures Frame(true, line) == [0x54, 0x61, 0x44, 0xFF, (|line| + 1) % 256, (|line| + 1) / 256] + line + [0]
    ensures Frame(false, line) == line
  {
    assert Put32(SEGMENT_MAGIC) == [0x54, 0x61, 0x44, 0xFF];
    assert Put16(|line| + 1) == [(|line| + 1) % 256, (|line| + 1) / 256];
  }

  /** What the record parser finds at one position of memory. */
  datatype Found =
    | NoMagic
    | OutOfRange
    | Record(text: Line, size: nat)

  function Decode(mem: seq<byte>, at: nat): Found
  {
    if at + HEAD_SIZE > |mem| then OutOfRange
    else if Get32(mem[at..at + 4]) != SEGMENT_MAGIC then NoMagic
    else
      var len := Get16(mem[at + 4..at + 6]);
      if at + HEAD_SIZE + len > |mem| then OutOfRange
      else Record(mem[at + HEAD_SIZE..at + HEAD_SIZE + if len == 0 then 0 else len - 1], HEAD_SIZE + len)
  }

  lemma SubSlice(mem: seq<byte>, at: nat, n: nat, i: nat, j: nat)
    requires i <= j <= n && at + n <= |mem|
    ensures mem[at..at + n][i..j] == mem[at + i..at + j]
  {
    var s := mem[at..at + n];
    forall k | 0 <= k < j - i
      ensures s[i..j][k] == mem[at + i..at + j][k]
    {
      assert s[i..j][k] == s[i + k];
    }
  }

  lemma FrameParts(line: Line)
    ensures Frame(true, line)[0..4] == Put32(SEGMENT_MAGIC)
    ensures Frame(true, line)[4..6] == Put16(|line| + 1)
    ensures Frame(true, line)[6..6 + |line|] == line
  {
  }

  /** A framed line reads back as exactly that line, and the record ends where the frame ends. */
  lemma DecodeFrame(mem: seq<byte>, at: nat, line: Line)
    requires |line| + 1 < 0x1_0000
    requires at + |line| + FRAME_OVERHEAD <= |mem|
    requires mem[at..at + |line| + FRAME_OVERHEAD] == Frame(true, line)
    ensures Decode(mem, at) == Record(line, |line| + FRAME_OVERHEAD)
  {
    var n := |line| + FRAME_OVERHEAD;
    FrameParts(line);
    SubSlice(mem, at, n, 0, 4);
    SubSlice(mem, at, n, 4, 6);
    SubSlice(mem, at, n, 6, 6 + |line|);
    assert Get32(mem[at..at + 4]) == SEGMENT_MAGIC by { Get32Put32(SEGMENT_MAGIC); }
    assert Get16(mem[at + 4..at + 6]) == |line| + 1 by { Get16Put16(|line| + 1); }
  }

  /** The bytes of a sequence of lines, one after the other. */
  function Flat(segment: bool, lines: seq<Line>): seq<byte>
  {
    if lines == [] then [] else Flat(segment, lines[..|lines| - 1]) + Frame(segment, lines[|lines| - 1])
  }

  lemma {:induction false} FlatConcat(segment: bool, a: seq<Line>, b: seq<Line>)
    ensures Flat(segment, a + b) == Flat(segment, a) + Flat(segment, b)
  {
    if b == [] {
      assert a + b == a;
    } else {
      var c := b[..|b| - 1];
      assert (a + b)[..|a + b| - 1] == a + c;
      FlatConcat(segment, a, c);
    }
  }

  lemma FlatSnoc(segment: bool, a: seq<Line>, x: Line)
    ensures Flat(segment, a + [x]) == Flat(segment, a) + Frame(segment, x)
  {
    assert (a + [x])[..|a|] == a;
  }

  lemma FlatCons(segment: bool, a: seq<Line>)
    requires a != []
    ensures Flat(segment, a) == Frame(segment, a[0]) + Flat(segment, a[1..])
  {
    assert a == [a[0]] + a[1..];
    FlatConcat(segment, [a[0]], a[1..]);
    assert [] + [a[0]] == [a[0]];
    FlatSnoc(segment, [], a[0]);
  }

  /** A slice that is a concatenation splits into the two parts. */
  lemma SplitSlice(mem: seq<byte>, lo: nat, hi: nat, a: seq<byte>, b: seq<byte>)
    requires lo <= hi <= |mem|
    requires mem[lo..hi] == a + b
    ensures hi - lo == |a| + |b|
    ensures mem[lo..lo + |a|] == a && mem[lo + |a|..hi] == b
  {
    var s := mem[lo..hi];
    assert mem[lo..lo + |a|] == s[..|a|];
    assert mem[lo + |a|..hi] == s[|a|..];
  }

  /** A prefix of the lines takes a prefix of the bytes. */
  lemma FlatPrefix(segment: bool, a: seq<Line>, n: nat)
    requires n <= |a|
    ensures Flat(segment, a) == Flat(segment, a[..n]) + Flat(segment, a[n..])
    ensures |Flat(segment, a[..n])| <= |Flat(segment, a)|
  {
    assert a == a[..n] + a[n..];
    FlatConcat(segment, a[..n], a[n..]);
  }

  /** Everything the parser emits from `mem[base + pos..base + len]`; a position without the magic
      ends the slice. */
  function Parse(mem: seq<byte>, base: nat, len: nat, pos: nat): seq<Line>
    decreases len - pos
  {
    if pos >= len then []
    else
      match Decode(mem, base + pos)
      case Record(text, size) => [text] + Parse(mem, base, len, pos + size)
      case _ => []
  }

  /** Where the parser's `write_len` ends. */
  function ParseEnd(mem: seq<byte>, base: nat, len: nat, pos: nat): nat
    decreases len - pos
  {
    if pos >= len then pos
    else
      match Decode(mem, base + pos)
      case Record(text, size) => ParseEnd(mem, base, len, pos + size)
      case _ => pos
  }

  /** Framing round trip: a slice that is a whole number of records parses to exactly those
      records, and the walk ends exactly at the end of the slice. */
  lemma {:induction false} ParseFlat(mem: seq<byte>, base: nat, len: nat, pos: nat, lines: seq<Line>)
    requires base + len <= |mem| && pos <= len
    requires mem[base + pos..base + len] == Flat(true, lines)
    requires forall l :: l in lines ==> |l| + 1 < 0x1_0000
    ensures Parse(mem, base, len, pos) == lines
    ensures ParseEnd(mem, base, len, pos) == len
    decreases |lines|
  {
    hide Frame, Decode, Get32, Get16;
    if lines != [] {
      var size := |lines[0]| + FRAME_OVERHEAD;
      FlatCons(true, lines);
      SplitSlice(mem, base + pos, base + len, Frame(true, lines[0]), Flat(true, lines[1..]));
      DecodeFrame(mem, base + pos, lines[0]);
      ParseFlat(mem, base, len, pos + size, lines[1..]);
    }
  }
}
