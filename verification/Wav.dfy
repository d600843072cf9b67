/** Reading a recorded WAV: the walk over its RIFF chunks and the samples of its first channel. */
module Wav {
  import opened Bytes
  import opened Options

  const RIFF: seq<Byte> := [82, 73, 70, 70]
  const WAVE: seq<Byte> := [87, 65, 86, 69]
  const FMT: seq<Byte> := [102, 109, 116, 32]
  const DATA: seq<Byte> := [100, 97, 116, 97]

  const TWO_16 := 0x1_0000
  const TWO_32 := 0x1_0000_0000

  function Least(x: int, y: int): int { if x <= y then x else y }

  function Greatest(x: int, y: int): int { if x <= y then y else x }

  // ---------- little-endian numbers ----------

  function U16(b: seq<Byte>): nat
    requires |b| >= 2
  {
    b[0] as int + 256 * b[1] as int
  }

  function U32(b: seq<Byte>): nat
    requires |b| >= 4
  {
    b[0] as int + 0x100 * b[1] as int + 0x1_0000 * b[2] as int + 0x100_0000 * b[3] as int
  }

  /** Two's complement. */
  function Signed(n: nat, width: nat): int {
    if 2 * n < width then n else n - width
  }

  // ---------- the file as a list of chunks ----------

  datatype Chunk = Chunk(id: seq<Byte>, body: seq<Byte>)

  datatype Format = Format(channels: nat, rate: nat, bits: nat)

  const DEFAULT_FORMAT := Format(1, 48000, 16)

  /** A RIFF body read chunk by chunk: a chunk that runs past the end is cut there, and one
      of odd length is followed by a padding byte. */
  function Chunks(b: seq<Byte>): seq<Chunk> {
    if |b| < 8 then []
    else [First(b)] + Chunks(Rest(b))
  }

  function First(b: seq<Byte>): Chunk
    requires |b| >= 8
  {
    Chunk(b[..4], b[8..Least(8 + U32(b[4..8]), |b|)])
  }

  function Rest(b: seq<Byte>): (rest: seq<Byte>)
    requires |b| >= 8
    ensures |rest| < |b|
  {
    var len := U32(b[4..8]);
    b[Least(8 + len + len % 2, |b|)..]
  }

  predicate IsFormat(c: Chunk) {
    c.id == FMT && |c.body| >= 16
  }

  function ReadFormat(body: seq<Byte>): Format
    requires |body| >= 16
  {
    Format(Greatest(U16(body[2..4]), 1), Greatest(U32(body[4..8]), 1), U16(body[14..16]))
  }

  /** The last well-formed `fmt ` chunk decides the format. */
  function LastFormat(chunks: seq<Chunk>): Format {
    if chunks == [] then DEFAULT_FORMAT
    else
      var c := chunks[|chunks| - 1];
      if IsFormat(c) then ReadFormat(c.body) else LastFormat(chunks[..|chunks| - 1])
  }

  /** The last `data` chunk holds the samples. */
  function LastData(chunks: seq<Chunk>): Option<seq<Byte>> {
    if chunks == [] then None
    else
      var c := chunks[|chunks| - 1];
      if c.id == DATA then Some(c.body) else LastData(chunks[..|chunks| - 1])
  }

  predicate IsWav(bytes: seq<Byte>) {
    |bytes| >= 12 && bytes[..4] == RIFF && bytes[8..12] == WAVE
  }

  /** What is left to read at `pos`, which the last chunk may have moved past the end. */
  function From(bytes: seq<Byte>, pos: nat): seq<Byte> {
    if pos <= |bytes| then bytes[pos..] else []
  }

  /** `seen` are the chunks before `pos`. */
  ghost predicate Walked(bytes: seq<Byte>, pos: nat, seen: seq<Chunk>) {
    |bytes| >= 12 && Chunks(bytes[12..]) == seen + Chunks(From(bytes, pos))
  }

  method ReadChunks(bytes: seq<Byte>) returns (format: Format, data: Option<seq<Byte>>)
    requires |bytes| >= 12
    ensures format == LastFormat(Chunks(bytes[12..])) && data == LastData(Chunks(bytes[12..]))
  {
    format := DEFAULT_FORMAT;
    data := None;
    var pos: nat := 12;
    ghost var seen: seq<Chunk> := [];
    while pos + 8 <= |bytes|
      invariant Walked(bytes, pos, seen)
      invariant format == LastFormat(seen) && data == LastData(seen)
      decreases |bytes| - pos
    {
      var id := bytes[pos..pos + 4];
      var len := U32(bytes[pos + 4..pos + 8]);
      var body := bytes[pos + 8..Least(pos + 8 + len, |bytes|)];
      ghost var c := Chunk(id, body);
      var next := pos + 8 + len + len % 2;
      StepWalk(bytes, pos, seen, c, next);
      if id == FMT && |body| >= 16 {
        format := Format(Greatest(U16(body[2..4]), 1), Greatest(U32(body[4..8]), 1), U16(body[14..16]));
      } else if id == DATA {
        data := Some(body);
      }
      seen := seen + [c];
      pos := next;
    }
    EndWalk(bytes, pos, seen);
  }

  lemma {:induction false} EndWalk(bytes: seq<Byte>, pos: nat, seen: seq<Chunk>)
    requires Walked(bytes, pos, seen) && pos + 8 > |bytes|
    ensures Chunks(bytes[12..]) == seen
  {
    assert Chunks(From(bytes, pos)) == [];
  }

  lemma {:induction false} StepWalk(bytes: seq<Byte>, pos: nat, seen: seq<Chunk>, c: Chunk, next: nat)
    requires pos + 8 <= |bytes| && Walked(bytes, pos, seen)
    requires var len := U32(bytes[pos + 4..pos + 8]);
             c == Chunk(bytes[pos..pos + 4], bytes[pos + 8..Least(pos + 8 + len, |bytes|)]) &&
             next == pos + 8 + len + len % 2
    ensures Walked(bytes, next, seen + [c])
  {
    StepAt(bytes, pos);
    var b := From(bytes, pos);
    assert seen + ([c] + Chunks(Rest(b))) == (seen + [c]) + Chunks(Rest(b));
  }

  lemma {:induction false} StepAt(bytes: seq<Byte>, pos: nat)
    requires pos + 8 <= |bytes|
    ensures var b, len := From(bytes, pos), U32(bytes[pos + 4..pos + 8]);
            First(b) == Chunk(bytes[pos..pos + 4], bytes[pos + 8..Least(pos + 8 + len, |bytes|)]) &&
            Rest(b) == From(bytes, pos + 8 + len + len % 2)
  {
    assert bytes[pos..][4..8] == bytes[pos + 4..pos + 8];
  }

  // ---------- the samples of the first channel ----------

  datatype Header = Header(format: Format, data: seq<Byte>)

  function SampleBytes(bits: nat): Option<nat> {
    if bits == 16 then Some(2) else if bits == 32 then Some(4) else None
  }

  function FrameBytes(format: Format): (size: nat)
    requires SampleBytes(format.bits).Some? && format.channels >= 1
    ensures size >= SampleBytes(format.bits).value >= 2
  {
    assert SampleBytes(format.bits).value * format.channels >= SampleBytes(format.bits).value * 1;
    SampleBytes(format.bits).value * format.channels
  }

  /** What the file says before its samples are looked at. */
  function Parse(bytes: seq<Byte>): Result<Header> {
    if !IsWav(bytes) then Err("not a WAV file")
    else
      var chunks := Chunks(bytes[12..]);
      if LastData(chunks).None? then Err("no audio data")
      else if SampleBytes(LastFormat(chunks).bits).None? then Err("unsupported sample size")
      else Ok(Header(LastFormat(chunks), LastData(chunks).value))
  }

  lemma {:induction false} FormatSound(chunks: seq<Chunk>)
    ensures LastFormat(chunks).channels >= 1 && LastFormat(chunks).rate >= 1
  {
    if chunks != [] { FormatSound(chunks[..|chunks| - 1]); }
  }

  function Quotient(n: nat, d: nat): nat
    requires d > 0
  {
    n / d
  }

  function Frames(h: Header): nat
    requires SampleBytes(h.format.bits).Some? && h.format.channels >= 1
  {
    Quotient(|h.data|, FrameBytes(h.format))
  }

  /** The sample of the first channel in frame `f`. */
  function SampleAt(h: Header, f: nat): int
    requires SampleBytes(h.format.bits).Some? && h.format.channels >= 1 && f < Frames(h)
  {
    FrameInside(h, f);
    var off := f * FrameBytes(h.format);
    if h.format.bits == 16 then Signed(U16(h.data[off..off + 2]), TWO_16)
    else Signed(U32(h.data[off..off + 4]), TWO_32)
  }

  lemma {:induction false} FrameInside(h: Header, f: nat)
    requires SampleBytes(h.format.bits).Some? && h.format.channels >= 1 && f < Frames(h)
    ensures f * FrameBytes(h.format) + SampleBytes(h.format.bits).value <= |h.data|
  {
    WithinFrames(|h.data|, FrameBytes(h.format), f);
  }

  lemma {:induction false} WithinFrames(len: nat, size: nat, f: nat)
    requires size > 0 && f < Quotient(len, size)
    ensures 0 <= f * size && f * size + size <= len
  {
    assert (f + 1) * size <= len / size * size;
  }
}
