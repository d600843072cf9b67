/** Writing a WAV, as the inverse of reading one. */
module WavWriting {
  import opened Bytes
  import opened Options
  import opened Sequences
  import opened Wav

  function Le(n: nat, width: nat): (b: seq<Byte>)
    ensures |b| == width
  {
    if width == 0 then [] else [n % 256] + Le(n / 256, width - 1)
  }

  lemma {:induction false} LeReads(n: nat)
    ensures n < TWO_16 ==> U16(Le(n, 2)) == n
    ensures n < TWO_32 ==> U32(Le(n, 4)) == n
  {
    assert Le(n, 2) == [n % 256] + ([n / 256 % 256] + Le(n / 256 / 256, 0));
    assert Le(n, 4) == [n % 256] + Le(n / 256, 3);
    assert Le(n / 256, 3) == [n / 256 % 256] + Le(n / 256 / 256, 2);
    assert Le(n / 256 / 256, 2) == [n / 256 / 256 % 256] + ([n / 256 / 256 / 256 % 256] + []);
  }

  function Pad(len: nat): seq<Byte> {
    if len % 2 == 1 then [0] else []
  }

  /** Chunks as RIFF lays them out: id, length, body, padding to an even length. */
  function Render(chunks: seq<Chunk>): seq<Byte> {
    if chunks == [] then []
    else chunks[0].id + Le(|chunks[0].body|, 4) + chunks[0].body + Pad(|chunks[0].body|) + Render(chunks[1..])
  }

  ghost predicate Writable(chunks: seq<Chunk>) {
    forall k :: 0 <= k < |chunks| ==> |chunks[k].id| == 4 && |chunks[k].body| < TWO_32
  }

  /** Reading what was written gives the chunks back, whatever their number, order, ids
      and lengths. */
  lemma {:induction false} ChunksRoundTrip(chunks: seq<Chunk>)
    requires Writable(chunks)
    ensures Chunks(Render(chunks)) == chunks
  {
    if chunks != [] {
      var c := chunks[0];
      assert |c.id| == 4 && |c.body| < TWO_32;
      FirstRendered(c, Render(chunks[1..]));
      ChunksRoundTrip(chunks[1..]);
    }
  }

  lemma {:induction false} FirstRendered(c: Chunk, rest: seq<Byte>)
    requires |c.id| == 4 && |c.body| < TWO_32
    ensures var b := c.id + Le(|c.body|, 4) + c.body + Pad(|c.body|) + rest;
            |b| >= 8 && First(b) == c && Rest(b) == rest
  {
    var b, n := c.id + Le(|c.body|, 4) + c.body + Pad(|c.body|) + rest, |c.body|;
    assert b[4..8] == Le(n, 4);
    LeReads(n);
  }

  /** Whatever follows written chunks is read after them. */
  lemma {:induction false} ChunksThen(chunks: seq<Chunk>, rest: seq<Byte>)
    requires Writable(chunks)
    ensures Chunks(Render(chunks) + rest) == chunks + Chunks(rest)
  {
    if chunks == [] {
      assert Render(chunks) + rest == rest;
      assert [] + Chunks(rest) == Chunks(rest);
    } else {
      var c, more := chunks[0], Render(chunks[1..]);
      assert |c.id| == 4 && |c.body| < TWO_32;
      FirstRendered(c, more + rest);
      Regroup(c.id + Le(|c.body|, 4) + c.body + Pad(|c.body|), more, rest);
      ChunksThen(chunks[1..], rest);
      Regroup([c], chunks[1..], Chunks(rest));
      assert [c] + chunks[1..] == chunks;
    }
  }

  /** A file cut off inside its last chunk gives what is there of it. */
  lemma {:induction false} CutChunkIsKept(chunks: seq<Chunk>, c: Chunk, n: nat)
    requires Writable(chunks) && |c.id| == 4 && |c.body| < TWO_32 && n <= |c.body|
    ensures Chunks(Render(chunks) + (c.id + Le(|c.body|, 4) + c.body[..n])) == chunks + [Chunk(c.id, c.body[..n])]
  {
    ChunksThen(chunks, c.id + Le(|c.body|, 4) + c.body[..n]);
    CutRead(c, n);
  }

  lemma {:induction false} CutRead(c: Chunk, n: nat)
    requires |c.id| == 4 && |c.body| < TWO_32 && n <= |c.body|
    ensures Chunks(c.id + Le(|c.body|, 4) + c.body[..n]) == [Chunk(c.id, c.body[..n])]
  {
    var b := c.id + Le(|c.body|, 4) + c.body[..n];
    assert b[4..8] == Le(|c.body|, 4);
    LeReads(|c.body|);
    assert First(b) == Chunk(c.id, c.body[..n]);
    assert |Rest(b)| < 8;
    assert Chunks(Rest(b)) == [];
  }

  // ---------- what is refused ----------

  lemma {:induction false} NoDataIff(chunks: seq<Chunk>)
    ensures LastData(chunks).None? <==> forall c :: c in chunks ==> c.id != [100, 97, 116, 97]
  {
    if chunks != [] {
      var n := |chunks| - 1;
      assert chunks == chunks[..n] + [chunks[n]];
      NoDataIff(chunks[..n]);
    }
  }

  /** Without a `fmt ` chunk of at least 16 bytes the format is mono, 48 kHz and 16 bits. */
  lemma {:induction false} DefaultsWithoutFormat(chunks: seq<Chunk>)
    requires forall c :: c in chunks ==> !(c.id == [102, 109, 116, 32] && |c.body| >= 16)
    ensures LastFormat(chunks) == Format(1, 48000, 16)
  {
    if chunks != [] {
      assert chunks[|chunks| - 1] in chunks;
      DefaultsWithoutFormat(chunks[..|chunks| - 1]);
    }
  }

  /** Which files are refused and why: no `RIFF` and `WAVE` at their places, no `data` chunk,
      or a sample size other than 16 and 32 bits, in this order. */
  lemma {:induction false} RefusedIff(bytes: seq<Byte>)
    ensures Parse(bytes) == Err("not a WAV file") <==>
            !(|bytes| >= 12 && bytes[..4] == [82, 73, 70, 70] && bytes[8..12] == [87, 65, 86, 69])
    ensures Parse(bytes) == Err("no audio data") <==>
            Parse(bytes) != Err("not a WAV file") &&
            forall c :: c in Chunks(bytes[12..]) ==> c.id != [100, 97, 116, 97]
    ensures Parse(bytes) == Err("unsupported sample size") <==>
            Parse(bytes) != Err("not a WAV file") && Parse(bytes) != Err("no audio data") &&
            LastFormat(Chunks(bytes[12..])).bits !in {16, 32}
    ensures Parse(bytes).Err? ==> Parse(bytes).why in {"not a WAV file", "no audio data", "unsupported sample size"}
  {
    var errors := ["not a WAV file", "no audio data", "unsupported sample size"];
    assert errors[0][0] == 'n' && errors[1][0] == 'n' && errors[2][0] == 'u';
    assert errors[0][2] == 't' && errors[1][2] == ' ';
    if |bytes| >= 12 { NoDataIff(Chunks(bytes[12..])); }
  }

  // ---------- a recording ----------

  function Unsigned(v: int, width: nat): nat
    requires -(width as int) <= v
  {
    if v < 0 then v + width else v
  }

  /** One sample for each channel. */
  type Frame = seq<int>

  ghost predicate Fits(frame: Frame, size: nat, channels: nat) {
    |frame| == channels >= 1 && (size == 2 || size == 4) &&
    forall k :: 0 <= k < |frame| ==> -Half(size) <= frame[k] < Half(size)
  }

  function Half(size: nat): int { if size == 2 then 0x8000 else 0x8000_0000 }

  function EncodeFrame(frame: Frame, size: nat): (b: seq<Byte>)
    requires forall k :: 0 <= k < |frame| ==> -Half(size) <= frame[k] < Half(size)
  {
    if frame == [] then [] else Le(Unsigned(frame[0], 2 * Half(size)), size) + EncodeFrame(frame[1..], size)
  }

  function Encode(frames: seq<Frame>, size: nat, channels: nat): seq<Byte>
    requires forall k :: 0 <= k < |frames| ==> Fits(frames[k], size, channels)
  {
    if frames == [] then []
    else
      assert Fits(frames[0], size, channels);
      EncodeFrame(frames[0], size) + Encode(frames[1..], size, channels)
  }

  lemma {:induction false} FrameLength(frame: Frame, size: nat)
    requires forall k :: 0 <= k < |frame| ==> -Half(size) <= frame[k] < Half(size)
    ensures |EncodeFrame(frame, size)| == size * |frame|
  {
    if frame != [] {
      FrameLength(frame[1..], size);
      assert size * |frame| == size + size * (|frame| - 1);
    }
  }

  lemma {:induction false} EncodedLength(frames: seq<Frame>, size: nat, channels: nat)
    requires forall k :: 0 <= k < |frames| ==> Fits(frames[k], size, channels)
    ensures |Encode(frames, size, channels)| == |frames| * (size * channels)
  {
    if frames != [] {
      assert Fits(frames[0], size, channels);
      FrameLength(frames[0], size);
      EncodedLength(frames[1..], size, channels);
    }
  }

  ghost predicate HoldsAt(data: seq<Byte>, off: nat, part: seq<Byte>) {
    off + |part| <= |data| && data[off..off + |part|] == part
  }

  /** Where frame `f` starts. */
  function Offset(f: nat, frameSize: nat): nat { f * frameSize }

  /** The bytes of a frame's first sample. */
  function FirstSample(frame: Frame, size: nat): seq<Byte>
    requires |frame| > 0 && -Half(size) <= frame[0] < Half(size)
  {
    Le(Unsigned(frame[0], 2 * Half(size)), size)
  }

  /** The first sample of frame `f` starts `f` frames into the data. */
  lemma {:induction false} FirstSampleAt(frames: seq<Frame>, size: nat, channels: nat, f: nat)
    requires forall k :: 0 <= k < |frames| ==> Fits(frames[k], size, channels)
    requires f < |frames|
    ensures Fits(frames[f], size, channels)
    ensures HoldsAt(Encode(frames, size, channels), Offset(f, size * channels), FirstSample(frames[f], size))
  {
    assert Fits(frames[0], size, channels);
    var rest := Encode(frames[1..], size, channels);
    if f == 0 {
      FirstOfFrame(frames[0], size, channels, rest);
    } else {
      FirstSampleAt(frames[1..], size, channels, f - 1);
      FrameLength(frames[0], size);
      Shifted(EncodeFrame(frames[0], size), rest, Offset(f - 1, size * channels), FirstSample(frames[f], size));
    }
  }

  lemma {:induction false} FirstOfFrame(frame: Frame, size: nat, channels: nat, rest: seq<Byte>)
    requires Fits(frame, size, channels)
    ensures HoldsAt(EncodeFrame(frame, size) + rest, Offset(0, size * channels), FirstSample(frame, size))
  {
    assert Offset(0, size * channels) == 0;
  }

  lemma {:induction false} Shifted(a: seq<Byte>, b: seq<Byte>, off: nat, part: seq<Byte>)
    requires HoldsAt(b, off, part)
    ensures HoldsAt(a + b, |a| + off, part)
  {
  }

  /** A format chunk: `tag` and `derived` (byte rate and block size) and whatever follows are
      not looked at by the reader. */
  function FormatBody(format: Format, tag: seq<Byte>, derived: seq<Byte>, extra: seq<Byte>): seq<Byte> {
    tag + Le(format.channels, 2) + Le(format.rate, 4) + derived + Le(format.bits, 2) + extra
  }

  lemma {:induction false} FormatRoundTrip(format: Format, tag: seq<Byte>, derived: seq<Byte>, extra: seq<Byte>)
    requires 1 <= format.channels < TWO_16 && 1 <= format.rate < TWO_32 && format.bits < TWO_16
    requires |tag| == 2 && |derived| == 6
    ensures var b := FormatBody(format, tag, derived, extra);
            |b| >= 16 && ReadFormat(b) == format
  {
    var b := FormatBody(format, tag, derived, extra);
    assert b[2..4] == Le(format.channels, 2) && b[4..8] == Le(format.rate, 4) && b[14..16] == Le(format.bits, 2);
    LeReads(format.channels);
    LeReads(format.rate);
    LeReads(format.bits);
  }

  function WavFile(size: seq<Byte>, chunks: seq<Chunk>): seq<Byte> {
    RIFF + size + WAVE + Render(chunks)
  }

  lemma {:induction false} LastFormatIs(chunks: seq<Chunk>, i: nat)
    requires i < |chunks| && IsFormat(chunks[i])
    requires forall k :: i < k < |chunks| ==> !IsFormat(chunks[k])
    ensures LastFormat(chunks) == ReadFormat(chunks[i].body)
  {
    if i < |chunks| - 1 { LastFormatIs(chunks[..|chunks| - 1], i); }
  }

  lemma {:induction false} LastDataIs(chunks: seq<Chunk>, j: nat)
    requires j < |chunks| && chunks[j].id == DATA
    requires forall k :: j < k < |chunks| ==> chunks[k].id != DATA
    ensures LastData(chunks) == Some(chunks[j].body)
  {
    if j < |chunks| - 1 { LastDataIs(chunks[..|chunks| - 1], j); }
  }

  lemma {:induction false} ParseWritten(size: seq<Byte>, chunks: seq<Chunk>, i: nat, j: nat)
    requires |size| == 4 && Writable(chunks) && i < |chunks| && j < |chunks|
    requires IsFormat(chunks[i]) && forall k :: i < k < |chunks| ==> !IsFormat(chunks[k])
    requires chunks[j].id == DATA && forall k :: j < k < |chunks| ==> chunks[k].id != DATA
    requires SampleBytes(ReadFormat(chunks[i].body).bits).Some?
    ensures Parse(WavFile(size, chunks)) == Ok(Header(ReadFormat(chunks[i].body), chunks[j].body))
  {
    var b := WavFile(size, chunks);
    assert b[..4] == RIFF && b[8..12] == WAVE && b[12..] == Render(chunks);
    ChunksRoundTrip(chunks);
    LastFormatIs(chunks, i);
    LastDataIs(chunks, j);
  }

  /** A recording: its frames in the last `data` chunk, its format in the last `fmt ` chunk,
      in either order and among any other chunks. */
  ghost predicate IsRecording(chunks: seq<Chunk>, i: nat, j: nat, format: Format, frames: seq<Frame>) {
    && Writable(chunks) && i < |chunks| && j < |chunks|
    && 1 <= format.channels < TWO_16 && 1 <= format.rate < TWO_32 && SampleBytes(format.bits).Some?
    && (forall k :: 0 <= k < |frames| ==> Fits(frames[k], SampleBytes(format.bits).value, format.channels))
    && chunks[j] == Chunk(DATA, Encode(frames, SampleBytes(format.bits).value, format.channels))
    && (forall k :: j < k < |chunks| ==> chunks[k].id != DATA)
    && (exists tag, derived, extra :: |tag| == 2 && |derived| == 6 &&
          chunks[i] == Chunk(FMT, FormatBody(format, tag, derived, extra)))
    && (forall k :: i < k < |chunks| ==> !IsFormat(chunks[k]))
  }

  /** Reading a written recording recovers the format, the number of frames and every sample
      of the first channel. */
  lemma {:induction false} RecordingRoundTrip(size: seq<Byte>, chunks: seq<Chunk>, i: nat, j: nat,
      format: Format, frames: seq<Frame>)
    requires |size| == 4 && IsRecording(chunks, i, j, format, frames)
    ensures var h := Header(format, chunks[j].body);
            Parse(WavFile(size, chunks)) == Ok(h) && Frames(h) == |frames| &&
            forall f :: 0 <= f < |frames| ==> |frames[f]| > 0 && SampleAt(h, f) == frames[f][0]
  {
    var tag, derived, extra :| |tag| == 2 && |derived| == 6 &&
      chunks[i] == Chunk(FMT, FormatBody(format, tag, derived, extra));
    FormatRoundTrip(format, tag, derived, extra);
    ParseWritten(size, chunks, i, j);
    var bytes := SampleBytes(format.bits).value;
    EncodedLength(frames, bytes, format.channels);
    QuotientExact(|frames|, FrameBytes(format));
    var h := Header(format, chunks[j].body);
    forall f | 0 <= f < |frames| ensures |frames[f]| > 0 && SampleAt(h, f) == frames[f][0] {
      SampleRoundTrip(h, frames, f);
    }
  }

  /** As many frames are counted as fit: a part of one at the end does not count. */
  lemma {:induction false} FramesFit(h: Header)
    requires SampleBytes(h.format.bits).Some? && h.format.channels >= 1
    ensures var size := FrameBytes(h.format); Frames(h) * size <= |h.data| < Frames(h) * size + size
  {
  }

  lemma {:induction false} QuotientExact(n: nat, d: nat)
    requires d > 0
    ensures n * d >= 0 && Quotient(n * d, d) == n
  {
    var p := n * d;
    var q := Quotient(p, d);
    assert q * d <= p < q * d + d;
    if q < n {
      NotMore(q + 1, n, d);
    } else if q > n {
      NotMore(n + 1, q, d);
    }
  }

  lemma {:induction false} NotMore(a: nat, b: nat, d: nat)
    requires a <= b
    ensures a * d <= b * d
  {
  }

  lemma {:induction false} SampleRoundTrip(h: Header, frames: seq<Frame>, f: nat)
    requires SampleBytes(h.format.bits).Some? && h.format.channels >= 1
    requires forall k :: 0 <= k < |frames| ==> Fits(frames[k], SampleBytes(h.format.bits).value, h.format.channels)
    requires h.data == Encode(frames, SampleBytes(h.format.bits).value, h.format.channels)
    requires f < |frames| == Frames(h)
    ensures |frames[f]| > 0 && SampleAt(h, f) == frames[f][0]
  {
    var size := SampleBytes(h.format.bits).value;
    FirstSampleAt(frames, size, h.format.channels, f);
    LeReads(Unsigned(frames[f][0], 2 * Half(size)));
  }
}
