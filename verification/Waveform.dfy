/** The loudness curve of a recording, over the reals: a hundred points, each the root mean
    square of one stretch of the first channel, relative to the loudest. */
module Waveform {
  import opened Bytes
  import opened Options
  import opened Wav

  const BUCKETS := 100

  function Larger(x: real, y: real): real { if x <= y then y else x }

  function FullScale(bits: nat): real { if bits == 16 then 32767.0 else 2147483647.0 }

  function Samples(h: Header): (s: seq<real>)
    requires SampleBytes(h.format.bits).Some? && h.format.channels >= 1
    ensures |s| == Frames(h)
  {
    seq(Frames(h), f requires 0 <= f < Frames(h) => SampleAt(h, f) as real / FullScale(h.format.bits))
  }

  // ---------- buckets ----------

  /** How many frames one point of the curve stands for. */
  function Per(n: nat): (per: nat)
    ensures per >= 1
  {
    Greatest(n / BUCKETS, 1)
  }

  /** Where bucket `b` starts; it ends where the next one starts. */
  function Start(n: nat, b: nat): (i: nat)
    ensures i <= n
  {
    Least(Times(b, Per(n)), n)
  }

  function Times(b: nat, x: nat): nat { b * x }

  function Bucket(s: seq<real>, b: nat): seq<real> {
    s[Start(|s|, b)..Start(|s|, b + 1)]
  }

  // ---------- loudness ----------

  function Energy(s: seq<real>): (e: real)
    ensures e >= 0.0
  {
    if s == [] then 0.0 else Energy(s[..|s| - 1]) + Square(s[|s| - 1])
  }

  function Square(x: real): (y: real)
    ensures y >= 0.0
  {
    x * x
  }

  /** The mean square. */
  function Power(s: seq<real>): (p: real)
    ensures p >= 0.0
  {
    if s == [] then 0.0 else Energy(s) / |s| as real
  }

  function Powers(s: seq<real>): (p: seq<real>)
    ensures |p| == BUCKETS && forall b :: 0 <= b < BUCKETS ==> p[b] == Power(Bucket(s, b)) >= 0.0
  {
    seq(BUCKETS, b requires 0 <= b => Power(Bucket(s, b)))
  }

  function Peak(xs: seq<real>): real {
    if xs == [] then 0.0 else Larger(Peak(xs[..|xs| - 1]), xs[|xs| - 1])
  }

  function Loudness(s: seq<real>, root: real -> real): real {
    if s == [] then 0.0 else root(Power(s))
  }

  function Levels(s: seq<real>, root: real -> real): (l: seq<real>)
    ensures |l| == BUCKETS && forall b :: 0 <= b < BUCKETS ==> l[b] == Loudness(Bucket(s, b), root)
  {
    seq(BUCKETS, b requires 0 <= b => Loudness(Bucket(s, b), root))
  }

  function Relative(level: real, peak: real): real {
    if peak > 0.0 then Clamp(level / peak) else level
  }

  function Clamp(x: real): real { if x < 0.0 then 0.0 else if x > 1.0 then 1.0 else x }

  function Curve(s: seq<real>, root: real -> real): (c: seq<real>)
    ensures |c| == BUCKETS
  {
    var levels := Levels(s, root);
    seq(BUCKETS, b requires 0 <= b < BUCKETS => Relative(levels[b], Peak(levels)))
  }

  method LoudnessCurve(h: Header, root: real -> real) returns (curve: array<real>)
    requires SampleBytes(h.format.bits).Some? && h.format.channels >= 1
    ensures fresh(curve) && curve[..] == Curve(Samples(h), root)
  {
    ghost var s := Samples(h);
    curve := new real[BUCKETS](_ => 0.0);
    var frames := Frames(h);
    if frames > 0 {
      FillLevels(h, root, curve);
      var levels := curve[..];
      var peak := PeakOf(curve);
      if peak > 0.0 {
        var b := 0;
        while b < BUCKETS
          invariant 0 <= b <= BUCKETS
          invariant forall k :: 0 <= k < b ==> curve[k] == Relative(levels[k], peak)
          invariant forall k :: b <= k < BUCKETS ==> curve[k] == levels[k]
        {
          curve[b] := Clamp(curve[b] / peak);
          b := b + 1;
        }
      }
      assert curve[..] == Curve(s, root);
    } else {
      assert Levels(s, root) == curve[..];
      AllZero(curve[..]);
      assert curve[..] == Curve(s, root);
    }
  }

  lemma {:induction false} AllZero(xs: seq<real>)
    requires forall k :: 0 <= k < |xs| ==> xs[k] == 0.0
    ensures Peak(xs) == 0.0
  {
    if xs != [] { AllZero(xs[..|xs| - 1]); }
  }

  method PeakOf(curve: array<real>) returns (peak: real)
    ensures peak == Peak(curve[..])
  {
    peak := 0.0;
    var b := 0;
    while b < curve.Length
      invariant 0 <= b <= curve.Length && peak == Peak(curve[..b])
    {
      assert curve[..b + 1][..b] == curve[..b];
      peak := Larger(peak, curve[b]);
      b := b + 1;
    }
    assert curve[..b] == curve[..];
  }

  method FillLevels(h: Header, root: real -> real, curve: array<real>)
    requires SampleBytes(h.format.bits).Some? && h.format.channels >= 1 && Frames(h) > 0
    requires curve.Length == BUCKETS && forall k :: 0 <= k < BUCKETS ==> curve[k] == 0.0
    modifies curve
    ensures curve[..] == Levels(Samples(h), root)
  {
    ghost var s := Samples(h);
    var frames := Frames(h);
    var per := Per(frames);
    var b := 0;
    while b < BUCKETS
      invariant 0 <= b <= BUCKETS
      invariant forall k :: 0 <= k < b ==> curve[k] == Loudness(Bucket(s, k), root)
      invariant forall k :: b <= k < BUCKETS ==> curve[k] == 0.0
    {
      var start := Times(b, per);
      var end := Least(Times(b + 1, per), frames);
      if start >= end {
        forall k | b <= k < BUCKETS ensures Bucket(s, k) == [] { EmptyFrom(frames, b, k); }
        break;
      }
      curve[b] := LevelOf(h, root, start, end);
      b := b + 1;
    }
  }

  lemma {:induction false} EmptyFrom(n: nat, b: nat, k: nat)
    requires b <= k && Times(b, Per(n)) >= Least(Times(b + 1, Per(n)), n)
    ensures Start(n, k) == Start(n, k + 1) == n
  {
    MoreTimes(b, k, Per(n));
  }

  lemma {:induction false} MoreTimes(b: nat, k: nat, x: nat)
    requires b <= k
    ensures Times(b, x) <= Times(k, x)
  {
  }

  method LevelOf(h: Header, root: real -> real, start: nat, end: nat) returns (level: real)
    requires SampleBytes(h.format.bits).Some? && h.format.channels >= 1 && start < end <= Frames(h)
    ensures level == Loudness(Samples(h)[start..end], root)
  {
    ghost var s := Samples(h);
    var acc, n, f := 0.0, 0, start;
    while f < end
      invariant start <= f <= end && n == f - start && acc == Energy(s[start..f])
    {
      var v := SampleAt(h, f) as real / FullScale(h.format.bits);
      assert s[start..f + 1][..f - start] == s[start..f];
      acc := acc + Square(v);
      n := n + 1;
      f := f + 1;
    }
    level := root(acc / Greatest(n, 1) as real);
  }

  datatype Analysis = Analysis(duration: real, curve: seq<real>)

  method AnalyseWav(bytes: seq<Byte>, root: real -> real) returns (r: Result<Analysis>)
    ensures match Parse(bytes)
            case Err(why) => r == Err(why)
            case Ok(h) => h.format.channels >= 1 && h.format.rate >= 1 && SampleBytes(h.format.bits).Some? &&
                          r == Ok(Analysis(Frames(h) as real / h.format.rate as real, Curve(Samples(h), root)))
  {
    if |bytes| < 12 || bytes[..4] != RIFF || bytes[8..12] != WAVE { return Err("not a WAV file"); }
    var format, found := ReadChunks(bytes);
    FormatSound(Chunks(bytes[12..]));
    if found.None? { return Err("no audio data"); }
    if SampleBytes(format.bits).None? { return Err("unsupported sample size"); }
    var h := Header(format, found.value);
    var frames := Frames(h);
    var duration := frames as real / format.rate as real;
    var curve := LoudnessCurve(h, root);
    r := Ok(Analysis(duration, curve[..]));
  }
}
