/** What the loudness curve means, whatever square root computes it. */
module CurveLaws {
  import opened Bytes
  import opened Options
  import opened Wav
  import opened WavWriting
  import opened Waveform

  /** A square root in exact arithmetic. */
  ghost predicate IsRoot(root: real -> real) {
    forall x: real :: 0.0 <= x ==> 0.0 <= root(x) && Square(root(x)) == x
  }

  /** The curve without square roots: every point is in [0,1] and its square is the mean
      square of its stretch over the greatest one; a silent recording is flat. */
  ghost predicate IsCurve(c: seq<real>, powers: seq<real>) {
    |c| == |powers| && forall b :: 0 <= b < |c| ==> IsPoint(c[b], powers[b], Peak(powers))
  }

  ghost predicate IsPoint(x: real, power: real, peak: real) {
    0.0 <= x <= 1.0 && Square(x) * peak == power && (peak == 0.0 ==> x == 0.0)
  }

  // ---------- the peak ----------

  lemma {:induction false} PeakBounds(xs: seq<real>)
    ensures Peak(xs) >= 0.0 && forall k :: 0 <= k < |xs| ==> xs[k] <= Peak(xs)
    ensures Peak(xs) > 0.0 ==> exists k :: 0 <= k < |xs| && xs[k] == Peak(xs)
  {
    if xs != [] {
      var init := xs[..|xs| - 1];
      PeakBounds(init);
      if Peak(init) > 0.0 && Peak(xs) == Peak(init) {
        var k :| 0 <= k < |init| && init[k] == Peak(init);
        assert xs[k] == Peak(xs);
      }
    }
  }

  lemma {:induction false} SquareMonotone(x: real, y: real)
    requires 0.0 <= x && 0.0 <= y
    ensures Square(x) <= Square(y) <==> x <= y
    ensures Square(x) == Square(y) <==> x == y
  {
    if x < y { SquareGrows(x, y); }
    if y < x { SquareGrows(y, x); }
  }

  lemma {:induction false} SquareGrows(x: real, y: real)
    requires 0.0 <= x < y
    ensures Square(x) < Square(y)
  {
    Positive(y - x, y + x, (y - x) * (y + x));
    assert Square(y) - Square(x) == (y - x) * (y + x);
  }

  lemma {:induction false} Positive(x: real, y: real, product: real)
    requires x > 0.0 && y > 0.0 && product == x * y
    ensures product > 0.0
  {
  }

  /** The loudest level is the root of the greatest power. */
  lemma {:induction false} PeakSquares(levels: seq<real>, powers: seq<real>)
    requires |levels| == |powers|
    requires forall k :: 0 <= k < |levels| ==> 0.0 <= levels[k] && Square(levels[k]) == powers[k]
    ensures Square(Peak(levels)) == Peak(powers) && Peak(levels) >= 0.0
  {
    if levels != [] {
      var n := |levels| - 1;
      PeakSquares(levels[..n], powers[..n]);
      SquareMonotone(Peak(levels[..n]), levels[n]);
    }
  }

  lemma {:induction false} PointOf(level: real, power: real, top: real, peak: real)
    requires 0.0 <= level <= top && Square(level) == power && Square(top) == peak
    ensures IsPoint(Relative(level, top), power, peak)
  {
    if top > 0.0 {
      var x := level / top;
      assert x * top == level;
      assert 0.0 <= x <= 1.0 by { Ratio(level, top); }
      assert Square(x) * Square(top) == Square(x * top);
      Positive(top, top, Square(top));
    }
  }

  lemma {:induction false} Ratio(level: real, top: real)
    requires 0.0 <= level <= top && top > 0.0
    ensures 0.0 <= level / top <= 1.0
  {
  }

  /** The code's curve is the curve. */
  lemma {:induction false} CurveMeaning(s: seq<real>, root: real -> real)
    requires IsRoot(root)
    ensures |Curve(s, root)| == BUCKETS && IsCurve(Curve(s, root), Powers(s))
  {
    var levels, powers, c := Levels(s, root), Powers(s), Curve(s, root);
    PeakSquares(levels, powers);
    PeakBounds(levels);
    forall b | 0 <= b < BUCKETS ensures IsPoint(c[b], powers[b], Peak(powers)) {
      PointOf(levels[b], powers[b], Peak(levels), Peak(powers));
    }
  }

  /** That meaning leaves no freedom. */
  lemma {:induction false} CurveUnique(c: seq<real>, d: seq<real>, powers: seq<real>)
    requires IsCurve(c, powers) && IsCurve(d, powers)
    ensures c == d
  {
    PeakBounds(powers);
    forall b | 0 <= b < |c| ensures c[b] == d[b] { SamePoint(c[b], d[b], powers[b], Peak(powers)); }
  }

  lemma {:induction false} SamePoint(x: real, y: real, power: real, peak: real)
    requires IsPoint(x, power, peak) && IsPoint(y, power, peak) && peak >= 0.0
    ensures x == y
  {
    if peak > 0.0 {
      SquareMonotone(x, y);
    }
  }

  // ---------- where it reaches one ----------

  /** The frames that some point stands for. */
  function Covered(n: nat): nat { Start(n, BUCKETS) }

  lemma {:induction false} EnergyZeroIff(s: seq<real>)
    ensures Energy(s) == 0.0 <==> forall k :: 0 <= k < |s| ==> s[k] == 0.0
  {
    if s != [] {
      EnergyZeroIff(s[..|s| - 1]);
      var x := s[|s| - 1];
      assert Square(x) == 0.0 <==> x == 0.0 by { SquareMonotone(if x < 0.0 then -x else x, 0.0); }
      if Energy(s) == 0.0 {
        forall k | 0 <= k < |s| ensures s[k] == 0.0 {
          if k < |s| - 1 { assert s[..|s| - 1][k] == 0.0; }
        }
      }
    }
  }

  lemma {:induction false} PowerZeroIff(s: seq<real>)
    ensures Power(s) == 0.0 <==> forall k :: 0 <= k < |s| ==> s[k] == 0.0
  {
    EnergyZeroIff(s);
  }

  /** Every covered frame is in a bucket. */
  lemma {:induction false} BucketOf(n: nat, f: nat, limit: nat) returns (b: nat)
    requires f < Start(n, limit)
    ensures b < limit && Start(n, b) <= f < Start(n, b + 1)
  {
    if f < Start(n, limit - 1) {
      b := BucketOf(n, f, limit - 1);
    } else {
      b := limit - 1;
    }
  }

  lemma {:induction false} StartsBelow(n: nat, b: nat, limit: nat)
    requires b <= limit
    ensures Start(n, b) <= Start(n, limit)
  {
    MoreTimes(b, limit, Per(n));
  }

  lemma {:induction false} SilentIff(s: seq<real>)
    ensures Peak(Powers(s)) == 0.0 <==> forall f :: 0 <= f < Covered(|s|) ==> s[f] == 0.0
  {
    var p, n := Powers(s), |s|;
    PeakBounds(p);
    if Peak(p) == 0.0 {
      forall f | 0 <= f < Covered(n) ensures s[f] == 0.0 {
        var b := BucketOf(n, f, BUCKETS);
        assert p[b] == 0.0;
        PowerZeroIff(Bucket(s, b));
        assert Bucket(s, b)[f - Start(n, b)] == s[f];
      }
    } else {
      var b :| 0 <= b < |p| && p[b] == Peak(p);
      PowerZeroIff(Bucket(s, b));
      var k :| 0 <= k < |Bucket(s, b)| && Bucket(s, b)[k] != 0.0;
      StartsBelow(n, b + 1, BUCKETS);
      assert s[Start(n, b) + k] != 0.0;
    }
  }

  /** The curve reaches one exactly when some covered sample is not silent; otherwise it is
      zero throughout. */
  lemma {:induction false} ReachesOneIff(s: seq<real>, root: real -> real)
    requires IsRoot(root)
    ensures (exists b :: 0 <= b < BUCKETS && Curve(s, root)[b] == 1.0) <==>
            (exists f :: 0 <= f < Covered(|s|) && s[f] != 0.0)
    ensures (forall b :: 0 <= b < BUCKETS ==> Curve(s, root)[b] == 0.0) <==>
            (forall f :: 0 <= f < Covered(|s|) ==> s[f] == 0.0)
  {
    var c, p := Curve(s, root), Powers(s);
    CurveMeaning(s, root);
    SilentIff(s);
    PeakBounds(p);
    if Peak(p) == 0.0 {
      forall b | 0 <= b < BUCKETS ensures c[b] == 0.0 {
        assert IsPoint(c[b], p[b], Peak(p));
      }
    } else {
      var b :| 0 <= b < |p| && p[b] == Peak(p);
      assert IsPoint(c[b], p[b], Peak(p));
      assert IsPoint(1.0, p[b], Peak(p));
      SamePoint(c[b], 1.0, p[b], Peak(p));
    }
  }

  // ---------- which frames it stands for ----------

  function Joined(s: seq<real>, buckets: nat): seq<real> {
    if buckets == 0 then [] else Joined(s, buckets - 1) + Bucket(s, buckets - 1)
  }

  lemma {:induction false} BucketsJoin(s: seq<real>, buckets: nat)
    ensures Joined(s, buckets) == s[..Start(|s|, buckets)]
  {
    if buckets > 0 {
      BucketsJoin(s, buckets - 1);
    }
  }

  /** The buckets are consecutive and disjoint: joined in order they are the recording,
      short of fewer than a hundred frames at its end, and of none when it has at most a
      hundred. */
  lemma {:induction false} BucketsTile(s: seq<real>)
    ensures Joined(s, BUCKETS) == s[..Covered(|s|)]
    ensures 0 <= |s| - Covered(|s|) < BUCKETS
    ensures |s| - Covered(|s|) == if |s| < BUCKETS then 0 else |s| % BUCKETS
  {
    BucketsJoin(s, BUCKETS);
  }

  /** Every bucket has the same number of frames: a hundredth of the recording, rounded down,
      or, in a recording of fewer than a hundred, one for as long as there are any. */
  lemma {:induction false} BucketSize(s: seq<real>, b: nat)
    requires b < 100
    ensures |Bucket(s, b)| == if |s| >= 100 then |s| / 100 else if b < |s| then 1 else 0
  {
  }

  // ---------- the power of a bucket ----------

  /** The energy is the sum of the squares. */
  lemma {:induction false} EnergyOne(x: real)
    ensures Energy([x]) == x * x
  {
    assert [x][..0] == [];
  }

  lemma {:induction false} EnergyConcat(a: seq<real>, b: seq<real>)
    ensures Energy(a + b) == Energy(a) + Energy(b)
  {
    if b == [] {
      assert a + b == a;
    } else {
      var n := |b| - 1;
      assert (a + b)[..|a + b| - 1] == a + b[..n];
      EnergyConcat(a, b[..n]);
    }
  }

  /** No sample weighs more than another. */
  lemma {:induction false} EnergyOrderFree(a: seq<real>, b: seq<real>)
    requires multiset(a) == multiset(b)
    ensures Energy(a) == Energy(b)
  {
    if a == [] {
      assert |multiset(b)| == 0;
    } else {
      var n, x := |a| - 1, a[|a| - 1];
      assert a == a[..n] + [x];
      assert multiset(a[..n] + [x]) == multiset(a[..n]) + multiset([x]);
      var l, r := PickOut(a[..n], x, b);
      EnergyOrderFree(a[..n], l + r);
      EnergyConcat(a[..n], [x]);
      EnergyWithout(l, x, r);
    }
  }

  lemma {:induction false} PickOut(a: seq<real>, x: real, b: seq<real>) returns (l: seq<real>, r: seq<real>)
    requires multiset(b) == multiset(a) + multiset([x])
    ensures b == l + ([x] + r) && multiset(a) == multiset(l + r)
  {
    assert multiset([x])[x] == 1;
    assert x in multiset(b);
    var k :| 0 <= k < |b| && b[k] == x;
    l, r := b[..k], b[k + 1..];
    assert b == l + ([x] + r);
    assert multiset(l + ([x] + r)) == multiset(l) + (multiset([x]) + multiset(r));
    Cancelled(multiset(a), multiset(l + r), multiset([x]));
  }

  lemma {:induction false} Cancelled(a: multiset<real>, b: multiset<real>, c: multiset<real>)
    requires a + c == b + c
    ensures a == b
  {
    forall y ensures a[y] == b[y] { assert (a + c)[y] == (b + c)[y]; }
  }

  lemma {:induction false} EnergyWithout(l: seq<real>, x: real, r: seq<real>)
    ensures Energy(l + ([x] + r)) == Energy(l + r) + Energy([x])
  {
    EnergyConcat(l, r);
    EnergyConcat(l, [x] + r);
    EnergyConcat([x], r);
  }

  /** A bucket of samples that are all plus or minus `x` has the power x * x. */
  lemma {:induction false} ConstantPower(s: seq<real>, x: real)
    requires s != [] && forall k :: 0 <= k < |s| ==> s[k] == x || s[k] == -x
    ensures Power(s) == x * x
  {
    forall k | 0 <= k < |s| ensures Square(s[k]) == x * x { SquareOfSign(s[k], x, x * x); }
    ConstantEnergy(s, x * x);
    PowerIs(s, x * x);
  }

  lemma {:induction false} PowerIs(s: seq<real>, e: real)
    requires s != [] && Energy(s) == |s| as real * e
    ensures Power(s) == e
  {
  }

  lemma {:induction false} SquareOfSign(y: real, x: real, square: real)
    requires (y == x || y == -x) && square == x * x
    ensures Square(y) == square
  {
  }

  lemma {:induction false} ConstantEnergy(s: seq<real>, e: real)
    requires forall k :: 0 <= k < |s| ==> Square(s[k]) == e
    ensures Energy(s) == |s| as real * e
  {
    if s != [] {
      var n := |s| - 1;
      ConstantEnergy(s[..n], e);
    }
  }

  /** Moving samples about within their buckets leaves the curve unchanged. */
  lemma {:induction false} BucketOrderFree(s: seq<real>, t: seq<real>, root: real -> real)
    requires |s| == |t| && forall b :: 0 <= b < BUCKETS ==> multiset(Bucket(s, b)) == multiset(Bucket(t, b))
    ensures Curve(s, root) == Curve(t, root)
  {
    forall b | 0 <= b < BUCKETS ensures Loudness(Bucket(s, b), root) == Loudness(Bucket(t, b), root) {
      assert |Bucket(s, b)| == |Bucket(t, b)|;
      EnergyOrderFree(Bucket(s, b), Bucket(t, b));
    }
    assert Levels(s, root) == Levels(t, root);
  }

  // ---------- loudness of the whole ----------

  /** `t` is `s` played `k` times as loud. */
  ghost predicate IsScaled(s: seq<real>, t: seq<real>, k: real) {
    |t| == |s| && forall i :: 0 <= i < |s| ==> t[i] == k * s[i]
  }

  lemma {:induction false} EnergyScales(s: seq<real>, t: seq<real>, k: real)
    requires IsScaled(s, t, k)
    ensures Energy(t) == Square(k) * Energy(s)
  {
    if s != [] {
      var n := |s| - 1;
      EnergyScales(s[..n], t[..n], k);
      Distribute(Square(k), Energy(s[..n]), Square(s[n]));
    }
  }

  lemma {:induction false} Distribute(k: real, x: real, y: real)
    ensures k * (x + y) == k * x + k * y
  {
  }

  lemma {:induction false} PowerScales(s: seq<real>, t: seq<real>, k: real)
    requires IsScaled(s, t, k)
    ensures Power(t) == Square(k) * Power(s)
  {
    EnergyScales(s, t, k);
  }

  ghost predicate IsMapped(p: seq<real>, q: seq<real>, f: real -> real) {
    |q| == |p| && forall i :: 0 <= i < |p| ==> q[i] == f(p[i])
  }

  ghost predicate Monotone(f: real -> real) {
    f(0.0) == 0.0 && forall x, y :: x <= y ==> f(x) <= f(y)
  }

  lemma {:induction false} PeakMaps(p: seq<real>, q: seq<real>, f: real -> real)
    requires Monotone(f) && IsMapped(p, q, f)
    ensures Peak(q) == f(Peak(p))
  {
    if p != [] { PeakMaps(p[..|p| - 1], q[..|p| - 1], f); }
  }

  ghost predicate KeepsPoints(f: real -> real) {
    forall x, power, peak :: IsPoint(x, f(power), f(peak)) ==> IsPoint(x, power, peak)
  }

  function Scaling(k: real): real -> real {
    x => k * x
  }

  lemma {:induction false} ScalingKeepsPoints(k: real)
    requires k > 0.0
    ensures KeepsPoints(Scaling(k))
  {
    forall x, power, peak | IsPoint(x, Scaling(k)(power), Scaling(k)(peak)) ensures IsPoint(x, power, peak) {
      PointScales(x, power, peak, Scaling(k)(power), Scaling(k)(peak), k);
    }
  }

  lemma {:induction false} PointScales(x: real, power: real, peak: real, power': real, peak': real, k: real)
    requires k > 0.0 && power' == k * power && peak' == k * peak && IsPoint(x, power', peak')
    ensures IsPoint(x, power, peak)
  {
    var y := Square(x);
    assert y * (k * peak) == k * (y * peak);
  }

  lemma {:induction false} PowersMap(s: seq<real>, t: seq<real>, k: real) returns (f: real -> real)
    requires k > 0.0 && IsScaled(s, t, k)
    ensures Monotone(f) && KeepsPoints(f) && IsMapped(Powers(s), Powers(t), f)
  {
    f := Scaling(Square(k));
    Positive(k, k, Square(k));
    ScalingKeepsPoints(Square(k));
    PowersAreMapped(s, t, k);
  }

  lemma {:induction false} PowersAreMapped(s: seq<real>, t: seq<real>, k: real)
    requires IsScaled(s, t, k)
    ensures IsMapped(Powers(s), Powers(t), Scaling(Square(k)))
  {
    forall b | 0 <= b < BUCKETS ensures Powers(t)[b] == Scaling(Square(k))(Powers(s)[b]) {
      PowerScales(Bucket(s, b), Bucket(t, b), k);
    }
  }

  /** Playing the recording louder or softer leaves its curve unchanged. */
  lemma {:induction false} ScaleInvariant(s: seq<real>, t: seq<real>, k: real, root: real -> real)
    requires IsRoot(root) && k > 0.0 && IsScaled(s, t, k)
    ensures Curve(t, root) == Curve(s, root)
  {
    var f := PowersMap(s, t, k);
    SameCurve(s, t, f, root);
  }

  lemma {:induction false} SameCurve(s: seq<real>, t: seq<real>, f: real -> real, root: real -> real)
    requires IsRoot(root) && Monotone(f) && KeepsPoints(f) && IsMapped(Powers(s), Powers(t), f)
    ensures Curve(t, root) == Curve(s, root)
  {
    var c, p, q := Curve(t, root), Powers(s), Powers(t);
    CurveMeaning(t, root);
    CurveMeaning(s, root);
    PeakMaps(p, q, f);
    forall b | 0 <= b < BUCKETS ensures IsPoint(c[b], p[b], Peak(p)) {
      assert IsPoint(c[b], q[b], Peak(q));
      assert IsPoint(c[b], f(p[b]), f(Peak(p)));
    }
    CurveUnique(c, Curve(s, root), p);
  }

  // ---------- from file to curve ----------

  function FirstChannel(frames: seq<Frame>): seq<real>
    requires forall f :: 0 <= f < |frames| ==> |frames[f]| > 0
  {
    seq(|frames|, f requires 0 <= f < |frames| => frames[f][0] as real)
  }

  /** What was read has as many frames, and the curve of their first numbers. */
  ghost predicate HasCurveOf(read: Result<Header>, frames: seq<Frame>, root: real -> real) {
    read.Ok? && SampleBytes(read.value.format.bits).Some? && read.value.format.channels >= 1 &&
    (forall f :: 0 <= f < |frames| ==> |frames[f]| > 0) && Frames(read.value) == |frames| &&
    Curve(Samples(read.value), root) == Curve(FirstChannel(frames), root)
  }

  /** The curve of a written recording is the curve of the numbers that were written in its
      first channel: the sample size, the other channels and the chunks around do not show. */
  lemma {:induction false} CurveOfRecording(size: seq<Byte>, chunks: seq<Chunk>, i: nat, j: nat,
      format: Format, frames: seq<Frame>, root: real -> real)
    requires IsRoot(root) && |size| == 4 && IsRecording(chunks, i, j, format, frames)
    ensures HasCurveOf(Parse(WavFile(size, chunks)), frames, root)
  {
    RecordingRoundTrip(size, chunks, i, j, format, frames);
    var h := Header(format, chunks[j].body);
    var k := ChannelScales(h, frames);
    ScaleInvariant(FirstChannel(frames), Samples(h), k, root);
  }

  lemma {:induction false} ChannelScales(h: Header, frames: seq<Frame>) returns (k: real)
    requires SampleBytes(h.format.bits).Some? && h.format.channels >= 1 && Frames(h) == |frames|
    requires forall f :: 0 <= f < |frames| ==> |frames[f]| > 0 && SampleAt(h, f) == frames[f][0]
    ensures k > 0.0 && IsScaled(FirstChannel(frames), Samples(h), k)
  {
    k := 1.0 / FullScale(h.format.bits);
    forall f | 0 <= f < |frames| ensures Samples(h)[f] == k * FirstChannel(frames)[f] {
      SampleScaled(h, f, k);
    }
  }

  lemma {:induction false} SampleScaled(h: Header, f: nat, k: real)
    requires SampleBytes(h.format.bits).Some? && h.format.channels >= 1 && k == 1.0 / FullScale(h.format.bits)
    requires f < Frames(h)
    ensures Samples(h)[f] == k * SampleAt(h, f) as real
  {
  }
}
