/** The energy gate: `rms` decodes a frame of little-endian signed 16-bit samples
    and the recorders compare `1000 * sqrt(mean((s / 32768)^2))` with a threshold.
    The comparison is modelled exactly: `rms >= T` is `10^6 * sum(s^2) >= T^2 * n * 32768^2`. */
module EnergyGate {
  import opened Wrappers

  type Byte = b: int | 0 <= b < 256
  type Frame = seq<Byte>

  /** `1 / short_normalize`. */
  const FullScale: nat := 32768

  /** `struct.unpack` rejects an odd byte count; the division by `count` fails on an empty frame. */
  datatype GateError = OddLength | EmptyFrame

  /** The exact quantities behind `rms`: the sum of squared raw samples and their number. */
  datatype Level = Level(sumSquares: nat, count: nat)

  /** One little-endian signed 16-bit sample (`struct.unpack("h")` on the native byte order). */
  function Sample(lo: Byte, hi: Byte): (s: int)
    ensures -32768 <= s <= 32767
    ensures s % 65536 == (lo + 256 * hi) % 65536
  {
    var u := lo + 256 * hi;
    if u >= 32768 then u - 65536 else u
  }

  /** `struct.unpack("%dh" % (len(frame) / 2), frame)`. */
  function Decode(f: Frame): (s: seq<int>)
    requires |f| % 2 == 0
    ensures |s| == |f| / 2
  {
    if f == [] then [] else [Sample(f[0], f[1])] + Decode(f[2..])
  }

  /** Sample `i` of the decoded frame is made of bytes `2i` and `2i + 1`, so it lies in the
      16-bit range. */
  lemma {:induction false} DecodeSamples(f: Frame)
    requires |f| % 2 == 0
    ensures forall i :: 0 <= i < |Decode(f)| ==> Decode(f)[i] == Sample(f[2 * i], f[2 * i + 1])
    ensures forall i :: 0 <= i < |Decode(f)| ==> -32768 <= Decode(f)[i] <= 32767
    decreases |f|
  {
    if f != [] {
      DecodeSamples(f[2..]);
      forall i | 0 <= i < |Decode(f)|
        ensures Decode(f)[i] == Sample(f[2 * i], f[2 * i + 1])
      {
        if i > 0 {
          assert Decode(f)[i] == Decode(f[2..])[i - 1];
          assert f[2..][2 * (i - 1)] == f[2 * i] && f[2..][2 * (i - 1) + 1] == f[2 * i + 1];
        }
      }
    }
  }

  /** The sum of the squared samples, accumulated left to right as the source's loop does. */
  function SumSquares(s: seq<int>): nat
  {
    if s == [] then 0 else SumSquares(s[..|s| - 1]) + s[|s| - 1] * s[|s| - 1]
  }

  /** What `rms` computes, or the exception it raises. */
  function Measure(f: Frame): (r: Result<Level, GateError>)
    ensures r == Err(OddLength) <==> |f| % 2 != 0
    ensures r == Err(EmptyFrame) <==> f == []
    ensures r.Ok? ==> r.value.count == |f| / 2 > 0
  {
    if |f| % 2 != 0 then Err(OddLength)
    else if f == [] then Err(EmptyFrame)
    else Ok(Level(SumSquares(Decode(f)), |f| / 2))
  }

  /** `rms(frame) >= threshold`, the test that extends a recording. */
  predicate Voiced(l: Level, threshold: nat)
  {
    1000000 * l.sumSquares >= threshold * threshold * l.count * FullScale * FullScale
  }

  /** `rms(frame) > threshold`, the test that starts a recording in the listen loops. */
  predicate Onset(l: Level, threshold: nat)
  {
    1000000 * l.sumSquares > threshold * threshold * l.count * FullScale * FullScale
  }

  /** The mean of the squared normalised samples, as an exact rational. */
  function MeanSquare(l: Level): (m: real)
    requires l.count > 0
    ensures m >= 0.0
  {
    l.sumSquares as real / (l.count as real * FullScale as real * FullScale as real)
  }

  /** The source's loop: sums the squared samples of the decoded frame. */
  method Rms(frame: Frame) returns (res: Result<Level, GateError>)
    ensures res == Measure(frame)
  {
    if |frame| % 2 != 0 {
      return Err(OddLength);
    }
    var shorts := Decode(frame);
    var sum: nat := 0;
    var i := 0;
    while i < |shorts|
      invariant 0 <= i <= |shorts|
      invariant sum == SumSquares(shorts[..i])
    {
      assert shorts[..i + 1][..i] == shorts[..i];
      sum := sum + shorts[i] * shorts[i];
      i := i + 1;
    }
    assert shorts[..i] == shorts;
    if i == 0 {
      return Err(EmptyFrame);
    }
    res := Ok(Level(sum, i));
  }

  lemma {:induction false} SumSquaresBound(s: seq<int>)
    requires forall i :: 0 <= i < |s| ==> -32768 <= s[i] <= 32767
    ensures SumSquares(s) <= |s| * FullScale * FullScale
  {
    if s != [] {
      var x := s[|s| - 1];
      SumSquaresBound(s[..|s| - 1]);
      assert x * x <= FullScale * FullScale by {
        if x < 0 { assert (-x) * (-x) <= 32768 * 32768 by { SquareMono(-x, 32768); } }
        else { SquareMono(x, 32768); }
      }
    }
  }

  lemma SquareMono(a: nat, b: nat)
    requires a <= b
    ensures a * a <= b * b
  {
    assert a * a <= a * b <= b * b;
  }

  /** The normalised mean square never exceeds 1, so `rms` lies in [0, 1000]. */
  lemma LevelAtMostFullScale(f: Frame)
    requires Measure(f).Ok?
    ensures Measure(f).value.sumSquares <= Measure(f).value.count * FullScale * FullScale
    ensures MeanSquare(Measure(f).value) <= 1.0
  {
    var l := Measure(f).value;
    assert l.sumSquares == SumSquares(Decode(f)) && l.count == |Decode(f)|;
    DecodeSamples(f);
    SumSquaresBound(Decode(f));
    var bound := l.count * 1073741824;
    assert l.sumSquares <= bound;
    var d := l.count as real * FullScale as real * FullScale as real;
    assert d == bound as real;
    RatioAtMostOne(l.sumSquares as real, d);
  }

  lemma RatioAtMostOne(x: real, d: real)
    requires 0.0 < d && x <= d
    ensures x / d <= 1.0
  {
  }

  lemma {:induction false} SilentSamples(f: Frame)
    requires |f| % 2 == 0
    requires forall i :: 0 <= i < |f| ==> f[i] == 0
    ensures forall i :: 0 <= i < |Decode(f)| ==> Decode(f)[i] == 0
  {
    if f != [] {
      SilentSamples(f[2..]);
    }
  }

  lemma {:induction false} SumSquaresOfZeros(s: seq<int>)
    requires forall i :: 0 <= i < |s| ==> s[i] == 0
    ensures SumSquares(s) == 0
  {
    if s != [] {
      SumSquaresOfZeros(s[..|s| - 1]);
    }
  }

  /** An all-zero frame measures 0: it never starts a recording, and extends one only at threshold 0. */
  lemma {:induction false} ZeroFrameIsSilent(f: Frame, threshold: nat)
    requires f != [] && |f| % 2 == 0
    requires forall i :: 0 <= i < |f| ==> f[i] == 0
    ensures Measure(f).Ok? && Measure(f).value.sumSquares == 0
    ensures !Onset(Measure(f).value, threshold)
    ensures Voiced(Measure(f).value, threshold) <==> threshold == 0
  {
    SilentSamples(f);
    SumSquaresOfZeros(Decode(f));
    var l := Measure(f).value;
    if threshold > 0 {
      assert threshold * threshold * l.count * FullScale * FullScale > 0;
    }
  }

  /** A frame whose `rms` is exactly the threshold extends a recording but never starts one,
      and every frame that starts a recording would also extend it. */
  lemma OnsetAndVoiced(l: Level, threshold: nat)
    ensures Onset(l, threshold) ==> Voiced(l, threshold)
    ensures Voiced(l, threshold) && !Onset(l, threshold) <==>
            1000000 * l.sumSquares == threshold * threshold * l.count * FullScale * FullScale
  {
  }

  lemma SquareOrder(a: real, b: real)
    requires a >= 0.0 && b >= 0.0
    ensures a >= b <==> a * a >= b * b
    ensures a > b <==> a * a > b * b
  {
    if a > b {
      assert a * a >= a * b;
      assert a * b >= b * b;
      var p := (a - b) * (a + b);
      assert p == a * a - b * b;
      PositiveProduct(a - b, a + b);
      assert p > 0.0;
    } else if a < b {
      assert b * b - a * a == (b - a) * (b + a);
      PositiveProduct(b - a, b + a);
    }
  }

  lemma PositiveProduct(x: real, y: real)
    requires x > 0.0 && y > 0.0
    ensures x * y > 0.0
  {
  }

  /** The exact integer tests agree with the floating-point formula they replace:
      for `r = 1000 * sqrt(MeanSquare)`, `Voiced` is `r >= T` and `Onset` is `r > T`. */
  lemma {:induction false} GateAgreesWithRms(l: Level, threshold: nat, r: real)
    requires l.count > 0
    requires r >= 0.0 && r * r == 1000000.0 * MeanSquare(l)
    ensures Voiced(l, threshold) <==> r >= threshold as real
    ensures Onset(l, threshold) <==> r > threshold as real
  {
    var t := threshold as real;
    var d := l.count as real * FullScale as real * FullScale as real;
    assert d > 0.0;
    var lhs := 1000000.0 * l.sumSquares as real;
    assert r * r * d == lhs;
    var rhs := (threshold * threshold * l.count * FullScale * FullScale) as real;
    assert rhs == t * t * d;
    SquareOrder(r, t);
    assert Voiced(l, threshold) <==> lhs >= rhs;
    assert Onset(l, threshold) <==> lhs > rhs;
    assert r * r >= t * t <==> r * r * d >= t * t * d;
    assert r * r > t * t <==> r * r * d > t * t * d;
  }
}
