/**
 Linear resampling of mono PCM (bot.py, _upsample_pcm16_linear; voice-server/src/audio-utils.ts,
 resample and its two wrappers).  The two versions differ in how they round: Python to the even
 neighbour of a half, JavaScript up.  Positions and values are exact quotients of integers.
 */
module Resampler {
  import opened Pcm16
  import opened Wrappers

  datatype Rounding = HalfEven | HalfUp

  // --- arithmetic ----------------------------------------------------------------------

  /** The integer nearest to n / d. */
  function Round(r: Rounding, n: int, d: nat): int
    requires d > 0
  {
    var q, m := n / d, n % d;
    if 2 * m < d then q
    else if 2 * m > d then q + 1
    else if r.HalfUp? || q % 2 == 1 then q + 1
    else q
  }

  predicate IsHalf(n: int, d: nat)
    requires d > 0
  {
    2 * (n % d) == d
  }

  lemma MulMonotone(a: int, b: int, c: nat)
    requires a <= b
    ensures a * c <= b * c
  {
  }

  lemma QuotientIs(n: int, d: nat, q: int, m: int)
    requires d > 0 && n == q * d + m && 0 <= m < d
    ensures n / d == q && n % d == m
  {
    var e := q - n / d;
    assert n == (n / d) * d + n % d;
    assert e * d == n % d - m by {
      assert e * d == q * d - (n / d) * d;
    }
    if e > 0 {
      MulMonotone(1, e, d);
    } else if e < 0 {
      MulMonotone(e, -1, d);
    }
  }

  lemma FloorIsBelow(n: int, d: nat, b: int)
    requires d > 0 && n <= b * d
    ensures n / d <= b && (n / d == b ==> n % d == 0)
  {
    assert n == (n / d) * d + n % d;
    if n / d >= b {
      MulMonotone(b, n / d, d);
      if n / d > b {
        MulMonotone(b + 1, n / d, d);
      }
    }
  }

  lemma FloorIsAbove(n: int, d: nat, a: int)
    requires d > 0 && a * d <= n
    ensures a <= n / d
  {
    assert n == (n / d) * d + n % d;
    if n / d < a {
      MulMonotone(n / d, a - 1, d);
    }
  }

  /** Rounding never leaves an interval with integer ends. */
  lemma RoundStaysBetween(r: Rounding, n: int, d: nat, a: int, b: int)
    requires d > 0 && a * d <= n <= b * d
    ensures a <= Round(r, n, d) <= b
  {
    FloorIsBelow(n, d, b);
    FloorIsAbove(n, d, a);
  }

  lemma RoundIsNear(r: Rounding, n: int, d: int)
    requires d > 0
    ensures -d <= 2 * (n - Round(r, n, d) * d) <= d
  {
    var q := n / d;
    assert n == q * d + n % d;
    assert (q + 1) * d == q * d + d;
  }

  /** The rounded value is at most half a unit away, and it is the only such integer unless
      the exact value is a half. */
  lemma RoundIsNearest(r: Rounding, n: int, d: int, k: int)
    requires d > 0
    ensures -d <= 2 * (n - Round(r, n, d) * d) <= d
    ensures -d < 2 * (n - k * d) < d ==> k == Round(r, n, d)
  {
    RoundIsNear(r, n, d);
    var e := k - Round(r, n, d);
    assert e * d == k * d - Round(r, n, d) * d;
    if -d < 2 * (n - k * d) < d {
      if e > 0 {
        MulMonotone(1, e, d);
      } else if e < 0 {
        MulMonotone(e, -1, d);
      }
    }
  }

  /** The two roundings part exactly at halves above an even integer. */
  lemma RoundingsDiffer(n: int, d: nat)
    requires d > 0
    ensures Round(HalfUp, n, d) - Round(HalfEven, n, d) == if IsHalf(n, d) && (n / d) % 2 == 0 then 1 else 0
  {
  }

  // --- one output sample ------------------------------------------------------------------

  function Min(a: int, b: int): int { if a < b then a else b }
  function Max(a: int, b: int): int { if a < b then b else a }

  function Clamp(v: int): sample {
    Max(-32768, Min(32767, v))
  }

  /** d times the exact value of the output at i: s0 + frac * (s1 - s0) with frac == m / d. */
  function Blend(s0: int, s1: int, m: int, d: int): int {
    s0 * d + m * (s1 - s0)
  }

  function Left(src: seq<sample>, i: nat, srcRate: nat, dstRate: nat): sample
    requires src != [] && dstRate > 0
  {
    src[Min(i * srcRate / dstRate, |src| - 1)]
  }

  function Right(src: seq<sample>, i: nat, srcRate: nat, dstRate: nat): sample
    requires src != [] && dstRate > 0
  {
    src[Min(i * srcRate / dstRate + 1, |src| - 1)]
  }

  function Exact(src: seq<sample>, i: nat, srcRate: nat, dstRate: nat): int
    requires src != [] && dstRate > 0
  {
    Blend(Left(src, i, srcRate, dstRate), Right(src, i, srcRate, dstRate), i * srcRate % dstRate, dstRate)
  }

  function OutputAt(r: Rounding, src: seq<sample>, i: nat, srcRate: nat, dstRate: nat): sample
    requires src != [] && dstRate > 0
  {
    Clamp(Round(r, Exact(src, i, srcRate, dstRate), dstRate))
  }

  function OutputLength(n: nat, srcRate: nat, dstRate: nat): nat
    requires srcRate > 0
  {
    n * dstRate / srcRate
  }

  function Resampled(r: Rounding, src: seq<sample>, srcRate: nat, dstRate: nat): (out: seq<sample>)
    requires srcRate > 0 && dstRate > 0
    ensures |out| == OutputLength(|src|, srcRate, dstRate)
  {
    if src == [] then assert OutputLength(0, srcRate, dstRate) == 0; []
    else seq(OutputLength(|src|, srcRate, dstRate), i requires 0 <= i => OutputAt(r, src, i, srcRate, dstRate))
  }

  /** An output position lies before the end of the input: reading the left neighbour never
      needs its bound, and the right one needs it only behind the last sample. */
  lemma PositionIsInside(i: nat, n: nat, srcRate: nat, dstRate: nat)
    requires srcRate > 0 && dstRate > 0 && i < OutputLength(n, srcRate, dstRate)
    ensures 0 <= i * srcRate / dstRate < n
  {
    var total := n * dstRate;
    assert total == (total / srcRate) * srcRate + total % srcRate;
    MulMonotone(i + 1, total / srcRate, srcRate);
    assert (i + 1) * srcRate == i * srcRate + srcRate;
    FloorIsBelow(i * srcRate, dstRate, n);
    FloorIsAbove(i * srcRate, dstRate, 0);
  }

  lemma BlendIsBetween(s0: int, s1: int, m: nat, d: nat)
    requires m < d
    ensures Min(s0, s1) * d <= Blend(s0, s1, m, d) <= Max(s0, s1) * d
  {
    var e := s1 - s0;
    assert s1 * d == s0 * d + d * e;
    if e >= 0 {
      MulMonotone(m, d, e);
      assert 0 <= m * e;
    } else {
      MulMonotone(m, d, -e);
      assert m * (-e) == -(m * e) && d * (-e) == -(d * e);
      assert 0 <= m * (-e);
    }
  }

  predicate Between(s0: sample, s: sample, s1: sample) {
    Min(s0, s1) <= s <= Max(s0, s1)
  }

  /** Every output lies between its two neighbours in the input, so the clamp never acts. */
  lemma OutputIsBetween(r: Rounding, src: seq<sample>, i: nat, srcRate: nat, dstRate: nat)
    requires src != [] && srcRate > 0 && dstRate > 0
    ensures Between(Left(src, i, srcRate, dstRate), OutputAt(r, src, i, srcRate, dstRate),
                    Right(src, i, srcRate, dstRate))
    ensures OutputAt(r, src, i, srcRate, dstRate) == Round(r, Exact(src, i, srcRate, dstRate), dstRate)
  {
    var s0, s1 := Left(src, i, srcRate, dstRate), Right(src, i, srcRate, dstRate);
    BlendIsBetween(s0, s1, i * srcRate % dstRate, dstRate);
    RoundStaysBetween(r, Exact(src, i, srcRate, dstRate), dstRate, Min(s0, s1), Max(s0, s1));
  }

  /** The Python and the TypeScript output differ by at most one, and exactly where the exact
      value is a half above an even integer. */
  lemma VersionsAgree(src: seq<sample>, i: nat, srcRate: nat, dstRate: nat)
    requires src != [] && srcRate > 0 && dstRate > 0
    ensures var n := Exact(src, i, srcRate, dstRate);
            OutputAt(HalfUp, src, i, srcRate, dstRate) - OutputAt(HalfEven, src, i, srcRate, dstRate)
            == if IsHalf(n, dstRate) && (n / dstRate) % 2 == 0 then 1 else 0
  {
    OutputIsBetween(HalfUp, src, i, srcRate, dstRate);
    OutputIsBetween(HalfEven, src, i, srcRate, dstRate);
    RoundingsDiffer(Exact(src, i, srcRate, dstRate), dstRate);
  }

  /** The samples lie on a straight line. */
  ghost predicate IsRamp(src: seq<sample>, step: int) {
    forall i | 0 <= i < |src| - 1 :: src[i + 1] == src[i] + step
  }

  lemma {:induction false} RampAt(src: seq<sample>, step: int, q: nat)
    requires IsRamp(src, step) && q < |src|
    ensures src[q] == src[0] + step * q
  {
    if q > 0 {
      RampAt(src, step, q - 1);
      assert step * q == step * (q - 1) + step;
    }
  }

  /** On a straight line interpolation is exact: the output is the rounded value of the line at
      the position i * srcRate / dstRate. */
  lemma RampIsKept(r: Rounding, src: seq<sample>, step: int, i: nat, srcRate: nat, dstRate: nat)
    requires IsRamp(src, step) && srcRate > 0 && dstRate > 0 && i * srcRate / dstRate + 1 < |src|
    ensures OutputAt(r, src, i, srcRate, dstRate) == Round(r, src[0] * dstRate + step * (i * srcRate), dstRate)
  {
    var q, m := i * srcRate / dstRate, i * srcRate % dstRate;
    FloorIsAbove(i * srcRate, dstRate, 0);
    RampAt(src, step, q);
    OutputIsBetween(r, src, i, srcRate, dstRate);
    LineAt(src[0], step, q, m, dstRate);
    assert i * srcRate == q * dstRate + m;
  }

  lemma LineAt(a: int, step: int, q: nat, m: nat, d: nat)
    ensures Blend(a + step * q, a + step * q + step, m, d) == a * d + step * (q * d + m)
  {
    assert (a + step * q) * d == a * d + step * (q * d) by {
      assert (a + step * q) * d == a * d + (step * q) * d;
      assert (step * q) * d == step * (q * d);
    }
    assert step * (q * d + m) == step * (q * d) + step * m;
  }

  // --- integer factors ----------------------------------------------------------------------

  /** At a position that is an integer the output is the sample there. */
  lemma OutputAtSample(r: Rounding, src: seq<sample>, i: nat, srcRate: nat, dstRate: nat, q: nat)
    requires q < |src| && srcRate > 0 && dstRate > 0 && i * srcRate == q * dstRate
    ensures OutputAt(r, src, i, srcRate, dstRate) == src[q]
  {
    QuotientIs(i * srcRate, dstRate, q, 0);
    OutputIsBetween(r, src, i, srcRate, dstRate);
    QuotientIs(Exact(src, i, srcRate, dstRate), dstRate, src[q], 0);
  }

  lemma LengthUp(n: nat, rate: nat, k: nat)
    requires rate > 0
    ensures OutputLength(n, rate, k * rate) == n * k
  {
    assert n * (k * rate) == (n * k) * rate;
    QuotientIs(n * (k * rate), rate, n * k, 0);
  }

  lemma LengthDown(n: nat, rate: nat, k: nat)
    requires rate > 0 && k > 0
    ensures k * rate > 0 && OutputLength(n, k * rate, rate) == n / k
  {
    var q, m := n / k, n % k;
    assert n == q * k + m;
    assert n * rate == q * (k * rate) + m * rate;
    MulMonotone(m + 1, k, rate);
    assert 0 <= m * rate < k * rate;
    QuotientIs(n * rate, k * rate, q, m * rate);
  }

  lemma KthIsInside(n: nat, k: nat, i: nat)
    requires k > 0 && i < n / k
    ensures 0 <= i * k < n
  {
    MulMonotone(i + 1, n / k, k);
    assert n == (n / k) * k + n % k;
    assert (i + 1) * k == i * k + k;
    MulMonotone(0, i, k);
  }

  function KthSample(src: seq<sample>, k: nat, i: nat): sample
    requires k > 0 && i < |src| / k
  {
    KthIsInside(|src|, k, i);
    src[i * k]
  }

  /** Every k-th sample, as far as there are k. */
  function EveryKth(src: seq<sample>, k: nat): seq<sample>
    requires k > 0
  {
    seq(|src| / k, i requires 0 <= i < |src| / k => KthSample(src, k, i))
  }

  /** From k times a rate to the rate: every k-th sample. */
  lemma DownTakesEveryKth(r: Rounding, src: seq<sample>, rate: nat, k: nat)
    requires rate > 0 && k > 0
    ensures k * rate > 0 && Resampled(r, src, k * rate, rate) == EveryKth(src, k)
  {
    LengthDown(|src|, rate, k);
    var out := Resampled(r, src, k * rate, rate);
    forall i | 0 <= i < |out| ensures out[i] == KthSample(src, k, i) {
      KthIsInside(|src|, k, i);
      assert i * (k * rate) == (i * k) * rate;
      OutputAtSample(r, src, i, k * rate, rate, i * k);
    }
  }

  lemma UpKeepsTheSamples(r: Rounding, src: seq<sample>, rate: nat, k: nat, i: nat)
    requires rate > 0 && k > 0 && i < |src|
    ensures k * rate > 0 && i * k < |src| * k == |Resampled(r, src, rate, k * rate)|
    ensures Resampled(r, src, rate, k * rate)[i * k] == src[i]
  {
    MulMonotone(1, k, rate);
    LengthUp(|src|, rate, k);
    MulMonotone(i + 1, |src|, k);
    assert (i + 1) * k == i * k + k;
    assert (i * k) * rate == i * (k * rate);
    OutputAtSample(r, src, i * k, rate, k * rate, i);
  }

  /** Going up by an integer factor and down again gives the input back, however each way
      rounds. */
  lemma UpThenDown(up: Rounding, down: Rounding, src: seq<sample>, rate: nat, k: nat)
    requires rate > 0 && k > 0
    ensures k * rate > 0
    ensures Resampled(down, Resampled(up, src, rate, k * rate), k * rate, rate) == src
  {
    MulMonotone(1, k, rate);
    LengthUp(|src|, rate, k);
    var high := Resampled(up, src, rate, k * rate);
    DownTakesEveryKth(down, high, rate, k);
    QuotientIs(|src| * k, k, |src|, 0);
    forall i | 0 <= i < |src| ensures KthSample(high, k, i) == src[i] {
      UpKeepsTheSamples(up, src, rate, k, i);
    }
  }

  lemma SplitQuotient(a: nat, b: nat, k: nat)
    requires k > 0 && a % k == 0
    ensures a == (a / k) * k && (a + b) / k == a / k + b / k
  {
    assert a == (a / k) * k;
    assert b == (b / k) * k + b % k;
    QuotientIs(a + b, k, a / k + b / k, b % k);
  }

  lemma KthOfBoth(a: seq<sample>, b: seq<sample>, k: nat, i: nat)
    requires k > 0 && |a| == (|a| / k) * k && |a + b| / k == |a| / k + |b| / k && i < |a + b| / k
    ensures KthSample(a + b, k, i) == if i < |a| / k then KthSample(a, k, i) else KthSample(b, k, i - |a| / k)
  {
    KthIsInside(|a + b|, k, i);
    if i < |a| / k {
      KthIsInside(|a|, k, i);
    } else {
      assert i * k == (|a| / k) * k + (i - |a| / k) * k;
      KthIsInside(|b|, k, i - |a| / k);
    }
  }

  lemma EveryKthDistributes(a: seq<sample>, b: seq<sample>, k: nat)
    requires k > 0 && |a| % k == 0
    ensures EveryKth(a + b, k) == EveryKth(a, k) + EveryKth(b, k)
  {
    SplitQuotient(|a|, |b|, k);
    var n, m := |a| / k, |b| / k;
    forall i: nat | i < n + m
      ensures EveryKth(a + b, k)[i] == (EveryKth(a, k) + EveryKth(b, k))[i]
    {
      KthOfBoth(a, b, k, i);
    }
  }

  /** Packets of a multiple of k samples can be taken down one by one. */
  lemma DownDistributes(r: Rounding, a: seq<sample>, b: seq<sample>, rate: nat, k: nat)
    requires rate > 0 && k > 0 && |a| % k == 0
    ensures k * rate > 0
    ensures Resampled(r, a + b, k * rate, rate) == Resampled(r, a, k * rate, rate) + Resampled(r, b, k * rate, rate)
  {
    DownTakesEveryKth(r, a, rate, k);
    DownTakesEveryKth(r, b, rate, k);
    DownTakesEveryKth(r, a + b, rate, k);
    EveryKthDistributes(a, b, k);
  }

  // --- going up packet by packet ----------------------------------------------------------------

  /** The output that lies m / k of the way from s0 to s1. */
  function Mix(r: Rounding, s0: sample, s1: sample, m: nat, rate: nat, k: nat): sample
    requires rate > 0 && k > 0
  {
    Clamp(Round(r, Blend(s0, s1, m * rate, k * rate), k * rate))
  }

  lemma MixAtSample(r: Rounding, s0: sample, s1: sample, rate: nat, k: nat)
    requires rate > 0 && k > 0
    ensures Mix(r, s0, s1, 0, rate, k) == s0
  {
    QuotientIs(s0 * (k * rate), k * rate, s0, 0);
  }

  function NextOf(src: seq<sample>, q: nat): sample
    requires q < |src|
  {
    src[Min(q + 1, |src| - 1)]
  }

  /** Going up by k puts k outputs in the place of each sample; this is the m-th for sample q. */
  lemma UpAt(r: Rounding, src: seq<sample>, q: nat, m: nat, rate: nat, k: nat)
    requires rate > 0 && q < |src| && m < k
    ensures k * rate > 0 && 0 <= q * k + m < |src| * k == |Resampled(r, src, rate, k * rate)|
    ensures Resampled(r, src, rate, k * rate)[q * k + m] == Mix(r, src[q], NextOf(src, q), m, rate, k)
  {
    UpPosition(q, m, rate, k);
    LengthUp(|src|, rate, k);
    PlaceInPacket(q, m, k, |src|);
    assert Resampled(r, src, rate, k * rate)[q * k + m] == OutputAt(r, src, q * k + m, rate, k * rate);
  }

  lemma UpPosition(q: nat, m: nat, rate: nat, k: nat)
    requires rate > 0 && m < k
    ensures k * rate > 0 && 0 <= q * k
    ensures (q * k + m) * rate / (k * rate) == q && (q * k + m) * rate % (k * rate) == m * rate
  {
    MulMonotone(1, k, rate);
    MulMonotone(0, q, k);
    assert (q * k + m) * rate == q * (k * rate) + m * rate;
    MulMonotone(m + 1, k, rate);
    QuotientIs((q * k + m) * rate, k * rate, q, m * rate);
  }

  lemma PlaceInPacket(q: nat, m: nat, k: nat, n: nat)
    requires m < k
    ensures q < n <==> q * k + m < n * k
    ensures q * k + m - n * k == (q - n) * k + m
    ensures 0 <= q * k
  {
    if q < n { MulMonotone(q + 1, n, k); } else { MulMonotone(n, q, k); }
  }

  function Concat(packets: seq<seq<sample>>): seq<sample> {
    if packets == [] then [] else packets[0] + Concat(packets[1..])
  }

  function UpPacketwise(r: Rounding, packets: seq<seq<sample>>, rate: nat, k: nat): seq<sample>
    requires rate > 0 && k > 0
  {
    MulMonotone(1, k, rate);
    if packets == [] then [] else Resampled(r, packets[0], rate, k * rate) + UpPacketwise(r, packets[1..], rate, k)
  }

  /** What the outputs for sample q are made of, when each packet ends with its last sample. */
  function MixedInPacket(mix: (sample, sample) -> sample, packets: seq<seq<sample>>, q: nat): sample
    requires q < |Concat(packets)|
  {
    var n := |packets[0]|;
    if q < n then mix(packets[0][q], NextOf(packets[0], q)) else MixedInPacket(mix, packets[1..], q - n)
  }

  lemma SumTimes(n: nat, m: nat, k: nat)
    ensures (n + m) * k == n * k + m * k
  {
  }

  lemma {:induction false} PacketwiseLength(r: Rounding, packets: seq<seq<sample>>, rate: nat, k: nat)
    requires rate > 0 && k > 0
    ensures |UpPacketwise(r, packets, rate, k)| == |Concat(packets)| * k
  {
    if packets != [] {
      PacketwiseLength(r, packets[1..], rate, k);
      LengthUp(|packets[0]|, rate, k);
      SumTimes(|packets[0]|, |Concat(packets[1..])|, k);
    }
  }

  lemma {:induction false} PacketwiseAt(r: Rounding, packets: seq<seq<sample>>, q: nat, m: nat, rate: nat, k: nat)
    requires rate > 0 && q < |Concat(packets)| && m < k
    ensures 0 <= q * k + m < |UpPacketwise(r, packets, rate, k)|
    ensures UpPacketwise(r, packets, rate, k)[q * k + m]
            == MixedInPacket((s0, s1) => Mix(r, s0, s1, m, rate, k), packets, q)
  {
    PacketwiseLength(r, packets, rate, k);
    PlaceInPacket(q, m, k, |Concat(packets)|);
    PlaceInPacket(q, m, k, |packets[0]|);
    LengthUp(|packets[0]|, rate, k);
    if q < |packets[0]| {
      UpAt(r, packets[0], q, m, rate, k);
    } else {
      PacketwiseAt(r, packets[1..], q - |packets[0]|, m, rate, k);
    }
  }

  /** Sample q is the last of the first j packets, and there are more samples behind it. */
  predicate AtSeam(packets: seq<seq<sample>>, j: nat, q: nat)
    requires j <= |packets|
  {
    |Concat(packets[..j])| == q + 1 < |Concat(packets)|
  }

  lemma FirstPrefix(packets: seq<seq<sample>>, j: nat)
    requires 1 <= j <= |packets|
    ensures Concat(packets[..j]) == packets[0] + Concat(packets[1..][..j - 1])
  {
    assert packets[..j][1..] == packets[1..][..j - 1];
  }

  lemma {:induction false} DifferenceIsAtSeam(mix: (sample, sample) -> sample, packets: seq<seq<sample>>, q: nat)
      returns (j: nat)
    requires q < |Concat(packets)|
    requires MixedInPacket(mix, packets, q) != mix(Concat(packets)[q], NextOf(Concat(packets), q))
    ensures 1 <= j < |packets| && AtSeam(packets, j, q)
  {
    var n := |packets[0]|;
    if q < n {
      j := 1;
      FirstPrefix(packets, 1);
    } else {
      assert NextOf(Concat(packets), q) == NextOf(Concat(packets[1..]), q - n);
      var rest := DifferenceIsAtSeam(mix, packets[1..], q - n);
      j := rest + 1;
      FirstPrefix(packets, j);
    }
  }

  /** Going up packet by packet gives as many outputs as going up at once, and the same ones but
      for those between the last sample of a packet and the first of the next: with a factor of
      2, at most one output a boundary. */
  lemma PacketsDifferAtSeams(r: Rounding, packets: seq<seq<sample>>, q: nat, m: nat, rate: nat, k: nat)
    requires rate > 0 && q < |Concat(packets)| && m < k
    ensures k * rate > 0
    ensures |UpPacketwise(r, packets, rate, k)| == |Concat(packets)| * k
    ensures |Resampled(r, Concat(packets), rate, k * rate)| == |Concat(packets)| * k
    ensures 0 <= q * k + m < |UpPacketwise(r, packets, rate, k)|
    ensures || UpPacketwise(r, packets, rate, k)[q * k + m] == Resampled(r, Concat(packets), rate, k * rate)[q * k + m]
            || (m > 0 && exists j | 1 <= j < |packets| :: AtSeam(packets, j, q))
  {
    var mix := (s0, s1) => Mix(r, s0, s1, m, rate, k);
    var whole := Concat(packets);
    PacketwiseLength(r, packets, rate, k);
    PacketwiseAt(r, packets, q, m, rate, k);
    UpAt(r, whole, q, m, rate, k);
    if MixedInPacket(mix, packets, q) != mix(whole[q], NextOf(whole, q)) {
      var j := DifferenceIsAtSeam(mix, packets, q);
      if m == 0 { SamplesAreKept(r, packets, q, rate, k); }
    }
  }

  /** The samples themselves are the same either way. */
  lemma {:induction false} SamplesAreKept(r: Rounding, packets: seq<seq<sample>>, q: nat, rate: nat, k: nat)
    requires rate > 0 && k > 0 && q < |Concat(packets)|
    ensures MixedInPacket((s0, s1) => Mix(r, s0, s1, 0, rate, k), packets, q) == Concat(packets)[q]
            == Mix(r, Concat(packets)[q], NextOf(Concat(packets), q), 0, rate, k)
  {
    MixAtSample(r, Concat(packets)[q], NextOf(Concat(packets), q), rate, k);
    if q < |packets[0]| {
      MixAtSample(r, packets[0][q], NextOf(packets[0], q), rate, k);
    } else {
      SamplesAreKept(r, packets[1..], q - |packets[0]|, rate, k);
    }
  }

  // --- the two programs -------------------------------------------------------------------------

  /** _upsample_pcm16_linear. */
  method UpsamplePcm16Linear(pcm: seq<byte>, srcRate: nat, dstRate: nat) returns (bytes: seq<byte>)
    requires srcRate > 0 && dstRate > 0
    ensures bytes == if srcRate == dstRate then pcm else Bytes(Resampled(HalfEven, Samples(pcm), srcRate, dstRate))
  {
    if srcRate == dstRate || pcm == [] {
      return pcm;
    }
    var src := Samples(pcm);
    var nSrc := |src|;
    if nSrc == 0 {
      return [];
    }
    var nDst := nSrc * dstRate / srcRate;
    var out := new sample[nDst];
    for i := 0 to nDst
      invariant forall j | 0 <= j < i :: out[j] == OutputAt(HalfEven, src, j, srcRate, dstRate)
    {
      var idx, rest := i * srcRate / dstRate, i * srcRate % dstRate;
      PositionIsInside(i, nSrc, srcRate, dstRate);
      var s0 := src[Min(idx, nSrc - 1)];
      var s1 := src[Min(idx + 1, nSrc - 1)];
      var val := Round(HalfEven, s0 * dstRate + rest * (s1 - s0), dstRate);
      out[i] := Max(-32768, Min(32767, val));
    }
    assert out[..] == Resampled(HalfEven, src, srcRate, dstRate);
    return Bytes(out[..]);
  }

  /** The sample that resample reads for position p: at most two bytes before the end, which for
      an odd length is not at a sample's first byte. */
  function ReadAt(buf: seq<byte>, p: nat): sample
    requires |buf| >= 2
  {
    var offset := Min(2 * p, |buf| - 2);
    ReadInt16LE(buf[offset], buf[offset + 1])
  }

  function BufferOutputAt(buf: seq<byte>, i: nat, srcRate: nat, dstRate: nat): sample
    requires |buf| >= 2 && dstRate > 0
  {
    var p := i * srcRate / dstRate;
    Clamp(Round(HalfUp, Blend(ReadAt(buf, p), ReadAt(buf, p + 1), i * srcRate % dstRate, dstRate), dstRate))
  }

  /** floor((length / 2) * dstRate / srcRate), where length / 2 may be a half. */
  function BufferOutputLength(length: nat, srcRate: nat, dstRate: nat): nat
    requires srcRate > 0
  {
    assert 0 <= length * dstRate;
    FloorIsAbove(length * dstRate, 2 * srcRate, 0);
    length * dstRate / (2 * srcRate)
  }

  /** A single byte cannot be read as a sample, and an output would have to. */
  predicate OutOfRange(length: nat, srcRate: nat, dstRate: nat)
    requires srcRate > 0
  {
    length == 1 && BufferOutputLength(length, srcRate, dstRate) > 0
  }

  function BufferResampled(buf: seq<byte>, srcRate: nat, dstRate: nat): (out: seq<sample>)
    requires srcRate > 0 && dstRate > 0 && !OutOfRange(|buf|, srcRate, dstRate)
    ensures |out| == BufferOutputLength(|buf|, srcRate, dstRate)
  {
    if |buf| < 2 then assert buf == [] ==> BufferOutputLength(|buf|, srcRate, dstRate) == 0; []
    else seq(BufferOutputLength(|buf|, srcRate, dstRate), i requires 0 <= i => BufferOutputAt(buf, i, srcRate, dstRate))
  }

  /** One turn of resample's loop; None when a read is out of range. */
  method OutputSample(pcmBuf: array<byte>, i: nat, srcRate: nat, dstRate: nat) returns (v: Option<sample>)
    requires srcRate > 0 && dstRate > 0 && pcmBuf.Length > 0
    ensures v == if pcmBuf.Length < 2 then None else Some(BufferOutputAt(pcmBuf[..], i, srcRate, dstRate))
  {
    assert 0 <= i * srcRate;
    FloorIsAbove(i * srcRate, dstRate, 0);
    var idx, rest := i * srcRate / dstRate, i * srcRate % dstRate;
    var o0, o1 := Min(2 * idx, pcmBuf.Length - 2), Min(2 * (idx + 1), pcmBuf.Length - 2);
    if o0 < 0 || o1 < 0 {
      return None;
    }
    var s0 := ReadInt16LE(pcmBuf[o0], pcmBuf[o0 + 1]);
    var s1 := ReadInt16LE(pcmBuf[o1], pcmBuf[o1 + 1]);
    assert s0 == ReadAt(pcmBuf[..], idx) && s1 == ReadAt(pcmBuf[..], idx + 1);
    return Some(Clamp(Round(HalfUp, Blend(s0, s1, rest, dstRate), dstRate)));
  }

  /** resample: equal rates give the caller's own buffer back. */
  method Resample(pcmBuf: array<byte>, srcRate: nat, dstRate: nat) returns (result: Option<array<byte>>)
    requires srcRate > 0 && dstRate > 0
    ensures srcRate == dstRate ==> result == Some(pcmBuf)
    ensures srcRate != dstRate ==> (result.None? <==> OutOfRange(pcmBuf.Length, srcRate, dstRate))
    ensures srcRate != dstRate && result.Some? ==>
              fresh(result.value) && result.value[..] == Bytes(BufferResampled(pcmBuf[..], srcRate, dstRate))
  {
    if srcRate == dstRate {
      return Some(pcmBuf);
    }
    var dstSamples := BufferOutputLength(pcmBuf.Length, srcRate, dstRate);
    assert pcmBuf.Length == 0 ==> dstSamples == 0;
    var out := new byte[dstSamples * 2];
    for i := 0 to dstSamples
      invariant i > 0 ==> pcmBuf.Length >= 2
      invariant Holds(out[..], pcmBuf[..], i, srcRate, dstRate)
    {
      var v := OutputSample(pcmBuf, i, srcRate, dstRate);
      if v.None? {
        return None;
      }
      out[2 * i], out[2 * i + 1] := LowByte(v.value), HighByte(v.value);
    }
    HoldsAll(out[..], pcmBuf[..], srcRate, dstRate);
    return Some(out);
  }

  /** The first n samples of the output are in place. */
  ghost predicate Holds(out: seq<byte>, buf: seq<byte>, n: nat, srcRate: nat, dstRate: nat)
    requires dstRate > 0
  {
    && 2 * n <= |out|
    && (n > 0 ==> |buf| >= 2)
    && forall j | 0 <= j < n ::
         && out[2 * j] == LowByte(BufferOutputAt(buf, j, srcRate, dstRate))
         && out[2 * j + 1] == HighByte(BufferOutputAt(buf, j, srcRate, dstRate))
  }

  lemma HoldsAll(out: seq<byte>, buf: seq<byte>, srcRate: nat, dstRate: nat)
    requires srcRate > 0 && dstRate > 0 && !OutOfRange(|buf|, srcRate, dstRate)
    requires |out| == 2 * BufferOutputLength(|buf|, srcRate, dstRate)
    requires Holds(out, buf, BufferOutputLength(|buf|, srcRate, dstRate), srcRate, dstRate)
    ensures out == Bytes(BufferResampled(buf, srcRate, dstRate))
  {
    forall i | 0 <= i < |out| ensures out[i] == Bytes(BufferResampled(buf, srcRate, dstRate))[i] {
      var j := i / 2;
      assert i == 2 * j || i == 2 * j + 1;
      assert BufferResampled(buf, srcRate, dstRate)[j] == BufferOutputAt(buf, j, srcRate, dstRate);
    }
  }

  /** On whole samples the byte offsets are those of the samples. */
  lemma WholeSamples(buf: seq<byte>, srcRate: nat, dstRate: nat)
    requires srcRate > 0 && dstRate > 0 && |buf| % 2 == 0
    ensures BufferResampled(buf, srcRate, dstRate) == Resampled(HalfUp, Samples(buf), srcRate, dstRate)
  {
    var n := |buf| / 2;
    LengthOfWhole(n, srcRate, dstRate);
    forall i: nat | n > 0
      ensures BufferOutputAt(buf, i, srcRate, dstRate) == OutputAt(HalfUp, Samples(buf), i, srcRate, dstRate)
    {
      FloorIsAbove(i * srcRate, dstRate, 0);
    }
  }

  lemma LengthOfWhole(n: nat, srcRate: nat, dstRate: nat)
    requires srcRate > 0
    ensures BufferOutputLength(2 * n, srcRate, dstRate) == OutputLength(n, srcRate, dstRate)
  {
    var q, m := n * dstRate / srcRate, n * dstRate % srcRate;
    assert n * dstRate == q * srcRate + m;
    assert 2 * n * dstRate == q * (2 * srcRate) + 2 * m;
    QuotientIs(2 * n * dstRate, 2 * srcRate, q, 2 * m);
  }

  lemma OddLengthDown(n: nat, rate: nat, k: nat)
    requires rate > 0 && k > 0
    ensures k * rate > 0 && BufferOutputLength(2 * n + 1, k * rate, rate) == n / k
  {
    MulMonotone(1, k, rate);
    var q, m := n / k, n % k;
    assert n == q * k + m;
    assert (2 * n + 1) * rate == q * (2 * (k * rate)) + (2 * m + 1) * rate;
    MulMonotone(2 * m + 2, 2 * k, rate);
    assert (2 * m + 2) * rate == (2 * m + 1) * rate + rate;
    assert 2 * k * rate == 2 * (k * rate);
    QuotientIs((2 * n + 1) * rate, 2 * (k * rate), q, (2 * m + 1) * rate);
  }

  lemma KthFromBuffer(buf: seq<byte>, rate: nat, k: nat, i: nat)
    requires rate > 0 && k > 0 && i < |buf| / 2 / k
    ensures |buf| >= 2 && BufferOutputAt(buf, i, k * rate, rate) == ReadAt(buf, i * k)
    ensures 0 <= i * k < |buf| / 2
  {
    KthIsInside(|buf| / 2, k, i);
    assert i * (k * rate) == (i * k) * rate;
    QuotientIs(i * (k * rate), rate, i * k, 0);
    QuotientIs(ReadAt(buf, i * k) * rate, rate, ReadAt(buf, i * k), 0);
  }

  /** Taking down by an integer factor, an odd last byte does not count. */
  lemma OddByteIsDropped(buf: seq<byte>, rate: nat, k: nat)
    requires rate > 0 && k > 0 && |buf| % 2 == 1
    ensures k * rate > 0 && !OutOfRange(|buf|, k * rate, rate)
    ensures BufferResampled(buf, k * rate, rate) == BufferResampled(buf[..|buf| - 1], k * rate, rate)
  {
    var n := |buf| / 2;
    var even := buf[..2 * n];
    LengthOfWhole(n, k * rate, rate);
    LengthDown(n, rate, k);
    OddLengthDown(n, rate, k);
    forall i | 0 <= i < n / k
      ensures BufferResampled(buf, k * rate, rate)[i] == BufferResampled(even, k * rate, rate)[i]
    {
      KthFromBuffer(buf, rate, k, i);
      KthFromBuffer(even, rate, k, i);
    }
  }

  /** The samples as resample comes across them going up: an odd last byte is read together with
      the byte before it. */
  function SamplesRead(buf: seq<byte>): (src: seq<sample>)
    ensures |src| == if |buf| % 2 == 1 && |buf| > 1 then |buf| / 2 + 1 else |buf| / 2
  {
    Samples(buf) + (if |buf| % 2 == 1 && |buf| > 1 then [ReadInt16LE(buf[|buf| - 2], buf[|buf| - 1])] else [])
  }

  lemma ReadAtSample(buf: seq<byte>, p: nat)
    requires |buf| >= 2 && p <= |SamplesRead(buf)|
    ensures ReadAt(buf, p) == SamplesRead(buf)[Min(p, |SamplesRead(buf)| - 1)]
  {
    var n := |buf| / 2;
    if p < n { assert Samples(buf)[p] == ReadInt16LE(buf[2 * p], buf[2 * p + 1]); }
    if |buf| % 2 == 0 { assert Samples(buf)[n - 1] == ReadInt16LE(buf[2 * n - 2], buf[2 * n - 1]); }
  }

  /** The outputs of a doubled buffer, as many as it has bytes: the samples it comes across, and
      between each two of them a value between the two. */
  ghost predicate DoubledBytes(buf: seq<byte>, out: seq<sample>) {
    && |out| == |buf|
    && forall i: nat | i < |buf| :: DoubledByteAt(buf, out, i)
  }

  ghost predicate DoubledByteAt(buf: seq<byte>, out: seq<sample>, i: nat)
    requires i < |buf| == |out|
  {
    var src := SamplesRead(buf);
    && i / 2 < |src|
    && if i % 2 == 0 then out[i] == src[i / 2] else Between(src[i / 2], out[i], src[Min(i / 2 + 1, |src| - 1)])
  }

  lemma HalfWay(s0: sample, s1: sample, odd: bool)
    ensures var m := if odd then 8000 else 0;
            var v := Clamp(Round(HalfUp, Blend(s0, s1, m, 16000), 16000));
            if odd then Between(s0, v, s1) else v == s0
  {
    var m := if odd then 8000 else 0;
    BlendIsBetween(s0, s1, m, 16000);
    RoundStaysBetween(HalfUp, Blend(s0, s1, m, 16000), 16000, Min(s0, s1), Max(s0, s1));
    if !odd { RoundStaysBetween(HalfUp, Blend(s0, s1, 0, 16000), 16000, s0, s0); }
  }

  lemma DoubledOutput(buf: seq<byte>, i: nat)
    requires |buf| >= 2 && i < |buf|
    ensures var s0, s1 := ReadAt(buf, i / 2), ReadAt(buf, i / 2 + 1);
            if i % 2 == 0 then BufferOutputAt(buf, i, 8000, 16000) == s0
            else Between(s0, BufferOutputAt(buf, i, 8000, 16000), s1)
  {
    QuotientIs(i * 8000, 16000, i / 2, (i % 2) * 8000);
    HalfWay(ReadAt(buf, i / 2), ReadAt(buf, i / 2 + 1), i % 2 == 1);
  }

  lemma DoublesTheLength(buf: seq<byte>)
    requires |buf| >= 2
    ensures |BufferResampled(buf, 8000, 16000)| == |buf|
    ensures forall i | 0 <= i < |buf| ::
              BufferResampled(buf, 8000, 16000)[i] == BufferOutputAt(buf, i, 8000, 16000)
  {
  }

  lemma EvenByte(buf: seq<byte>, out: seq<sample>, i: nat)
    requires |buf| >= 2 && i < |buf| == |out| && i % 2 == 0 && out[i] == BufferOutputAt(buf, i, 8000, 16000)
    ensures DoubledByteAt(buf, out, i)
  {
    DoubledOutput(buf, i);
    ReadAtSample(buf, i / 2);
  }

  lemma OddByte(buf: seq<byte>, out: seq<sample>, i: nat)
    requires |buf| >= 2 && i < |buf| == |out| && i % 2 == 1 && out[i] == BufferOutputAt(buf, i, 8000, 16000)
    ensures DoubledByteAt(buf, out, i)
  {
    DoubledOutput(buf, i);
    ReadAtSample(buf, i / 2);
    ReadAtSample(buf, i / 2 + 1);
  }

  lemma DoublingBytes(buf: seq<byte>)
    requires |buf| >= 2
    ensures DoubledBytes(buf, BufferResampled(buf, 8000, 16000))
  {
    var out := BufferResampled(buf, 8000, 16000);
    DoublesTheLength(buf);
    forall i: nat | i < |buf| ensures DoubledByteAt(buf, out, i) {
      if i % 2 == 0 { EvenByte(buf, out, i); } else { OddByte(buf, out, i); }
    }
  }

  /** upsample8to16: the even outputs are the samples, and each odd one lies between its two
      neighbours. */
  method Upsample8To16(pcm8k: array<byte>) returns (result: Option<array<byte>>)
    ensures result.None? <==> pcm8k.Length == 1
    ensures result.Some? ==> DoubledBytes(pcm8k[..], Samples(result.value[..]))
  {
    result := Resample(pcm8k, 8000, 16000);
    if pcm8k.Length != 1 {
      ghost var buf := pcm8k[..];
      SamplesOfBytes(BufferResampled(buf, 8000, 16000));
      if |buf| >= 2 { DoublingBytes(buf); }
    }
  }

  /** downsample24to8: every third sample, whatever the length of the buffer. */
  method Downsample24To8(pcm24k: array<byte>) returns (result: Option<array<byte>>)
    ensures result.Some? && Samples(result.value[..]) == EveryKth(Samples(pcm24k[..]), 3)
  {
    result := Resample(pcm24k, 24000, 8000);
    ghost var buf := pcm24k[..];
    if |buf| % 2 == 1 {
      OddByteIsDropped(buf, 8000, 3);
      assert Samples(buf[..|buf| - 1]) == Samples(buf);
      WholeSamples(buf[..|buf| - 1], 24000, 8000);
    } else {
      WholeSamples(buf, 24000, 8000);
    }
    DownTakesEveryKth(HalfUp, Samples(buf), 8000, 3);
    SamplesOfBytes(Resampled(HalfUp, Samples(buf), 24000, 8000));
  }

  // --- when the two programs agree ------------------------------------------------------------------

  function PythonBytes(buf: seq<byte>, srcRate: nat, dstRate: nat): seq<byte>
    requires srcRate > 0 && dstRate > 0
  {
    if srcRate == dstRate then buf else Bytes(Resampled(HalfEven, Samples(buf), srcRate, dstRate))
  }

  function ScriptBytes(buf: seq<byte>, srcRate: nat, dstRate: nat): Option<seq<byte>>
    requires srcRate > 0 && dstRate > 0
  {
    if srcRate == dstRate then Some(buf)
    else if OutOfRange(|buf|, srcRate, dstRate) then None
    else Some(Bytes(BufferResampled(buf, srcRate, dstRate)))
  }

  predicate Agree(buf: seq<byte>, srcRate: nat, dstRate: nat)
    requires srcRate > 0 && dstRate > 0
  {
    ScriptBytes(buf, srcRate, dstRate) == Some(PythonBytes(buf, srcRate, dstRate))
  }

  lemma AgreeGoingDown(buf: seq<byte>, rate: nat, k: nat)
    requires rate > 0 && k > 0
    ensures k * rate > 0 && Agree(buf, k * rate, rate)
  {
    MulMonotone(1, k, rate);
    if k * rate != rate {
      var whole := buf[..2 * (|buf| / 2)];
      if |buf| % 2 == 1 {
        OddByteIsDropped(buf, rate, k);
      } else {
        assert whole == buf;
      }
      assert Samples(whole) == Samples(buf);
      WholeSamples(whole, k * rate, rate);
      DownTakesEveryKth(HalfUp, Samples(buf), rate, k);
      DownTakesEveryKth(HalfEven, Samples(buf), rate, k);
    }
  }

  /** The half sample of an odd byte makes an output of its own when the rest of a division is
      large enough. */
  lemma LongerByOne(n: nat, m: int, q: int, srcRate: nat, dstRate: nat)
    requires srcRate > 0 && n * dstRate == q * srcRate + m && 0 <= m < srcRate && 2 * m + dstRate >= 2 * srcRate
    ensures BufferOutputLength(2 * n + 1, srcRate, dstRate) > OutputLength(n, srcRate, dstRate)
  {
    QuotientIs(n * dstRate, srcRate, q, m);
    assert (2 * n + 1) * dstRate == 2 * (n * dstRate) + dstRate;
    assert (q + 1) * (2 * srcRate) == 2 * (q * srcRate) + 2 * srcRate;
    FloorIsAbove((2 * n + 1) * dstRate, 2 * srcRate, q + 1);
  }

  lemma LastMultiple(a: nat, c: nat)
    requires 0 < c <= a
    ensures a - c <= ((a - 1) / c) * c <= a - 1
  {
    assert a - 1 == ((a - 1) / c) * c + (a - 1) % c;
  }

  lemma LengthDiffersUp(srcRate: nat, dstRate: nat) returns (n: nat)
    requires 0 < srcRate < dstRate < 2 * srcRate
    ensures BufferOutputLength(2 * n + 1, srcRate, dstRate) > OutputLength(n, srcRate, dstRate)
  {
    var e := dstRate - srcRate;
    LastMultiple(srcRate, e);
    n := (srcRate - 1) / e;
    assert n * dstRate == n * srcRate + n * e;
    LongerByOne(n, n * e, n, srcRate, dstRate);
  }

  lemma LengthDiffersDown(srcRate: nat, dstRate: nat) returns (n: nat)
    requires 0 < dstRate < srcRate && srcRate % dstRate != 0
    ensures BufferOutputLength(2 * n + 1, srcRate, dstRate) > OutputLength(n, srcRate, dstRate)
  {
    var q, m := srcRate / dstRate, srcRate % dstRate;
    assert srcRate == q * dstRate + m;
    if 2 * m <= dstRate {
      n := q;
      LongerByOne(n, srcRate - m, 0, srcRate, dstRate);
    } else {
      n := LengthDiffersOnWrap(srcRate, dstRate, q, m);
    }
  }

  lemma LengthDiffersOnWrap(srcRate: nat, dstRate: nat, q: nat, m: nat) returns (n: nat)
    requires 0 < dstRate < srcRate && srcRate == q * dstRate + m && m < dstRate < 2 * m
    ensures BufferOutputLength(2 * n + 1, srcRate, dstRate) > OutputLength(n, srcRate, dstRate)
  {
    var c := dstRate - m;
    LastMultiple(srcRate, c);
    var j := (srcRate - 1) / c;
    n := j * (q + 1);
    WrapAround(j, q, srcRate, dstRate, m);
    LongerByOne(n, j * c, j, srcRate, dstRate);
  }

  lemma SomeLengthDiffers(srcRate: nat, dstRate: nat) returns (n: nat)
    requires srcRate > 0 && dstRate > 0 && srcRate % dstRate != 0
    ensures BufferOutputLength(2 * n + 1, srcRate, dstRate) > OutputLength(n, srcRate, dstRate)
  {
    if dstRate >= 2 * srcRate {
      n := 0;
      LongerByOne(0, 0, 0, srcRate, dstRate);
    } else if dstRate > srcRate {
      n := LengthDiffersUp(srcRate, dstRate);
    } else if dstRate == srcRate {
      QuotientIs(srcRate, dstRate, 1, 0);
      assert false;
    } else {
      n := LengthDiffersDown(srcRate, dstRate);
    }
  }

  lemma OddBufferDiffers(buf: seq<byte>, srcRate: nat, dstRate: nat)
    requires srcRate > 0 && dstRate > 0 && srcRate != dstRate && |buf| % 2 == 1
    requires BufferOutputLength(|buf|, srcRate, dstRate) > OutputLength(|buf| / 2, srcRate, dstRate)
    ensures !Agree(buf, srcRate, dstRate)
  {
  }

  lemma WrapAround(j: nat, q: nat, srcRate: nat, dstRate: nat, m: nat)
    requires srcRate == q * dstRate + m
    ensures 0 <= j * (q + 1) && (j * (q + 1)) * dstRate == j * srcRate + j * (dstRate - m)
  {
    assert (q + 1) * dstRate == srcRate + (dstRate - m);
    assert (j * (q + 1)) * dstRate == j * ((q + 1) * dstRate);
    assert j * (srcRate + (dstRate - m)) == j * srcRate + j * (dstRate - m);
    MulMonotone(0, j, q + 1);
  }

  /** The two programs agree on all buffers exactly when the source rate is a multiple of the
      target rate: otherwise some odd buffer comes out longer from TypeScript, or fails there. */
  lemma AgreeExactlyWhen(srcRate: nat, dstRate: nat)
    requires srcRate > 0 && dstRate > 0
    ensures (forall buf :: Agree(buf, srcRate, dstRate)) <==> srcRate % dstRate == 0
  {
    if srcRate % dstRate == 0 {
      forall buf ensures Agree(buf, srcRate, dstRate) {
        MultipleAgrees(buf, srcRate, dstRate);
      }
    } else {
      var buf := NoMultipleDiffers(srcRate, dstRate);
    }
  }

  lemma MultipleAgrees(buf: seq<byte>, srcRate: nat, dstRate: nat)
    requires srcRate > 0 && dstRate > 0 && srcRate % dstRate == 0
    ensures Agree(buf, srcRate, dstRate)
  {
    assert srcRate == (srcRate / dstRate) * dstRate;
    AgreeGoingDown(buf, dstRate, srcRate / dstRate);
  }

  lemma NoMultipleDiffers(srcRate: nat, dstRate: nat) returns (buf: seq<byte>)
    requires srcRate > 0 && dstRate > 0 && srcRate % dstRate != 0
    ensures !Agree(buf, srcRate, dstRate)
  {
    var n := SomeLengthDiffers(srcRate, dstRate);
    buf := seq(2 * n + 1, i => 0);
    if srcRate == dstRate { QuotientIs(srcRate, dstRate, 1, 0); }
    OddBufferDiffers(buf, srcRate, dstRate);
  }
}
