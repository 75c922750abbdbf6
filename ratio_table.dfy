/**
 * The hand-written sine tables of fl2k-psk.cpp's init_txbuffer, one per
 * supported samplerate / carrier ratio, and what they guarantee.
 */
module RatioTable {
  import opened Machine

  const SIGNAL_MAX: Int8 := 99
  const SIGNAL_MIN: Int8 := -SIGNAL_MAX

  /** The decimal constants SIN_x_PI, as fractions of SCALE. */
  const SCALE: nat := 1000000000
  const SIN_1_4_PI: nat := 707106781
  const SIN_1_6_PI: nat := 500000000
  const SIN_1_10_PI: nat := 309016994
  const SIN_3_10_PI: nat := 809016994

  /** `(int8_t)(SIGNAL_MAX * SIN)`: the product truncated toward zero. */
  function ScaledSine(sin: nat): Int8
    requires sin <= SCALE
  {
    ToInt8(Truncate(SIGNAL_MAX * sin, SCALE))
  }

  lemma ScaledSineValues()
    ensures ScaledSine(SIN_1_4_PI) == 70
    ensures ScaledSine(SIN_1_6_PI) == 49
    ensures ScaledSine(SIN_1_10_PI) == 30
    ensures ScaledSine(SIN_3_10_PI) == 80
  {
  }

  predicate Supported(ratio: int) {
    ratio in {2, 4, 6, 8, 10}
  }

  /**
   * `sines[ratio]`. The tables run past one period so that an index offset
   * of up to +2 (ratio 4) stays in bounds. An unsupported ratio yields the
   * empty vector that `map::operator[]` inserts.
   */
  function Sines(ratio: int): (t: seq<Int8>)
    ensures Supported(ratio) <==> |t| >= ratio > 0
    ensures !Supported(ratio) ==> t == []
  {
    var s14 := ScaledSine(SIN_1_4_PI);
    var s16 := ScaledSine(SIN_1_6_PI);
    var s110 := ScaledSine(SIN_1_10_PI);
    var s310 := ScaledSine(SIN_3_10_PI);
    if ratio == 2 then [SIGNAL_MAX, SIGNAL_MIN]
    else if ratio == 4 then [0, SIGNAL_MAX, 0, SIGNAL_MIN, 0, SIGNAL_MAX]
    else if ratio == 6 then [s16, SIGNAL_MAX, s16, ToInt8(-s16), SIGNAL_MIN, ToInt8(-s16), s16, SIGNAL_MAX, s16]
    else if ratio == 8 then
      [0, s14, SIGNAL_MAX, s14, 0, ToInt8(-s14), SIGNAL_MIN, ToInt8(-s14), 0, s14, SIGNAL_MAX, s14, 0]
    else if ratio == 10 then
      [s110, s310, SIGNAL_MAX, s310, s110, ToInt8(-s110), ToInt8(-s310), SIGNAL_MIN, ToInt8(-s310), ToInt8(-s110),
       s110, s310, SIGNAL_MAX, s310, s110]
    else []
  }

  /**
   * Independent reference: the first half-cycle of each ratio, sampled so
   * that the crest 99 falls on index ratio / 4, with each amplitude the
   * truncated integer of 99 * sin at that phase.
   */
  function HalfWave(ratio: int): seq<int> {
    if ratio == 2 then [99]
    else if ratio == 4 then [0, 99]
    else if ratio == 6 then [49, 99, 49]
    else if ratio == 8 then [0, 70, 99, 70]
    else if ratio == 10 then [30, 80, 99, 80, 30]
    else []
  }

  /** The periodic waveform built from a half-cycle and its negation. */
  function MirroredAt(half: seq<int>, k: nat): int
    requires |half| > 0
  {
    var p := k % (2 * |half|);
    if p < |half| then half[p] else -half[p - |half|]
  }

  /** Every entry of every table lies in [SIGNAL_MIN, SIGNAL_MAX]. */
  lemma TableBounds(ratio: int, k: nat)
    requires k < |Sines(ratio)|
    ensures SIGNAL_MIN <= Sines(ratio)[k] <= SIGNAL_MAX
  {
    ScaledSineValues();
  }

  /** Each table is the periodic mirrored extension of its half-cycle. */
  lemma TableIsMirroredHalfWave(ratio: int, k: nat)
    requires Supported(ratio) && k < |Sines(ratio)|
    ensures 2 * |HalfWave(ratio)| == ratio
    ensures Sines(ratio)[k] == MirroredAt(HalfWave(ratio), k)
  {
    ScaledSineValues();
    assert 2 * |HalfWave(ratio)| == ratio;
    if k < ratio {
      ModUnique(k, ratio, 0, k);
    } else {
      ModUnique(k, ratio, 1, k - ratio);
    }
  }

  /** Half a period on, the mirrored waveform is negated. */
  lemma MirroredHalfTurn(half: seq<int>, k: nat)
    requires |half| > 0
    ensures MirroredAt(half, k + |half|) == -MirroredAt(half, k)
  {
    var m := |half|;
    var p := k % (2 * m);
    var q := (k + m) % (2 * m);
    assert k == (k / (2 * m)) * (2 * m) + p;
    if p < m {
      assert k + m == (k / (2 * m)) * (2 * m) + (p + m);
      ModUnique(k + m, 2 * m, k / (2 * m), p + m);
    } else {
      assert k + m == (k / (2 * m) + 1) * (2 * m) + (p - m);
      ModUnique(k + m, 2 * m, k / (2 * m) + 1, p - m);
    }
  }

  /** A full period on, the mirrored waveform repeats. */
  lemma MirroredFullTurn(half: seq<int>, k: nat)
    requires |half| > 0
    ensures MirroredAt(half, k + 2 * |half|) == MirroredAt(half, k)
  {
    MirroredHalfTurn(half, k);
    MirroredHalfTurn(half, k + |half|);
  }

  /** Odd symmetry: `sines[R][k] == -sines[R][k + R/2]` wherever both exist. */
  lemma OddSymmetry(ratio: int, k: nat)
    requires Supported(ratio) && k + ratio / 2 < |Sines(ratio)|
    ensures Sines(ratio)[k] == -Sines(ratio)[k + ratio / 2]
  {
    var half := HalfWave(ratio);
    TableIsMirroredHalfWave(ratio, k);
    assert ratio / 2 == |half|;
    TableIsMirroredHalfWave(ratio, k + |half|);
    MirroredHalfTurn(half, k);
  }

  /** Periodic extension: the entries past one period repeat the first ones. */
  lemma PeriodicExtension(ratio: int, k: nat)
    requires Supported(ratio) && k + ratio < |Sines(ratio)|
    ensures Sines(ratio)[k + ratio] == Sines(ratio)[k]
  {
    var half := HalfWave(ratio);
    TableIsMirroredHalfWave(ratio, k);
    TableIsMirroredHalfWave(ratio, k + 2 * |half|);
    MirroredFullTurn(half, k);
  }

  /** The crest SIGNAL_MAX occurs exactly once per cycle, at index ratio / 4. */
  lemma SingleCrest(ratio: int, k: nat)
    requires Supported(ratio) && k < ratio
    ensures Sines(ratio)[k] == SIGNAL_MAX <==> k == ratio / 4
  {
    ScaledSineValues();
  }

  function Sum(s: seq<int>): int {
    if s == [] then 0 else Sum(s[..|s| - 1]) + s[|s| - 1]
  }

  function Negated(s: seq<int>): seq<int> {
    seq(|s|, k requires 0 <= k < |s| => -s[k])
  }

  lemma {:induction false} SumConcat(a: seq<int>, b: seq<int>)
    ensures Sum(a + b) == Sum(a) + Sum(b)
  {
    if b != [] {
      assert (a + b)[..|a + b| - 1] == a + b[..|b| - 1];
      SumConcat(a, b[..|b| - 1]);
    } else {
      assert a + b == a;
    }
  }

  lemma {:induction false} SumNegated(s: seq<int>)
    ensures Sum(Negated(s)) == -Sum(s)
  {
    if s != [] {
      assert Negated(s)[..|s| - 1] == Negated(s[..|s| - 1]);
      SumNegated(s[..|s| - 1]);
    }
  }

  /** A sequence whose second half negates its first half sums to zero. */
  lemma OddSymmetricSumZero(s: seq<int>, m: nat)
    requires |s| == 2 * m
    requires forall k :: 0 <= k < m ==> s[k + m] == -s[k]
    ensures Sum(s) == 0
  {
    assert s[m..] == Negated(s[..m]);
    assert s == s[..m] + s[m..];
    SumConcat(s[..m], s[m..]);
    SumNegated(s[..m]);
  }

  /** One full cycle of every table is DC-free: its samples sum to zero. */
  lemma CycleSumZero(ratio: int)
    requires Supported(ratio)
    ensures Sum(Sines(ratio)[..ratio]) == 0
  {
    var cycle := Sines(ratio)[..ratio];
    forall k | 0 <= k < ratio / 2
      ensures cycle[k + ratio / 2] == -cycle[k]
    {
      OddSymmetry(ratio, k);
    }
    OddSymmetricSumZero(cycle, ratio / 2);
  }
}
