/**
 * fl2k-psk.cpp: init_txbuffer tiles the table for SF_RATIO across the whole
 * transfer buffer (flipping the phase by 180 degrees every 40000 samples when
 * the ratio is 4), and the callback hands out that same buffer on every call.
 */
module TiledBuffer {
  import opened Machine
  import opened RatioTable
  import opened Fl2k

  /** Samples between two phase flips when the ratio is 4. */
  const FLIP_INTERVAL: nat := 40000

  /** The value `phase_shift` holds while sample `i` is written. */
  function PhaseShift(ratio: int, i: nat): (shift: nat)
    ensures shift in {0, 2}
    ensures shift != 0 ==> ratio == 4
  {
    if ratio == 4 && (i / FLIP_INTERVAL) % 2 == 0 then 2 else 0
  }

  /** Index safety of the tiling loop: the table index stays inside `sines[ratio]`. */
  lemma IndexSafety(ratio: int, i: nat)
    requires Supported(ratio)
    ensures i % ratio + PhaseShift(ratio, i) < |Sines(ratio)|
  {
  }

  /** Sample `i` of the buffer init_txbuffer builds: the table entry for `i`'s phase, or its negation. */
  function TiledSample(ratio: int, i: nat): (sample: Int8)
    requires Supported(ratio)
    ensures SIGNAL_MIN <= sample <= SIGNAL_MAX
    ensures sample == Sines(ratio)[i % ratio] || sample == -Sines(ratio)[i % ratio]
  {
    var j, shift := i % ratio, PhaseShift(ratio, i);
    IndexSafety(ratio, i);
    TableBounds(ratio, j + shift);
    assert shift == 2 ==> Sines(ratio)[j + shift] == -Sines(ratio)[j] by {
      if shift == 2 {
        OddSymmetry(4, j);
      }
    }
    Sines(ratio)[j + shift]
  }

  /** How the toggle condition `!(i % 40000)` relates consecutive block numbers. */
  lemma BlockStep(i: nat)
    requires i > 0
    ensures i % FLIP_INTERVAL == 0 ==> i / FLIP_INTERVAL == (i - 1) / FLIP_INTERVAL + 1
    ensures i % FLIP_INTERVAL != 0 ==> i / FLIP_INTERVAL == (i - 1) / FLIP_INTERVAL
  {
    var q, r := (i - 1) / FLIP_INTERVAL, (i - 1) % FLIP_INTERVAL;
    if r + 1 == FLIP_INTERVAL {
      ModUnique(i, FLIP_INTERVAL, q + 1, 0);
    } else {
      ModUnique(i, FLIP_INTERVAL, q, r + 1);
    }
  }

  /** init_txbuffer: fill FL2K_BUF_LEN samples by cycling through `sines[ratio]`. */
  method InitTxBuffer(bufLen: nat, ratio: int) returns (txBuffer: array<Int8>)
    requires Supported(ratio)
    ensures fresh(txBuffer) && txBuffer.Length == bufLen
    ensures forall i :: 0 <= i < bufLen ==> txBuffer[i] == TiledSample(ratio, i)
  {
    txBuffer := new Int8[bufLen];
    var sine := Sines(ratio);
    var phaseShift: nat := 0;
    for i := 0 to bufLen
      invariant i == 0 ==> phaseShift == 0
      invariant i > 0 ==> phaseShift == PhaseShift(ratio, i - 1)
      invariant forall j :: 0 <= j < i ==> txBuffer[j] == TiledSample(ratio, j)
    {
      if i > 0 {
        BlockStep(i);
      }
      if ratio == 4 && i % FLIP_INTERVAL == 0 {
        phaseShift := if phaseShift == 0 then 2 else 0;
      }
      assert phaseShift == PhaseShift(ratio, i);
      IndexSafety(ratio, i);
      txBuffer[i] := sine[i % ratio + phaseShift];
    }
  }

  /**
   * fl2k_callback: mark the samples signed and point the library at the
   * start of the buffer, whether or not the previous transfer failed.
   * `warning` stands for the printed device-error message.
   */
  method Supply(info: DataInfo, txBuffer: array<Int8>) returns (warning: bool)
    modifies info
    ensures warning == info.deviceError && info.deviceError == old(info.deviceError)
    ensures info.sampletypeSigned == 1
    ensures info.rBuf == txBuffer && info.rOffset == 0
    ensures txBuffer[..] == old(txBuffer[..])
  {
    warning := info.deviceError;
    info.sampletypeSigned := 1;
    info.rBuf := txBuffer;
    info.rOffset := 0;
  }

  /** For ratios other than 4 the buffer is the table cycled with period `ratio`. */
  lemma PlainTiling(ratio: int, i: nat)
    requires Supported(ratio) && ratio != 4
    ensures TiledSample(ratio, i) == Sines(ratio)[i % ratio]
    ensures TiledSample(ratio, i + ratio) == TiledSample(ratio, i)
  {
    ModUnique(i + ratio, ratio, i / ratio + 1, i % ratio);
  }

  /** ... and no shorter shift maps the buffer onto itself: the period is exactly `ratio`. */
  lemma ExactPeriod(ratio: int, p: nat)
    requires Supported(ratio) && ratio != 4 && 0 < p < ratio
    ensures TiledSample(ratio, ratio / 4 + p) != TiledSample(ratio, ratio / 4)
  {
    var crest := ratio / 4;
    PlainTiling(ratio, crest);
    PlainTiling(ratio, crest + p);
    ModUnique(crest, ratio, 0, crest);
    var k := (crest + p) % ratio;
    if crest + p < ratio {
      ModUnique(crest + p, ratio, 0, crest + p);
    } else {
      ModUnique(crest + p, ratio, 1, crest + p - ratio);
    }
    SingleCrest(ratio, crest);
    SingleCrest(ratio, k);
  }

  /**
   * Ratio 4: inside block `b` of 40000 samples the cycle is negated when
   * `b` is even (phase_shift is already 2 at sample 0) and plain when it is odd.
   */
  lemma PskBlock(b: nat, k: nat)
    requires k < FLIP_INTERVAL
    ensures TiledSample(4, FLIP_INTERVAL * b + k) ==
            if b % 2 == 0 then -Sines(4)[k % 4] else Sines(4)[k % 4]
  {
    var i := FLIP_INTERVAL * b + k;
    ModUnique(i, FLIP_INTERVAL, b, k);
    ModUnique(i, 4, 10000 * b + k / 4, k % 4);
    OddSymmetry(4, k % 4);
  }

  /** Ratio 4: successive blocks are phase-flipped copies of each other (the PSK). */
  lemma PskFlip(b: nat, k: nat)
    requires k < FLIP_INTERVAL
    ensures TiledSample(4, FLIP_INTERVAL * (b + 1) + k) == -TiledSample(4, FLIP_INTERVAL * b + k)
  {
    PskBlock(b, k);
    PskBlock(b + 1, k);
  }

  /** Ratio 4: the buffer begins with the inverted cycle 0, -99, 0, 99. */
  lemma PskStart()
    ensures [TiledSample(4, 0), TiledSample(4, 1), TiledSample(4, 2), TiledSample(4, 3)] == [0, -99, 0, 99]
  {
  }

  /** The samples the sink plays after `calls` callbacks: the buffer, once per call. */
  function Played(buffer: seq<Int8>, calls: nat): (s: seq<Int8>)
    ensures |s| == calls * |buffer|
  {
    if calls == 0 then [] else Played(buffer, calls - 1) + buffer
  }

  lemma {:induction false} PlayedAt(buffer: seq<Int8>, calls: nat, j: nat)
    requires j < calls * |buffer|
    ensures Played(buffer, calls)[j] == buffer[j % |buffer|]
  {
    var before := (calls - 1) * |buffer|;
    if j < before {
      PlayedAt(buffer, calls - 1, j);
    } else {
      ModUnique(j, |buffer|, calls - 1, j - before);
    }
  }

  /**
   * For ratios other than 4, when the buffer length is a whole number of
   * cycles, the stream of successive callbacks is the table cycled without
   * a phase jump at any seam.
   */
  lemma SeamlessStream(ratio: int, buffer: seq<Int8>, calls: nat, j: nat)
    requires Supported(ratio) && ratio != 4
    requires |buffer| % ratio == 0
    requires forall i :: 0 <= i < |buffer| ==> buffer[i] == TiledSample(ratio, i)
    requires j < calls * |buffer|
    ensures Played(buffer, calls)[j] == Sines(ratio)[j % ratio]
  {
    PlayedAt(buffer, calls, j);
    PlainTiling(ratio, j % |buffer|);
    ModOfMultipleMod(j, ratio, |buffer|);
  }
}
