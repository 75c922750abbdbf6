/**
 * fl2k-psk.c: the buffer holds a positive half-wave h, its negation and h
 * again; the callback toggles the global phase between 180 and 0 degrees and
 * hands out the block at offset FL2K_BUF_LEN or 0 accordingly.
 */
module HalfBuffer {
  import opened Machine
  import opened Fl2k

  /** What `sin(i / N * pi) * 127 + .5` stores into an int8_t for 0 <= i < N. */
  type HalfSample = x: int | 0 <= x <= 127

  /** The three-block layout [h, -h, h] that init_txbuffer writes. */
  function Mirrored(half: seq<HalfSample>): (m: seq<Int8>)
    ensures |m| == 3 * |half|
  {
    half + seq(|half|, k requires 0 <= k < |half| => -(half[k] as int)) + half
  }

  lemma ThreeBlockLayout(half: seq<HalfSample>, i: nat)
    requires i < |half|
    ensures Mirrored(half)[i] == half[i]
    ensures Mirrored(half)[i + |half|] == -Mirrored(half)[i]
    ensures Mirrored(half)[i + 2 * |half|] == Mirrored(half)[i]
  {
  }

  /** One callback's update of `phase_curr`. */
  function NextPhase(phase: int): (next: int)
    ensures phase in {0, 180} ==> next in {0, 180} && next != phase
  {
    (phase + 180) % 360
  }

  /** `phase_curr` after `calls` callbacks; it starts at 0. */
  function PhaseAfter(calls: nat): int {
    if calls == 0 then 0 else NextPhase(PhaseAfter(calls - 1))
  }

  /** The phase alternates 180, 0, 180, ... and never leaves {0, 180}. */
  lemma {:induction false} PhaseAlternates(calls: nat)
    ensures PhaseAfter(calls) == if calls % 2 == 1 then 180 else 0
  {
    if calls > 0 {
      PhaseAlternates(calls - 1);
    }
  }

  /** `idx_txbuf`: the offset of the block handed out at a given phase. */
  function Offset(phase: int, bufLen: nat): (offset: int)
    ensures phase == 0 ==> offset == 0
    ensures phase == 180 ==> offset == bufLen
  {
    (phase / 180) * bufLen
  }

  /** The offset is 0 or N, so the N samples read from it lie in the first 2N of the 3N allocated. */
  lemma OffsetInBounds(calls: nat, bufLen: nat)
    ensures Offset(PhaseAfter(calls), bufLen) in {0, bufLen}
    ensures 0 <= Offset(PhaseAfter(calls), bufLen) && Offset(PhaseAfter(calls), bufLen) + bufLen <= 2 * bufLen
  {
    PhaseAlternates(calls);
  }

  /** The N samples the sink reads from `r_buf` after call number `calls` (from 1). */
  function Window(half: seq<HalfSample>, calls: nat): (w: seq<Int8>)
    ensures |w| == |half|
  {
    OffsetInBounds(calls, |half|);
    var off := Offset(PhaseAfter(calls), |half|);
    Mirrored(half)[off..off + |half|]
  }

  /** Odd-numbered calls hand out -h, even-numbered calls h; the third block is never read. */
  lemma WindowAt(half: seq<HalfSample>, calls: nat, i: nat)
    requires i < |half|
    ensures Window(half, calls)[i] == if calls % 2 == 1 then -(half[i] as int) else half[i]
  {
    PhaseAlternates(calls);
  }

  /** Each window is the elementwise negation of the one before it. */
  lemma WindowsAlternate(half: seq<HalfSample>, calls: nat, i: nat)
    requires calls >= 1 && i < |half|
    ensures Window(half, calls + 1)[i] == -Window(half, calls)[i]
  {
    WindowAt(half, calls, i);
    WindowAt(half, calls + 1, i);
  }

  /** The samples the sink plays after `calls` callbacks, window after window. */
  function Played(half: seq<HalfSample>, calls: nat): (s: seq<Int8>)
    ensures |s| == calls * |half|
  {
    if calls == 0 then [] else Played(half, calls - 1) + Window(half, calls)
  }

  /** The stream is -h, h, -h, ...: each seam joins a half-wave to its mirror image. */
  lemma {:induction false} PlayedAt(half: seq<HalfSample>, calls: nat, j: nat)
    requires j < calls * |half|
    ensures Played(half, calls)[j] == if (j / |half|) % 2 == 0 then -(half[j % |half|] as int) else half[j % |half|]
  {
    var before := (calls - 1) * |half|;
    if j < before {
      assert Played(half, calls)[j] == Played(half, calls - 1)[j];
      PlayedAt(half, calls - 1, j);
    } else {
      assert Played(half, calls)[j] == Window(half, calls)[j - before];
      ModUnique(j, |half|, calls - 1, j - before);
      WindowAt(half, calls, j - before);
      ParityOfPredecessor(calls);
    }
  }

  /** The globals `tx_buffer` and `phase_curr` of fl2k-psk.c. */
  class HalfBufferSupplier {
    const bufLen: nat
    var txBuffer: array?<Int8>
    var phaseCurr: int
    ghost var half: seq<HalfSample>
    ghost var calls: nat

    ghost predicate Valid()
      reads this, txBuffer
    {
      && phaseCurr == PhaseAfter(calls)
      && (txBuffer != null ==> |half| == bufLen && txBuffer[..] == Mirrored(half))
    }

    /** Program start: no buffer yet, phase 0. */
    constructor (bufLen: nat)
      ensures Valid() && this.bufLen == bufLen
      ensures txBuffer == null && phaseCurr == 0 && calls == 0
    {
      this.bufLen := bufLen;
      txBuffer := null;
      phaseCurr := 0;
      half := [];
      calls := 0;
    }

    /** init_txbuffer: allocate 3N samples and write [h, -h, h]. */
    method InitTxBuffer(h: seq<HalfSample>)
      requires Valid() && |h| == bufLen
      modifies this
      ensures Valid() && fresh(txBuffer)
      ensures txBuffer[..] == Mirrored(h) && half == h
      ensures phaseCurr == old(phaseCurr) && calls == old(calls)
    {
      var buf := new Int8[3 * bufLen];
      for i := 0 to bufLen
        modifies buf
        invariant forall j :: 0 <= j < i ==> buf[j] == h[j]
        invariant forall j :: 0 <= j < i ==> buf[j + bufLen] == -(h[j] as int)
        invariant forall j :: 0 <= j < i ==> buf[j + 2 * bufLen] == h[j]
      {
        buf[i] := h[i];
        buf[i + bufLen] := -buf[i];
        buf[i + 2 * bufLen] := buf[i];
      }
      assert buf[..] == Mirrored(h) by {
        forall k | 0 <= k < 3 * bufLen
          ensures buf[k] == Mirrored(h)[k]
        {
          if k >= 2 * bufLen {
            assert buf[(k - 2 * bufLen) + 2 * bufLen] == h[k - 2 * bufLen];
          } else if k >= bufLen {
            assert buf[(k - bufLen) + bufLen] == -(h[k - bufLen] as int);
          }
        }
      }
      txBuffer := buf;
      half := h;
    }

    /**
     * fl2k_callback: advance the phase by 180 degrees and point the library
     * at the block for the new phase. A device error only produces the
     * warning; it changes neither the phase nor the offset.
     */
    method Callback(info: DataInfo) returns (warning: bool)
      requires Valid() && txBuffer != null
      modifies this, info
      ensures Valid() && calls == old(calls) + 1
      ensures txBuffer == old(txBuffer) && half == old(half) && txBuffer[..] == old(txBuffer[..])
      ensures phaseCurr == NextPhase(old(phaseCurr)) && phaseCurr in {0, 180}
      ensures warning == info.deviceError && info.deviceError == old(info.deviceError)
      ensures info.sampletypeSigned == 1 && info.rBuf == txBuffer
      ensures info.rOffset == Offset(phaseCurr, bufLen) && info.rOffset in {0, bufLen}
      ensures info.rOffset + bufLen <= txBuffer.Length
      ensures txBuffer[info.rOffset..info.rOffset + bufLen] == Window(half, calls)
    {
      warning := info.deviceError;
      phaseCurr := (phaseCurr + 180) % 360;
      calls := calls + 1;
      OffsetInBounds(calls, bufLen);
      PhaseAlternates(calls);
      var idx := (phaseCurr / 180) * bufLen;
      info.sampletypeSigned := 1;
      info.rBuf := txBuffer;
      info.rOffset := idx;
    }
  }
}
