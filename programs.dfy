/**
 * The two main() functions: build the buffer, open the device, tune the
 * 28 MHz carrier, then run the command loop.
 */
module Programs {
  import opened Machine
  import opened RatioTable
  import opened Fl2k
  import opened Carrier
  import TiledBuffer
  import HalfBuffer

  /** SIGNAL_FREQ of fl2k-psk.cpp, and the literal of fl2k-psk.c. */
  const SIGNAL_FREQ: U32 := 28000000

  /**
   * main of fl2k-psk.cpp. `deviceOpened` is whether fl2k_open produced a device;
   * when it did not, nothing is tuned and no command is read.
   */
  method RunPsk(bufLen: nat, ratio: int, deviceOpened: bool, sink: Sink, input: seq<char>)
    returns (txBuffer: array<Int8>, status: int)
    requires Supported(ratio)
    modifies sink
    ensures fresh(txBuffer) && txBuffer.Length == bufLen
    ensures forall i :: 0 <= i < bufLen ==> txBuffer[i] == TiledBuffer.TiledSample(ratio, i)
    ensures status == 0
    ensures !deviceOpened ==> sink.rate == old(sink.rate) && sink.requests == old(sink.requests)
    ensures deviceOpened ==>
      var tuned := Applied(sink.respond, old(sink.rate), SubmittedRate(SIGNAL_FREQ, ratio));
      var session := Session(sink.respond, ratio, tuned, input);
      sink.rate == session.rate &&
      sink.requests == old(sink.requests) + [SubmittedRate(SIGNAL_FREQ, ratio)] + session.requests
  {
    txBuffer := TiledBuffer.InitTxBuffer(bufLen, ratio);
    status := 0;
    if deviceOpened {
      var _, _, _ := SetFreqCarrier(sink, SIGNAL_FREQ, ratio);
      var _ := CommandLoop(sink, ratio, input);
    }
  }

  /**
   * main of fl2k-psk.c, on the path where fl2k_open produced a device.
   * `half` stands for the rounded half sine wave init_txbuffer computes.
   */
  method RunHalfWave(supplier: HalfBuffer.HalfBufferSupplier, half: seq<HalfBuffer.HalfSample>,
                     sink: Sink, input: seq<char>)
    returns (status: int)
    requires supplier.Valid() && supplier.txBuffer == null && |half| == supplier.bufLen
    modifies supplier, sink
    ensures supplier.Valid() && supplier.txBuffer != null && fresh(supplier.txBuffer)
    ensures supplier.txBuffer[..] == HalfBuffer.Mirrored(half)
    ensures supplier.phaseCurr == old(supplier.phaseCurr) && supplier.calls == old(supplier.calls)
    ensures supplier.half == half
    ensures status == 0
    ensures
      var tuned := Applied(sink.respond, old(sink.rate), SubmittedRate(SIGNAL_FREQ, 2));
      var session := Session(sink.respond, 2, tuned, input);
      sink.rate == session.rate &&
      sink.requests == old(sink.requests) + [SubmittedRate(SIGNAL_FREQ, 2)] + session.requests
  {
    supplier.InitTxBuffer(half);
    status := 0;
    var _, _, _ := SetFreqCarrier(sink, SIGNAL_FREQ, 2);
    var _ := CommandLoop(sink, 2, input);
  }
}
