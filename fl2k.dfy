/**
 * The part of the osmo-fl2k library the programs touch: the record a pull
 * callback fills in, and the device's sample-rate register.
 */
module Fl2k {
  import opened Machine

  datatype Option<T> = None | Some(value: T)

  /**
   * fl2k_data_info_t, restricted to the fields the callbacks use. The
   * pointer `r_buf` is the pair (rBuf, rOffset): it points at rBuf[rOffset].
   */
  class DataInfo {
    var deviceError: bool
    var sampletypeSigned: int
    var rBuf: array?<Int8>
    var rOffset: nat

    /** The record as the library hands it to the callback. */
    constructor (deviceError: bool)
      ensures this.deviceError == deviceError
      ensures sampletypeSigned == 0 && rBuf == null && rOffset == 0
    {
      this.deviceError := deviceError;
      sampletypeSigned := 0;
      rBuf := null;
      rOffset := 0;
    }
  }

  /**
   * The device's applied sample rate. How the hardware answers a request
   * (rounding to a reachable rate, or refusing it) is the function
   * `respond`, fixed per device: None is a refusal, which leaves the
   * previous rate in effect.
   */
  class Sink {
    var rate: U32
    ghost var requests: seq<U32>
    const respond: U32 -> Option<U32>

    constructor (initial: U32, respond: U32 -> Option<U32>)
      ensures rate == initial && requests == [] && this.respond == respond
    {
      rate := initial;
      requests := [];
      this.respond := respond;
    }

    /** fl2k_set_sample_rate: 0 on success, negative on failure. */
    method SetSampleRate(target: U32) returns (r: int)
      modifies this
      ensures requests == old(requests) + [target]
      ensures rate == Applied(respond, old(rate), target)
      ensures r < 0 <==> respond(target).None?
    {
      requests := requests + [target];
      match respond(target)
      case Some(applied) =>
        rate := applied;
        r := 0;
      case None =>
        r := -1;
    }

    /** fl2k_get_sample_rate. */
    method GetSampleRate() returns (r: U32)
      ensures r == rate
    {
      r := rate;
    }

  }

  /** The rate in effect after `target` is requested while `current` is. */
  function Applied(respond: U32 -> Option<U32>, current: U32, target: U32): U32
  {
    match respond(target)
    case Some(applied) => applied
    case None => current
  }
}
