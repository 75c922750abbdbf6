/**
 * set_freq_carrier and the u/d/q command loop of main, shared by both
 * programs: fl2k-psk.cpp uses ratio SF_RATIO, fl2k-psk.c ratio 2.
 */
module Carrier {
  import opened Machine
  import opened Fl2k

  /** The carrier step of one `u` or `d` command, in Hz. */
  const STEP: nat := 1000000

  /** The sample rate submitted for a carrier: `freq * ratio` in uint32_t arithmetic. */
  function SubmittedRate(freq: U32, ratio: nat): (rate: U32)
    ensures (freq * ratio - rate) % TWO32 == 0
    ensures freq * ratio < TWO32 ==> rate == freq * ratio
  {
    ToU32(freq * ratio)
  }

  /** The carrier reported for an applied rate: `samplerate / ratio`, rounded down. */
  function EffectiveCarrier(applied: U32, ratio: nat): (carrier: U32)
    requires ratio > 0
    ensures carrier * ratio <= applied < (carrier + 1) * ratio
  {
    Truncate(applied, ratio)
  }

  datatype Command = Raise | Lower | Quit | Other

  function Decode(c: char): Command {
    if c == 'u' then Raise else if c == 'd' then Lower else if c == 'q' then Quit else Other
  }

  /**
   * The carrier `u` (up) or `d` (down) asks for: the read-back rate over
   * the ratio, plus or minus STEP, wrapping around in uint32_t.
   */
  function SteppedCarrier(up: bool, applied: U32, ratio: nat): (freq: U32)
    requires ratio > 0
    ensures up && applied / ratio + STEP < TWO32 ==> freq == applied / ratio + STEP
    ensures up && applied / ratio + STEP >= TWO32 ==> freq == applied / ratio + STEP - TWO32
    ensures !up && applied / ratio >= STEP ==> freq == applied / ratio - STEP
    ensures !up && applied / ratio < STEP ==> freq == applied / ratio - STEP + TWO32
  {
    var carrier := EffectiveCarrier(applied, ratio);
    if up then ToU32(carrier + STEP) else ToU32(carrier - STEP)
  }

  /**
   * set_freq_carrier: submit `freq * ratio`, warn if the sink refuses it,
   * and read back the applied rate; `applied` and `carrier` are the two
   * values printed.
   */
  method SetFreqCarrier(sink: Sink, freq: U32, ratio: nat) returns (applied: U32, carrier: U32, warning: bool)
    requires ratio > 0
    modifies sink
    ensures sink.requests == old(sink.requests) + [SubmittedRate(freq, ratio)]
    ensures sink.rate == Applied(sink.respond, old(sink.rate), SubmittedRate(freq, ratio))
    ensures warning <==> sink.respond(SubmittedRate(freq, ratio)).None?
    ensures applied == sink.rate && carrier == EffectiveCarrier(applied, ratio)
  {
    var samplerate := ToU32(freq * ratio);
    var r := sink.SetSampleRate(samplerate);
    warning := r < 0;
    applied := sink.GetSampleRate();
    carrier := applied / ratio;
  }

  /** What the command loop leaves behind: the applied rate, the rates submitted, and whether `q` ended it. */
  datatype Outcome = Outcome(rate: U32, requests: seq<U32>, quit: bool)

  /** The input after a command character and the one character `cin.ignore()` skips. */
  function AfterCommand(input: seq<char>): (rest: seq<char>)
    requires input != []
  {
    if |input| >= 2 then input[2..] else []
  }

  /** The rates one command character submits while `rate` is applied: one for `u` and `d`, none otherwise. */
  function StepRequests(ratio: nat, rate: U32, c: char): seq<U32>
    requires ratio > 0
  {
    match Decode(c)
    case Raise => [SubmittedRate(SteppedCarrier(true, rate, ratio), ratio)]
    case Lower => [SubmittedRate(SteppedCarrier(false, rate, ratio), ratio)]
    case _ => []
  }

  /** The rate in effect after one command character. */
  function StepRate(respond: U32 -> Option<U32>, ratio: nat, rate: U32, c: char): U32
    requires ratio > 0
  {
    var submitted := StepRequests(ratio, rate, c);
    if submitted == [] then rate else Applied(respond, rate, submitted[0])
  }

  /** The command loop run on `input` while `rate` is applied. */
  function Session(respond: U32 -> Option<U32>, ratio: nat, rate: U32, input: seq<char>): (out: Outcome)
    requires ratio > 0
    ensures out.requests == [] ==> out.rate == rate
    ensures input != [] && input[0] == 'q' ==> out == Outcome(rate, [], true)
    decreases |input|
  {
    if input == [] then Outcome(rate, [], false)
    else if Decode(input[0]) == Quit then Outcome(rate, [], true)
    else
      var o := Session(respond, ratio, StepRate(respond, ratio, rate, input[0]), AfterCommand(input));
      Outcome(o.rate, StepRequests(ratio, rate, input[0]) + o.requests, o.quit)
  }

  /** Concatenation regrouped, so the loop proofs need not rediscover it. */
  lemma Regroup(a: seq<U32>, b: seq<U32>, c: seq<U32>)
    ensures a + (b + c) == (a + b) + c
  {
  }

  /** One command other than `q`: its requests come first, then the loop over the rest at the rate it leaves. */
  lemma SessionStep(respond: U32 -> Option<U32>, ratio: nat, rate: U32, input: seq<char>)
    requires ratio > 0 && input != [] && Decode(input[0]) != Quit
    ensures var next := Session(respond, ratio, StepRate(respond, ratio, rate, input[0]), AfterCommand(input));
            Session(respond, ratio, rate, input) == Outcome(next.rate, StepRequests(ratio, rate, input[0]) + next.requests, next.quit)
  {
  }

  /** The `while (cin.get(c))` loop of main; `quit` is the exit(0) of `q`. */
  method CommandLoop(sink: Sink, ratio: nat, input: seq<char>) returns (quit: bool)
    requires ratio > 0
    modifies sink
    ensures sink.rate == Session(sink.respond, ratio, old(sink.rate), input).rate
    ensures sink.requests == old(sink.requests) + Session(sink.respond, ratio, old(sink.rate), input).requests
    ensures quit == Session(sink.respond, ratio, old(sink.rate), input).quit
  {
    ghost var total := Session(sink.respond, ratio, sink.rate, input);
    var rest := input;
    while rest != []
      invariant Session(sink.respond, ratio, sink.rate, rest).rate == total.rate
      invariant Session(sink.respond, ratio, sink.rate, rest).quit == total.quit
      invariant sink.requests + Session(sink.respond, ratio, sink.rate, rest).requests
                == old(sink.requests) + total.requests
      decreases |rest|
    {
      var c := rest[0];
      ghost var next := Session(sink.respond, ratio, StepRate(sink.respond, ratio, sink.rate, c), AfterCommand(rest));
      ghost var stepped := StepRequests(ratio, sink.rate, c);
      if Decode(c) != Quit {
        SessionStep(sink.respond, ratio, sink.rate, rest);
      }
      ghost var before, rate0 := sink.requests, sink.rate;
      match Decode(c) {
        case Quit =>
          return true;
        case Other =>
        case Raise =>
          var rate := sink.GetSampleRate();
          var _, _, _ := SetFreqCarrier(sink, SteppedCarrier(true, rate, ratio), ratio);
        case Lower =>
          var rate := sink.GetSampleRate();
          var _, _, _ := SetFreqCarrier(sink, SteppedCarrier(false, rate, ratio), ratio);
      }
      assert sink.requests == before + stepped && sink.rate == StepRate(sink.respond, ratio, rate0, c);
      Regroup(before, stepped, next.requests);
      rest := AfterCommand(rest);
    }
    quit := false;
  }

  /** 28 MHz at ratio 4 submits 112 MS/s; a read-back of 111998976 reports 27999744 Hz. */
  lemma StartupScenario()
    ensures SubmittedRate(28000000, 4) == 112000000
    ensures EffectiveCarrier(111998976, 4) == 27999744
    ensures SubmittedRate(28000000, 2) == 56000000
  {
  }

  /** Retuning to the same carrier twice leaves the rate where the first retune put it. */
  lemma RetuneIdempotent(respond: U32 -> Option<U32>, rate: U32, freq: U32, ratio: nat)
    ensures var once := Applied(respond, rate, SubmittedRate(freq, ratio));
            Applied(respond, once, SubmittedRate(freq, ratio)) == once
  {
  }

  /** Characters other than u, d and q change neither the rate nor what is submitted. */
  lemma OtherIgnored(respond: U32 -> Option<U32>, ratio: nat, rate: U32, c: char, skipped: char, rest: seq<char>)
    requires ratio > 0 && c !in {'u', 'd', 'q'}
    ensures Session(respond, ratio, rate, [c, skipped] + rest) == Session(respond, ratio, rate, rest)
  {
    assert AfterCommand([c, skipped] + rest) == rest;
  }

  /** Only the characters at even positions are commands: the one after each is skipped by `cin.ignore()`. */
  lemma {:induction false} OnlyEvenPositionsCount(respond: U32 -> Option<U32>, ratio: nat, rate: U32,
                                                  a: seq<char>, b: seq<char>)
    requires ratio > 0 && |a| == |b|
    requires forall k :: 0 <= k < |a| && k % 2 == 0 ==> a[k] == b[k]
    ensures Session(respond, ratio, rate, a) == Session(respond, ratio, rate, b)
    decreases |a|
  {
    if a != [] {
      var a', b' := AfterCommand(a), AfterCommand(b);
      forall k | 0 <= k < |a'| && k % 2 == 0
        ensures a'[k] == b'[k]
      {
        assert a'[k] == a[k + 2] && b'[k] == b[k + 2];
      }
      assert a[0] == b[0];
      OnlyEvenPositionsCount(respond, ratio, StepRate(respond, ratio, rate, a[0]), a', b');
    }
  }

  /** Dropping the first command of a quit-free, even-length prefix keeps both properties and commutes with appending. */
  lemma NoQuitAfterCommand(p: seq<char>, s: seq<char>)
    requires p != [] && |p| % 2 == 0
    requires forall k :: 0 <= k < |p| && k % 2 == 0 ==> p[k] != 'q'
    ensures p[0] != 'q' && (p + s)[0] == p[0] && |AfterCommand(p)| % 2 == 0
    ensures AfterCommand(p + s) == AfterCommand(p) + s
    ensures forall k :: 0 <= k < |AfterCommand(p)| && k % 2 == 0 ==> AfterCommand(p)[k] != 'q'
  {
    var p' := AfterCommand(p);
    assert |p| >= 2 && |p'| == |p| - 2;
    forall k | 0 <= k < |p'| && k % 2 == 0
      ensures p'[k] != 'q'
    {
      assert p'[k] == p[k + 2];
    }
  }

  /** Commands without a quit carry no state besides the rate: the loop over `p + s` is the loop over `p`, then over `s`. */
  lemma {:induction false} SessionConcat(respond: U32 -> Option<U32>, ratio: nat, rate: U32, p: seq<char>, s: seq<char>)
    requires ratio > 0 && |p| % 2 == 0
    requires forall k :: 0 <= k < |p| && k % 2 == 0 ==> p[k] != 'q'
    ensures var first := Session(respond, ratio, rate, p);
            var second := Session(respond, ratio, first.rate, s);
            !first.quit &&
            Session(respond, ratio, rate, p + s) == Outcome(second.rate, first.requests + second.requests, second.quit)
    decreases |p|
  {
    if p != [] {
      var p' := AfterCommand(p);
      NoQuitAfterCommand(p, s);
      var next := StepRate(respond, ratio, rate, p[0]);
      var stepped := StepRequests(ratio, rate, p[0]);
      var first', whole' := Session(respond, ratio, next, p'), Session(respond, ratio, next, p' + s);
      SessionStep(respond, ratio, rate, p);
      SessionStep(respond, ratio, rate, p + s);
      SessionConcat(respond, ratio, next, p', s);
      var second := Session(respond, ratio, first'.rate, s);
      Regroup(stepped, first'.requests, second.requests);
    } else {
      assert p + s == s;
    }
  }

  /** A sink that applies every rate exactly as submitted. */
  function ExactSink(target: U32): Option<U32> {
    Some(target)
  }

  /** On an exact sink, "u" then "d" returns the carrier to where it was. */
  lemma UpDownRestoresCarrier(ratio: nat, rate: U32)
    requires ratio > 0 && (rate / ratio + STEP) * ratio < TWO32
    ensures var up := Session(ExactSink, ratio, rate, "u\n");
            EffectiveCarrier(up.rate, ratio) == rate / ratio + STEP &&
            EffectiveCarrier(Session(ExactSink, ratio, up.rate, "d\n").rate, ratio) == rate / ratio
  {
    var c := rate / ratio;
    var raised := (c + STEP) * ratio;
    assert c * ratio <= rate by { assert c == EffectiveCarrier(rate, ratio); }
    assert SteppedCarrier(true, rate, ratio) == c + STEP;
    assert SubmittedRate(c + STEP, ratio) == raised;
    assert Session(ExactSink, ratio, rate, "u\n").rate == raised;
    ModUnique(raised, ratio, c + STEP, 0);
    var lowered := c * ratio;
    assert lowered <= raised by { assert raised - lowered == STEP * ratio; }
    assert SteppedCarrier(false, raised, ratio) == c;
    assert Session(ExactSink, ratio, raised, "d\n").rate == lowered;
    ModUnique(lowered, ratio, c, 0);
  }
}
