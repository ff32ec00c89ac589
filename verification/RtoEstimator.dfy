/** TcpRtoEstimator (include/usn/protocol/tcp_retransmission.hpp): smoothed RTT, its variation and
    the clamped retransmission timeout, in the source's 64-bit arithmetic. */
module RtoEstimation {
  import opened Words

  const MIN_RTO: nat := 50
  const MAX_RTO: nat := 5000

  datatype Rto = Rto(initialized: bool, srtt: nat, rttvar: nat, rto: nat)

  const INITIAL := Rto(false, 200, 100, 300)

  function Clamp(candidate: nat): nat {
    if candidate < MIN_RTO then MIN_RTO else if candidate > MAX_RTO then MAX_RTO else candidate
  }

  function Distance(a: nat, b: nat): nat {
    if a > b then a - b else b - a
  }

  /** The estimator over the mathematical integers: section 2 of RFC 6298 with floors. */
  function SampleExact(e: Rto, rtt: nat): Rto {
    var r := if rtt == 0 then 1 else rtt;
    var srtt := if e.initialized then (7 * e.srtt + r) / 8 else r;
    var rttvar := if e.initialized then (3 * e.rttvar + Distance(e.srtt, r)) / 4 else r / 2;
    Rto(true, srtt, rttvar, Clamp(Candidate(srtt, rttvar)))
  }

  function Candidate(srtt: nat, rttvar: nat): nat {
    srtt + Max(1, 4 * rttvar)
  }

  /** `sample_rtt` as compiled: every product and sum is taken modulo 2^64. */
  function Sample(e: Rto, rtt: nat): Rto {
    var r := if rtt == 0 then 1 else rtt;
    var srtt := if e.initialized then Add64(7 * e.srtt % 0x1_0000_0000_0000_0000, r) / 8 else r;
    var rttvar := if e.initialized then Add64(3 * e.rttvar % 0x1_0000_0000_0000_0000, Distance(e.srtt, r)) / 4 else r / 2;
    Rto(true, srtt, rttvar, Clamp(Add64(srtt, Max(1, 4 * rttvar % 0x1_0000_0000_0000_0000))))
  }

  function Samples(e: Rto, rtts: seq<nat>): Rto {
    if rtts == [] then e else Sample(Samples(e, rtts[..|rtts| - 1]), rtts[|rtts| - 1])
  }

  function SamplesExact(e: Rto, rtts: seq<nat>): Rto {
    if rtts == [] then e else SampleExact(SamplesExact(e, rtts[..|rtts| - 1]), rtts[|rtts| - 1])
  }

  ghost predicate Bounded(e: Rto, m: nat) {
    e.initialized ==> e.srtt <= m && e.rttvar <= m
  }

  /** Whatever the samples, the timeout handed to the retransmission queue stays in [50, 5000]. */
  lemma {:induction false} RtoAlwaysClamped(rtts: seq<nat>)
    ensures MIN_RTO <= Samples(INITIAL, rtts).rto <= MAX_RTO
  {
    if rtts != [] {
      var e := Sample(Samples(INITIAL, rtts[..|rtts| - 1]), rtts[|rtts| - 1]);
      assert e == Samples(INITIAL, rtts);
    }
  }

  lemma SampleWithinBound(e: Rto, rtt: nat, m: nat)
    requires Bounded(e, m) && 1 <= m < 0x1000_0000_0000_0000 && rtt <= m
    ensures Sample(e, rtt) == SampleExact(e, rtt)
    ensures Bounded(Sample(e, rtt), m)
  {
    var r := if rtt == 0 then 1 else rtt;
    var x := SampleExact(e, rtt);
    if e.initialized {
      AverageFits(7, e.srtt, r, 8, m);
      AverageFits(3, e.rttvar, Distance(e.srtt, r), 4, m);
    }
    Fits64(4 * x.rttvar);
    Fits64(x.srtt + Max(1, 4 * x.rttvar));
  }

  /** A weighted average of two numbers up to `m`: no wrap, and again at most `m`. */
  lemma AverageFits(weight: nat, average: nat, sample: nat, total: nat, m: nat)
    requires (weight == 7 && total == 8) || (weight == 3 && total == 4)
    requires average <= m && sample <= m < 0x1000_0000_0000_0000
    ensures Add64(weight * average % 0x1_0000_0000_0000_0000, sample) == weight * average + sample
    ensures (weight * average + sample) / total <= m
  {
    Fits64(weight * average);
    Fits64(weight * average + sample);
  }

  /** Samples of at most `m` ms keep both averages at most `m`, so for `m` below 2^60 no 64-bit
      operation of any run wraps: the compiled estimator is the mathematical one. */
  lemma {:induction false} NoOverflow(e: Rto, rtts: seq<nat>, m: nat)
    requires Bounded(e, m) && 1 <= m < 0x1000_0000_0000_0000
    requires forall i :: 0 <= i < |rtts| ==> rtts[i] <= m
    ensures Samples(e, rtts) == SamplesExact(e, rtts)
    ensures Bounded(Samples(e, rtts), m)
  {
    if rtts != [] {
      NoOverflow(e, rtts[..|rtts| - 1], m);
      SampleWithinBound(Samples(e, rtts[..|rtts| - 1]), rtts[|rtts| - 1], m);
    }
  }

  /** The state after `n` samples of the same round-trip time. */
  function Repeat(e: Rto, r: nat, n: nat): Rto
    decreases n
  {
    if n == 0 then e else Repeat(Sample(e, r), r, n - 1)
  }

  ghost predicate Settled(e: Rto, r: nat) {
    e.initialized && r - 7 <= e.srtt <= r && e.rttvar <= r - e.srtt
  }

  /** How many samples are enough to settle. */
  function SettleTime(e: Rto, r: nat): nat {
    var d := Distance(e.srtt, r);
    d + Max(e.rttvar, d)
  }

  lemma SampleSettles(e: Rto, r: nat)
    requires e.initialized && 0 < r
    ensures Settled(e, r) ==> Settled(SampleExact(e, r), r)
    ensures !Settled(e, r) ==> SettleTime(SampleExact(e, r), r) < SettleTime(e, r)
  {
  }

  /** A constant round-trip time r > 0 drives the estimator, within an explicit number of samples and
      for good, to srtt in [r-7, r] and rttvar at most r - srtt; the timeout before clamping is then
      within [r-6, r+21]. */
  lemma {:induction false} RtoSettles(e: Rto, r: nat, n: nat, m: nat)
    requires e.initialized && Bounded(e, m) && 0 < r <= m < 0x1000_0000_0000_0000
    requires Settled(e, r) || n >= SettleTime(e, r)
    ensures Settled(Repeat(e, r, n), r)
    ensures var s := Repeat(e, r, n); r - 6 <= Candidate(s.srtt, s.rttvar) <= r + 21
    ensures n > 0 ==> var s := Repeat(e, r, n); s.rto == Max(50, Min(5000, Candidate(s.srtt, s.rttvar)))
    decreases n
  {
    if n > 0 {
      SampleWithinBound(e, r, m);
      SampleSettles(e, r);
      RtoSettles(Sample(e, r), r, n - 1, m);
      if n == 1 {
        assert Repeat(e, r, n) == Sample(e, r);
      }
    }
  }

  /** The first sample sets the average to itself: the timeout is three times the sample, less two if it is odd,
      before clamping. */
  lemma FirstSample(e: Rto, rtt: nat)
    requires !e.initialized && 0 < rtt < 0x1000_0000_0000_0000
    ensures Sample(e, rtt).srtt == rtt
    ensures Sample(e, rtt).rto == Max(50, Min(5000, if rtt == 1 then 2 else if rtt % 2 == 0 then 3 * rtt else 3 * rtt - 2))
  {
    Fits64(4 * (rtt / 2));
    Fits64(rtt + Max(1, 4 * (rtt / 2)));
  }

  // ----- against RFC 6298 over the reals -----

  /** SRTT and RTTVAR of section 2 of RFC 6298. */
  datatype Rfc = Rfc(srtt: real, rttvar: real)

  function Abs(x: real): real {
    if x < 0.0 then -x else x
  }

  function RfcFirst(r: real): Rfc {
    Rfc(r, r / 2.0)
  }

  /** RTTVAR is updated before SRTT, with beta = 1/4 and alpha = 1/8. */
  function RfcNext(x: Rfc, r: real): Rfc {
    Rfc((1.0 - 1.0 / 8.0) * x.srtt + 1.0 / 8.0 * r, (1.0 - 1.0 / 4.0) * x.rttvar + 1.0 / 4.0 * Abs(x.srtt - r))
  }

  /** After all of `rtts`, with a zero taken as one millisecond. */
  function RfcSamples(rtts: seq<nat>): Rfc
    requires rtts != []
  {
    var r := Max(1, rtts[|rtts| - 1]) as real;
    if |rtts| == 1 then RfcFirst(r) else RfcNext(RfcSamples(rtts[..|rtts| - 1]), r)
  }

  /** The timeout, with a clock granularity of one millisecond and the source's bounds. */
  function RfcTimeout(x: Rfc): real {
    var t := x.srtt + (if 4.0 * x.rttvar < 1.0 then 1.0 else 4.0 * x.rttvar);
    if t < 50.0 then 50.0 else if t > 5000.0 then 5000.0 else t
  }

  /** What the floors may have cost. */
  ghost predicate Close(e: Rto, x: Rfc) {
    && e.initialized
    && 0.0 <= x.srtt - e.srtt as real <= 7.0
    && -7.0 <= x.rttvar - e.rttvar as real <= 10.0
  }

  lemma DistanceReal(a: nat, b: nat, x: real)
    requires 0.0 <= x - a as real <= 7.0
    ensures -7.0 <= Abs(x - b as real) - Distance(a, b) as real <= 7.0
  {
  }

  lemma FloorReal(n: nat, d: nat)
    requires d == 2 || d == 4 || d == 8
    ensures n as real - (d - 1) as real <= d as real * (n / d) as real <= n as real
  {
    assert n - (d - 1) <= d * (n / d) <= n;
  }

  lemma NextClose(e: Rto, x: Rfc, r: nat)
    requires Close(e, x) && 0 < r
    ensures Close(SampleExact(e, r), RfcNext(x, r as real))
  {
    var delta := Distance(e.srtt, r);
    DistanceReal(e.srtt, r, x.srtt);
    FloorReal(7 * e.srtt + r, 8);
    FloorReal(3 * e.rttvar + delta, 4);
    assert (7 * e.srtt + r) as real == 7.0 * e.srtt as real + r as real;
    assert (3 * e.rttvar + delta) as real == 3.0 * e.rttvar as real + delta as real;
  }

  lemma FirstClose(e: Rto, r: nat)
    requires !e.initialized && 0 < r
    ensures Close(SampleExact(e, r), RfcFirst(r as real))
  {
    FloorReal(r, 2);
  }

  lemma {:induction false} SamplesClose(rtts: seq<nat>)
    requires rtts != []
    ensures Close(SamplesExact(INITIAL, rtts), RfcSamples(rtts))
  {
    var init, r: nat := rtts[..|rtts| - 1], Max(1, rtts[|rtts| - 1]);
    assert SampleExact(SamplesExact(INITIAL, init), r) == SamplesExact(INITIAL, rtts);
    if |rtts| == 1 {
      assert SamplesExact(INITIAL, init) == INITIAL;
      FirstClose(INITIAL, r);
    } else {
      SamplesClose(init);
      NextClose(SamplesExact(INITIAL, init), RfcSamples(init), r);
    }
  }

  lemma TimeoutClose(e: Rto, x: Rfc)
    requires Close(e, x)
    ensures -28.0 <= RfcTimeout(x) - Max(50, Min(5000, Candidate(e.srtt, e.rttvar))) as real <= 47.0
  {
  }

  lemma {:induction false} TimeoutIsClamped(rtts: seq<nat>)
    requires rtts != []
    ensures var e := SamplesExact(INITIAL, rtts); e.rto == Max(50, Min(5000, Candidate(e.srtt, e.rttvar)))
  {
  }

  /** After any samples the compiled estimator is that of RFC 6298 computed over the reals, but for the floors:
      they never move the smoothed time by more than 7 ms, its variation by more than 10, or the timeout by more
      than 47. */
  lemma FollowsRfc(rtts: seq<nat>)
    requires rtts != [] && forall i :: 0 <= i < |rtts| ==> rtts[i] < 0x1000_0000_0000_0000
    ensures var e, x := Samples(INITIAL, rtts), RfcSamples(rtts);
            && 0.0 <= x.srtt - e.srtt as real <= 7.0
            && -7.0 <= x.rttvar - e.rttvar as real <= 10.0
            && -28.0 <= RfcTimeout(x) - e.rto as real <= 47.0
  {
    NoOverflow(INITIAL, rtts, 0x0FFF_FFFF_FFFF_FFFF);
    SamplesClose(rtts);
    TimeoutClose(SamplesExact(INITIAL, rtts), RfcSamples(rtts));
    TimeoutIsClamped(rtts);
  }

  class TcpRtoEstimator {
    var initialized: bool
    var srtt: nat
    var rttvar: nat
    var rto: nat

    ghost function Value(): Rto
      reads this
    {
      Rto(initialized, srtt, rttvar, rto)
    }

    constructor ()
      ensures Value() == INITIAL
    {
      initialized, srtt, rttvar, rto := false, 200, 100, 300;
    }

    method SampleRtt(rttMs: nat)
      modifies this
      ensures Value() == Sample(old(Value()), rttMs)
    {
      var rtt := rttMs;
      if rtt == 0 {
        rtt := 1;
      }
      if !initialized {
        srtt := rtt;
        rttvar := rtt / 2;
        initialized := true;
      } else {
        var delta := if srtt > rtt then srtt - rtt else rtt - srtt;
        rttvar := Add64(3 * rttvar % 0x1_0000_0000_0000_0000, delta) / 4;
        srtt := Add64(7 * srtt % 0x1_0000_0000_0000_0000, rtt) / 8;
      }
      var candidate := Add64(srtt, Max(1, 4 * rttvar % 0x1_0000_0000_0000_0000));
      if candidate < MIN_RTO {
        candidate := MIN_RTO;
      }
      if candidate > MAX_RTO {
        candidate := MAX_RTO;
      }
      rto := candidate;
    }
  }
}
