/** The round-trip estimator of SenderSocket::calculateStats, over reals. */
module Rtt {

  datatype Estimate = Estimate(est: real, dev: real, rto: real)

  function Abs(x: real): real { if x < 0.0 then -x else x }

  function Max(x: real, y: real): real { if x < y then y else x }

  /** estRTT moves first; the deviation is taken from the new estimate. */
  function Update(e: Estimate, sample: real): Estimate {
    var est := 0.875 * e.est + 0.125 * sample;
    var dev := 0.75 * e.dev + 0.25 * Abs(sample - est);
    Estimate(est, dev, est + 4.0 * Max(dev, 0.010))
  }

  /** What Open leaves behind after a SYN that took `rtt` seconds. */
  function AfterSyn(rtt: real): Estimate { Estimate(rtt, 0.0, 3.0 * rtt) }

  function UpdateAll(e: Estimate, samples: seq<real>): Estimate
    decreases |samples|
  {
    if samples == [] then e else Update(UpdateAll(e, samples[..|samples| - 1]), samples[|samples| - 1])
  }

  /** A run of the estimator stays in the range of its samples, and so does the timeout
      once one sample has been taken. */
  lemma {:induction false} StaysInRange(syn: real, samples: seq<real>, lo: real, hi: real)
    requires lo <= syn <= hi
    requires forall k :: 0 <= k < |samples| ==> lo <= samples[k] <= hi
    ensures var e := UpdateAll(AfterSyn(syn), samples);
      && lo <= e.est <= hi
      && 0.0 <= e.dev <= hi - lo
      && (samples != [] ==> lo + 0.04 <= e.rto <= hi + 4.0 * Max(hi - lo, 0.010))
    decreases |samples|
  {
    if samples != [] {
      StaysInRange(syn, samples[..|samples| - 1], lo, hi);
    }
  }

  function Power(x: real, n: nat): real {
    if n == 0 then 1.0 else x * Power(x, n - 1)
  }

  /** With a constant round-trip time the error of the estimate shrinks by 7/8 a step. */
  lemma {:induction false} ConvergesToConstant(syn: real, samples: seq<real>, rtt: real)
    requires forall k :: 0 <= k < |samples| ==> samples[k] == rtt
    ensures UpdateAll(AfterSyn(syn), samples).est - rtt == Power(0.875, |samples|) * (syn - rtt)
    decreases |samples|
  {
    if samples != [] {
      var init := samples[..|samples| - 1];
      ConvergesToConstant(syn, init, rtt);
      var p, d := Power(0.875, |init|), syn - rtt;
      assert 0.875 * (p * d) == (0.875 * p) * d;
    }
  }

  // ------------------------------------------------ against section 2 of RFC 6298

  /** The rule of the RFC takes the deviation from the estimate before it moves. */
  function RfcUpdate(e: Estimate, sample: real): Estimate {
    var dev := 0.75 * e.dev + 0.25 * (if e.est < sample then sample - e.est else e.est - sample);
    var est := 0.875 * e.est + 0.125 * sample;
    Estimate(est, dev, est + (if 4.0 * dev < 0.010 then 0.010 else 4.0 * dev))
  }

  function RfcAll(e: Estimate, samples: seq<real>): Estimate
    decreases |samples|
  {
    if samples == [] then e else RfcUpdate(RfcAll(e, samples[..|samples| - 1]), samples[|samples| - 1])
  }

  /** Moving the estimate first makes the deviation exactly 7/8 of what the rule of the RFC gives on the same samples
      from the same start; the estimates agree, and so the timeout is what the estimate and 7/8 of that deviation make
      it. Until the first sample it is three times the round-trip time of the SYN. */
  lemma {:induction false} DeviationAgainstRfc(syn: real, samples: seq<real>)
    ensures var ours, rfc := UpdateAll(AfterSyn(syn), samples), RfcAll(Estimate(syn, 0.0, 0.0), samples);
      && ours.est == rfc.est && ours.dev == 0.875 * rfc.dev
      && (samples != [] ==> ours.rto == rfc.est + (if 3.5 * rfc.dev < 0.04 then 0.04 else 3.5 * rfc.dev))
      && (samples == [] ==> ours.rto == 3.0 * syn)
    decreases |samples|
  {
    if samples != [] {
      DeviationAgainstRfc(syn, samples[..|samples| - 1]);
    }
  }
}
