/** What the retransmission counters guarantee over every run of the sliding window: Karn's rule for
    round-trip samples (section 3 of RFC 6298) and the bounds on resends. */
module Retransmission {
  import Rtt
  import opened Common
  import opened Sender
  import opened SlidingWindow

  const LIMIT: nat := MAX_ATTEMPTS + 1

  // ------------------------------------------------ counting transmissions of one packet

  predicate Carries(t: Transmission, k: nat) { t.body.Defined? && t.body.value.seqNo == k }

  /** How often packet k has been put on the wire. */
  function Sends(w: seq<Transmission>, k: nat): nat
    decreases |w|
  {
    if w == [] then 0 else Sends(w[..|w| - 1], k) + (if Carries(w[|w| - 1], k) then 1 else 0)
  }

  /** When packet k was last put on the wire. */
  function LastSent(w: seq<Transmission>, k: nat): int
    decreases |w|
  {
    if w == [] then 0 else if Carries(w[|w| - 1], k) then w[|w| - 1].at else LastSent(w[..|w| - 1], k)
  }

  lemma SendsAppend(w: seq<Transmission>, t: Transmission, k: nat)
    ensures Sends(w + [t], k) == Sends(w, k) + (if Carries(t, k) then 1 else 0)
    ensures LastSent(w + [t], k) == if Carries(t, k) then t.at else LastSent(w, k)
  {
    assert (w + [t])[..|w|] == w;
  }

  lemma {:induction false} NeverSent(w: seq<Transmission>, k: nat)
    requires forall t :: 0 <= t < |w| ==> !Carries(w[t], k)
    ensures Sends(w, k) == 0
    decreases |w|
  {
    if w != [] {
      NeverSent(w[..|w| - 1], k);
    }
  }

  lemma NotYetSent(y: System, k: nat)
    requires Safe(y) && y.s.nextToSend <= k
    ensures Sends(y.s.wire, k) == 0
  {
    forall t | 0 <= t < |y.s.wire| ensures !Carries(y.s.wire[t], k) {
      assert Truthful(y.s.wire[t], y.submitted, y.s.nextToSend);
    }
    NeverSent(y.s.wire, k);
  }

  /** Packet k was transmitted once and its slot is stamped with that moment. */
  predicate Once(s: State, k: nat)
    requires s.Shape()
  {
    Sends(s.wire, k) == 1 && s.At(k).txTime == Defined(LastSent(s.wire, k))
  }

  /** While the worker runs, every outstanding packet was transmitted once, except a resent base. */
  ghost predicate Stamped(y: System)
    requires y.s.Shape()
  {
    !y.s.quit ==> forall k: nat :: y.s.base <= k < y.s.nextToSend && (k == y.s.base ==> y.s.retx == 0) ==> Once(y.s, k)
  }

  lemma StampedSame(y: System, z: System)
    requires Safe(y) && Safe(z) && Stamped(y)
    requires z.s.wire == y.s.wire && z.s.window == y.s.window && z.s.nextToSend == y.s.nextToSend
    requires forall i :: 0 <= i < y.s.window ==> z.s.ring[i].txTime == y.s.ring[i].txTime
    requires y.s.quit ==> z.s.quit
    requires y.s.base <= z.s.base && (z.s.base == y.s.base && z.s.retx == 0 ==> y.s.retx == 0)
    ensures Stamped(z)
  {
    if !z.s.quit {
      forall k: nat | z.s.base <= k < z.s.nextToSend && (k == z.s.base ==> z.s.retx == 0) ensures Once(z.s, k) {
        assert Once(y.s, k);
      }
    }
  }

  lemma StampedTransmit(y: System, now: int, ok: bool)
    requires Safe(y) && Stamped(y) && Enabled(y, Transmit(now, ok))
    ensures Stamped(Step(y, Transmit(now, ok)))
  {
    var z := Step(y, Transmit(now, ok));
    var n := y.s.nextToSend;
    if ok {
      OfferedAt(y, n);
      var t := z.s.wire[|y.s.wire|];
      assert z.s.wire == y.s.wire + [t] && Carries(t, n) && t.at == now;
      NotYetSent(y, n);
      forall k: nat | z.s.base <= k < z.s.nextToSend && (k == z.s.base ==> z.s.retx == 0) ensures Once(z.s, k) {
        SendsAppend(y.s.wire, t, k);
        if k != n {
          assert Once(y.s, k);
          PutElsewhere(y.s, n, z.s.At(n), k);
        }
      }
    }
  }

  /** A resend of base, after which retx is positive. */
  lemma StampedResend(y: System, z: System, now: int)
    requires Safe(y) && Stamped(y) && Resendable(y) && !y.s.quit
    requires z.s.(retx := y.s.retx, dupAck := y.s.dupAck) == Resend(y.s, now) && z.s.retx > 0
    ensures Stamped(z)
  {
    var b := y.s.base;
    ResendTruthful(y, now);
    var t := z.s.wire[|y.s.wire|];
    assert z.s.wire == y.s.wire + [t];
    forall k: nat | b <= k < z.s.nextToSend && (k == b ==> z.s.retx == 0) ensures Once(z.s, k) {
      assert Once(y.s, k);
      SendsAppend(y.s.wire, t, k);
      OfferedAt(y, b);
      PutElsewhere(y.s, b, z.s.At(b), k);
    }
  }

  lemma StampedAck(y: System, ack: Ack, now: int, ok: bool)
    requires Safe(y) && Stamped(y) && Enabled(y, AckIn(ack, now, ok))
    ensures Stamped(Step(y, AckIn(ack, now, ok)))
  {
    var z := Step(y, AckIn(ack, now, ok));
    if FiresFast(y, ack.seqNo) && ok {
      StampedResend(y, z, now);
    } else {
      AckInSafe(y, ack, now, ok);
      StampedSame(y, z);
    }
  }

  lemma StampedTimeOut(y: System, now: int, ok: bool)
    requires Safe(y) && Stamped(y) && Enabled(y, TimeOut(now, ok))
    ensures Stamped(Step(y, TimeOut(now, ok)))
  {
    if y.s.retx + 1 <= MAX_ATTEMPTS && ok {
      StampedResend(y, Step(y, TimeOut(now, ok)), now);
    }
  }

  lemma StampedElsewhere(y: System, a: Action)
    requires Safe(y) && Stamped(y) && Enabled(y, a)
    requires !a.Transmit? && !a.AckIn? && !a.TimeOut?
    ensures Stamped(Step(y, a))
  {
    StepSafe(y, a);
    hide Safe;
    hide Stamped;
    hide SlotOf;
    hide Overlaid;
    if !a.ReceiveFails? {
      StampedSame(y, Step(y, a));
    } else {
      StampedQuit(Step(y, a));
    }
  }

  lemma StampedQuit(y: System)
    requires y.s.Shape() && y.s.quit
    ensures Stamped(y)
  {}

  lemma StampedStep(y: System, a: Action)
    requires Safe(y) && Stamped(y) && Enabled(y, a)
    ensures Stamped(Step(y, a))
  {
    match a
    case Transmit(now, ok) => StampedTransmit(y, now, ok);
    case AckIn(ack, now, ok) => StampedAck(y, ack, now, ok);
    case TimeOut(now, ok) => StampedTimeOut(y, now, ok);
    case _ => StampedElsewhere(y, a);
  }

  // ------------------------------------------------ how many resends

  /** The retransmission counter and the length of the wire, from the handlers alone. */
  predicate Counted(s: State) {
    && |s.wire| <= s.nextToSend + LIMIT * s.base + Min(s.retx, LIMIT)
    && (!s.quit ==> s.retx <= MAX_ATTEMPTS || (s.retx == LIMIT && 3 <= s.dupAck))
    && (s.base == s.nextToSend ==> s.retx <= 1 && (s.retx == 1 ==> 3 <= s.dupAck))
  }

  /** The most transmissions packet k can have had so far. A packet one ring length below an idle base
      can be sent once more, by a fast retransmit that finds nothing outstanding. */
  function Allowance(s: State, k: nat): nat {
    if s.nextToSend <= k then 0
    else if s.base < k then 1
    else if k == s.base then 1 + Min(s.retx, LIMIT)
    else if k + s.window < s.base || (k + s.window == s.base && 3 <= s.dupAck) then LIMIT + 2
    else LIMIT + 1
  }

  ghost predicate Rationed(s: State) {
    forall k: nat :: Sends(s.wire, k) <= Allowance(s, k)
  }

  lemma MultipleGrows(a: nat, b: nat)
    requires a < b
    ensures LIMIT * a + LIMIT <= LIMIT * b
  {}

  lemma RationedQuiet(s: State, t: State)
    requires Rationed(s) && t.wire == s.wire && t.window == s.window
    requires s.nextToSend <= t.nextToSend && s.base <= t.base <= t.nextToSend
    requires s.base == t.base ==> s.retx <= t.retx && s.dupAck <= t.dupAck
    ensures Rationed(t)
  {
    forall k: nat ensures Sends(t.wire, k) <= Allowance(t, k) {
      assert Sends(s.wire, k) <= Allowance(s, k);
    }
  }

  /** The packet a resend puts on the wire. */
  function Resent(y: System): nat
    requires y.s.Shape() && Resendable(y)
  {
    if y.s.base < y.s.nextToSend then y.s.base else y.s.base - y.s.window
  }

  lemma ResentCarried(y: System, now: int)
    requires Safe(y) && Resendable(y)
    ensures Resend(y.s, now).wire == y.s.wire + [Resend(y.s, now).wire[|y.s.wire|]]
    ensures Carries(Resend(y.s, now).wire[|y.s.wire|], Resent(y))
  {
    var b := y.s.base;
    if b < y.s.nextToSend {
      OfferedAt(y, b);
    } else {
      SlotPeriod(b - y.s.window, y.s.window);
      OfferedAt(y, b - y.s.window);
    }
  }

  lemma RationedResend(y: System, z: State, now: int)
    requires Safe(y) && Resendable(y) && Rationed(y.s)
    requires z.(retx := y.s.retx, dupAck := y.s.dupAck) == Resend(y.s, now)
    requires z.retx == y.s.retx + 1 <= LIMIT && y.s.dupAck <= z.dupAck
    requires y.s.base == y.s.nextToSend ==> y.s.dupAck == 2 && z.dupAck == 3
    ensures Rationed(z)
  {
    ResentCarried(y, now);
    var t := z.wire[|y.s.wire|];
    forall k: nat ensures Sends(z.wire, k) <= Allowance(z, k) {
      SendsAppend(y.s.wire, t, k);
      assert Sends(y.s.wire, k) <= Allowance(y.s, k);
    }
  }

  lemma RationedTransmit(y: System, now: int, ok: bool)
    requires Safe(y) && Rationed(y.s) && Enabled(y, Transmit(now, ok))
    ensures Rationed(Step(y, Transmit(now, ok)).s)
  {
    var z := Step(y, Transmit(now, ok));
    var n := y.s.nextToSend;
    if ok {
      OfferedAt(y, n);
      var t := z.s.wire[|y.s.wire|];
      assert z.s.wire == y.s.wire + [t];
      forall k: nat ensures Sends(z.s.wire, k) <= Allowance(z.s, k) {
        assert Sends(y.s.wire, k) <= Allowance(y.s, k);
        SendsAppend(y.s.wire, t, k);
      }
    } else {
      RationedQuiet(y.s, z.s);
    }
  }

  lemma RationedAck(y: System, ack: Ack, now: int, ok: bool)
    requires Safe(y) && Counted(y.s) && Rationed(y.s) && Enabled(y, AckIn(ack, now, ok))
    ensures Rationed(Step(y, AckIn(ack, now, ok)).s)
  {
    var z := Step(y, AckIn(ack, now, ok));
    if FiresFast(y, ack.seqNo) && ok {
      RationedResend(y, z.s, now);
    } else {
      if y.s.base < ack.seqNo {
        AckWithinWindow(y, ack);
      }
      RationedQuiet(y.s, z.s);
    }
  }

  lemma RationedTimeOut(y: System, now: int, ok: bool)
    requires Safe(y) && Counted(y.s) && Rationed(y.s) && Enabled(y, TimeOut(now, ok))
    ensures Rationed(Step(y, TimeOut(now, ok)).s)
  {
    var z := Step(y, TimeOut(now, ok));
    if y.s.retx + 1 <= MAX_ATTEMPTS && ok {
      RationedResend(y, z.s, now);
    } else {
      RationedQuiet(y.s, z.s);
    }
  }

  lemma RationedStep(y: System, a: Action)
    requires Safe(y) && Counted(y.s) && Rationed(y.s) && Enabled(y, a)
    ensures Rationed(Step(y, a).s)
  {
    match a
    case Transmit(now, ok) => RationedTransmit(y, now, ok);
    case AckIn(ack, now, ok) => RationedAck(y, ack, now, ok);
    case TimeOut(now, ok) => RationedTimeOut(y, now, ok);
    case _ => RationedQuiet(y.s, Step(y, a).s);
  }

  lemma CountedStep(y: System, a: Action)
    requires Safe(y) && Counted(y.s) && Enabled(y, a)
    ensures Counted(Step(y, a).s)
  {
    if a.AckIn? && y.s.base < a.ack.seqNo {
      MultipleGrows(y.s.base, a.ack.seqNo);
    }
  }

  // ------------------------------------------------ over runs

  lemma {:induction false} RunCounts(window: nat, wnd: nat, syn: real, acts: seq<Action>)
    requires 1 <= window && Run(Initial(window, wnd, syn), acts).Some?
    ensures var z := Run(Initial(window, wnd, syn), acts).value;
      Safe(z) && Stamped(z) && Counted(z.s) && Rationed(z.s)
    decreases |acts|
  {
    var y := Initial(window, wnd, syn);
    InitialSafe(window, wnd, syn);
    if acts != [] {
      var n := |acts| - 1;
      RunCounts(window, wnd, syn, acts[..n]);
      var x := Run(y, acts[..n]).value;
      hide Safe;
      hide Stamped;
      hide Counted;
      hide Rationed;
      StampedStep(x, acts[n]);
      CountedStep(x, acts[n]);
      RationedStep(x, acts[n]);
      RunSafe(y, acts);
    }
  }

  predicate Samples(y: System, a: Action) { a.AckIn? && y.s.base < a.ack.seqNo && y.s.retx == 0 }

  lemma SampleIsKarns(y: System, ack: Ack, now: int, ok: bool)
    requires Safe(y) && Stamped(y) && Enabled(y, AckIn(ack, now, ok)) && Samples(y, AckIn(ack, now, ok))
    ensures Sends(y.s.wire, ack.seqNo - 1) == 1
    ensures Sample(y.s, ack.seqNo, now) == Defined((now - LastSent(y.s.wire, ack.seqNo - 1)) as real / CLOCKS_PER_SEC)
  {
    AckWithinWindow(y, ack);
    assert Once(y.s, ack.seqNo - 1);
  }

  lemma RttStep(y: System, a: Action)
    requires y.s.Shape() && Enabled(y, a)
    ensures !Samples(y, a) ==> Step(y, a).s.rtt == y.s.rtt
    ensures Samples(y, a) ==> Step(y, a).s.rtt == TakeSample(y.s, a.ack.seqNo, a.now).rtt
  {}

  /** Karn's rule: whenever an ACK arriving after any run yields a round-trip sample, the packet it measures
      was transmitted exactly once, and the sample is the time since that transmission. */
  lemma KarnsRule(window: nat, wnd: nat, syn: real, acts: seq<Action>, ack: Ack, now: int, ok: bool)
    requires 1 <= window && Run(Initial(window, wnd, syn), acts).Some?
    requires var y := Run(Initial(window, wnd, syn), acts).value;
      Enabled(y, AckIn(ack, now, ok)) && Samples(y, AckIn(ack, now, ok))
    ensures var y := Run(Initial(window, wnd, syn), acts).value;
      && Sends(y.s.wire, ack.seqNo - 1) == 1
      && Step(y, AckIn(ack, now, ok)).s.rtt ==
           Rtt.Update(y.s.rtt, (now - LastSent(y.s.wire, ack.seqNo - 1)) as real / 1000.0)
  {
    hide Initial;
    hide Run;
    hide Rtt.Update;
    hide Sends;
    hide LastSent;
    hide Rtt.AfterSyn;
    RunCounts(window, wnd, syn, acts);
    var y := Run(Initial(window, wnd, syn), acts).value;
    SampleIsKarns(y, ack, now, ok);
    RttStep(y, AckIn(ack, now, ok));
  }

  /** The round-trip samples taken along a run. */
  ghost function SamplesOf(y: System, acts: seq<Action>): seq<real>
    requires y.s.Shape() && Run(y, acts).Some?
    decreases |acts|
  {
    if acts == [] then []
    else
      var n := |acts| - 1;
      var x := Run(y, acts[..n]).value;
      var earlier := SamplesOf(y, acts[..n]);
      if !Samples(x, acts[n]) then earlier
      else
        match Sample(x.s, acts[n].ack.seqNo, acts[n].now)
        case Undefined => earlier
        case Defined(v) => earlier + [v]
  }

  lemma UpdateAllAppend(e: Rtt.Estimate, v: seq<real>, x: real)
    ensures Rtt.UpdateAll(e, v + [x]) == Rtt.Update(Rtt.UpdateAll(e, v), x)
  {
    assert (v + [x])[..|v|] == v;
  }

  lemma {:induction false} RttOfRun(y: System, acts: seq<Action>, syn: real)
    requires y.s.Shape() && y.s.rtt == Rtt.AfterSyn(syn) && Run(y, acts).Some?
    ensures Run(y, acts).value.s.rtt == Rtt.UpdateAll(Rtt.AfterSyn(syn), SamplesOf(y, acts))
    decreases |acts|
  {
    if acts != [] {
      hide Rtt.Update;
      var n := |acts| - 1;
      var x := Run(y, acts[..n]).value;
      RttOfRun(y, acts[..n], syn);
      RttStep(x, acts[n]);
      hide Step;
      hide Enabled;
      if Samples(x, acts[n]) {
        match Sample(x.s, acts[n].ack.seqNo, acts[n].now)
        case Undefined =>
        case Defined(v) => UpdateAllAppend(Rtt.AfterSyn(syn), SamplesOf(y, acts[..n]), v);
      }
    }
  }

  /** The retransmission timeout over any run whose round-trip times lie in [lo, hi]. */
  lemma TimeoutBounded(window: nat, wnd: nat, syn: real, acts: seq<Action>, lo: real, hi: real)
    requires 1 <= window && Run(Initial(window, wnd, syn), acts).Some?
    requires lo <= syn <= hi
    requires forall v :: v in SamplesOf(Initial(window, wnd, syn), acts) ==> lo <= v <= hi
    ensures var rtt := Run(Initial(window, wnd, syn), acts).value.s.rtt;
      && lo <= rtt.est <= hi
      && 0.0 <= rtt.dev <= hi - lo
      && (SamplesOf(Initial(window, wnd, syn), acts) != [] ==>
            lo + 0.04 <= rtt.rto <= hi + 4.0 * Rtt.Max(hi - lo, 0.010))
      && (SamplesOf(Initial(window, wnd, syn), acts) == [] ==> rtt.rto == 3.0 * syn)
  {
    hide Initial;
    hide Run;
    hide SamplesOf;
    hide Rtt.UpdateAll;
    hide Rtt.AfterSyn;
    RttOfRun(Initial(window, wnd, syn), acts, syn);
    var v := SamplesOf(Initial(window, wnd, syn), acts);
    assert forall k :: 0 <= k < |v| ==> v[k] in v;
    Rtt.StaysInRange(syn, SamplesOf(Initial(window, wnd, syn), acts), lo, hi);
    Rtt.DeviationAgainstRfc(syn, v);
  }

  lemma BoundsOfState(z: System, k: nat)
    requires Safe(z) && Counted(z.s) && Rationed(z.s)
    ensures Sends(z.s.wire, k) <= 53
    ensures z.s.base <= k ==> Sends(z.s.wire, k) <= 52
    ensures z.s.base < |z.submitted| ==> |z.s.wire| <= z.s.nextToSend + 51 * |z.submitted|
    ensures |z.s.wire| <= z.s.nextToSend + 51 * |z.submitted| + 1
  {
    assert Sends(z.s.wire, k) <= Allowance(z.s, k);
    if z.s.base < |z.submitted| {
      MultipleGrows(z.s.base, |z.submitted|);
    }
  }

  /** Over any run: a packet not yet acknowledged has been sent at most 52 times, any packet at most 53 times; all
      resends together number at most 51 for each submitted packet until everything is acknowledged, and at most one
      more after that, by a fast retransmit that finds nothing outstanding. */
  lemma ResendsBounded(window: nat, wnd: nat, syn: real, acts: seq<Action>, k: nat)
    requires 1 <= window && Run(Initial(window, wnd, syn), acts).Some?
    ensures var z := Run(Initial(window, wnd, syn), acts).value;
      && Sends(z.s.wire, k) <= 53
      && (z.s.base <= k ==> Sends(z.s.wire, k) <= 52)
      && (z.s.base < |z.submitted| ==> |z.s.wire| <= z.s.nextToSend + 51 * |z.submitted|)
      && |z.s.wire| <= z.s.nextToSend + 51 * |z.submitted| + 1
  {
    hide *;
    RunCounts(window, wnd, syn, acts);
    BoundsOfState(Run(Initial(window, wnd, syn), acts).value, k);
  }
}
