/** The sender's state told from its actions alone. Nothing here looks at the state or at a handler: each definition
    reads the list of what has happened, and MatchesHistory proves that the code's fields are what they say, over every
    run. */
module History {
  import opened Common
  import opened Sender
  import opened SlidingWindow
  import opened Unguarded

  /** The largest number among the ACKs taken. */
  function Highest(acts: seq<Action>): nat
    decreases |acts|
  {
    if acts == [] then 0
    else
      var before, a := Highest(acts[..|acts| - 1]), acts[|acts| - 1];
      if a.AckIn? && before < a.ack.seqNo then a.ack.seqNo else before
  }

  /** The last action is an ACK above all before it. */
  predicate Raises(acts: seq<Action>)
    requires acts != []
  {
    acts[|acts| - 1].AckIn? && Highest(acts[..|acts| - 1]) < acts[|acts| - 1].ack.seqNo
  }

  /** The window that came with it. */
  function Advertised(wnd: nat, acts: seq<Action>): nat
    decreases |acts|
  {
    if acts == [] then wnd
    else if Raises(acts) then acts[|acts| - 1].ack.wnd else Advertised(wnd, acts[..|acts| - 1])
  }

  /** How many ACKs equal to the largest number have come since it was reached. */
  function Repeats(acts: seq<Action>): nat
    decreases |acts|
  {
    if acts == [] || Raises(acts) then 0
    else
      var init, a := acts[..|acts| - 1], acts[|acts| - 1];
      Repeats(init) + (if a.AckIn? && a.ack.seqNo == Highest(init) then 1 else 0)
  }

  /** The last action is the third such ACK. */
  predicate Third(acts: seq<Action>)
    requires acts != []
  {
    var init, a := acts[..|acts| - 1], acts[|acts| - 1];
    a.AckIn? && a.ack.seqNo == Highest(init) && Repeats(init) == 2
  }

  /** Timeouts and third duplicates since the largest number was reached. */
  function Retries(acts: seq<Action>): nat
    decreases |acts|
  {
    if acts == [] || Raises(acts) then 0
    else Retries(acts[..|acts| - 1]) + (if acts[|acts| - 1].TimeOut? || Third(acts) then 1 else 0)
  }

  /** What ends a transfer: a failed first transmission, a failed receive, a failed resend after a timeout, or a timeout
      after 50 retries. A failed fast retransmit does not. */
  predicate Ends(acts: seq<Action>)
    requires acts != []
  {
    match acts[|acts| - 1]
    case Transmit(_, ok) => !ok
    case ReceiveFails => true
    case TimeOut(_, ok) => !ok || 50 <= Retries(acts[..|acts| - 1])
    case _ => false
  }

  predicate Ended(acts: seq<Action>)
    decreases |acts|
  {
    acts != [] && (Ended(acts[..|acts| - 1]) || Ends(acts))
  }

  /** The last action puts a datagram on the wire: a first transmission, the resend of a timeout that has retries left,
      or the third duplicate. */
  predicate Launches(acts: seq<Action>)
    requires acts != []
  {
    match acts[|acts| - 1]
    case Transmit(_, ok) => ok
    case TimeOut(_, ok) => ok && Retries(acts[..|acts| - 1]) < 50
    case AckIn(_, _, ok) => ok && Third(acts)
    case _ => false
  }

  function Time(a: Action): int {
    match a
    case Transmit(now, _) => now
    case TimeOut(now, _) => now
    case AckIn(_, now, _) => now
    case _ => 0
  }

  /** When each datagram went out. */
  function Departures(acts: seq<Action>): seq<int>
    decreases |acts|
  {
    if acts == [] then []
    else Departures(acts[..|acts| - 1]) + (if Launches(acts) then [Time(acts[|acts| - 1])] else [])
  }

  /** How many calls of Send have returned, and how many first transmissions were made or tried. */
  function Returned(acts: seq<Action>): nat
    decreases |acts|
  {
    if acts == [] then 0 else Returned(acts[..|acts| - 1]) + (if acts[|acts| - 1].LeaveSend? then 1 else 0)
  }

  function Transmitted(acts: seq<Action>): nat
    decreases |acts|
  {
    if acts == [] then 0 else Transmitted(acts[..|acts| - 1]) + (if acts[|acts| - 1].Transmit? then 1 else 0)
  }

  function Smaller(a: nat, b: nat): nat { if a < b then a else b }

  /** The sequence number up to which the window has ever been opened by the last ACK that raised it. */
  function RightEdge(window: nat, wnd: nat, acts: seq<Action>): nat {
    Highest(acts) + Smaller(window, Advertised(wnd, acts))
  }

  /** Credits: an ACK that raises the number adds the move of the right edge, unless that is not positive or the sum is
      more than the window; each Send takes one. */
  function Credits(window: nat, wnd: nat, acts: seq<Action>): int
    decreases |acts|
  {
    if acts == [] then Smaller(window, wnd)
    else
      var init := acts[..|acts| - 1];
      var before, move := Credits(window, wnd, init), RightEdge(window, wnd, acts) - RightEdge(window, wnd, init);
      if acts[|acts| - 1].EnterSend? then before - 1
      else if Raises(acts) && 0 < move && before + move <= window then before + move
      else before
  }

  /** Packets signalled to the worker and not taken up; the semaphore refuses to count above the window. */
  function Queued(window: nat, acts: seq<Action>): int
    decreases |acts|
  {
    if acts == [] then 0
    else
      var before, a := Queued(window, acts[..|acts| - 1]), acts[|acts| - 1];
      if a.LeaveSend? && before < window then before + 1 else if a.Transmit? then before - 1 else before
  }

  /** effectiveWindow is refreshed by Send, by a first transmission and by an ACK that raises the number. */
  function Effective(window: nat, wnd: nat, acts: seq<Action>): nat
    decreases |acts|
  {
    if acts == [] then 0
    else
      var a := acts[|acts| - 1];
      if a.WriteSize? || a.Transmit? || Raises(acts) then Smaller(window, Advertised(wnd, acts))
      else Effective(window, wnd, acts[..|acts| - 1])
  }

  /** The fields of the code are what its history says. */
  predicate Matches(z: State, window: nat, wnd: nat, acts: seq<Action>) {
    && z.window == window && z.base == Highest(acts) && z.receiverWindow == Advertised(wnd, acts)
    && z.dupAck == Repeats(acts) && z.retx == Retries(acts) && z.quit == Ended(acts)
    && z.nextSeq == Returned(acts) && z.nextToSend == Transmitted(acts)
    && z.lastReleased == RightEdge(window, wnd, acts) && z.empty == Credits(window, wnd, acts)
    && z.full == Queued(window, acts) && z.effectiveWindow == Effective(window, wnd, acts)
  }

  ghost predicate MatchesWire(wire: seq<Transmission>, acts: seq<Action>) {
    |wire| == |Departures(acts)| && forall t :: 0 <= t < |wire| ==> wire[t].at == Departures(acts)[t]
  }

  lemma MatchAck(y: System, a: Action, window: nat, wnd: nat, acts: seq<Action>)
    requires y.s.Shape() && Possible(y, a) && acts != [] && acts[|acts| - 1] == a && a.AckIn?
    requires Matches(y.s, window, wnd, acts[..|acts| - 1])
    ensures Matches(Step(y, a).s, window, wnd, acts)
  {
    hide SlotOf;
    hide Overlaid;
  }

  lemma MatchWorker(y: System, a: Action, window: nat, wnd: nat, acts: seq<Action>)
    requires y.s.Shape() && Possible(y, a) && acts != [] && acts[|acts| - 1] == a
    requires a.Transmit? || a.TimeOut? || a.ReceiveFails?
    requires Matches(y.s, window, wnd, acts[..|acts| - 1])
    ensures Matches(Step(y, a).s, window, wnd, acts)
  {
    hide SlotOf;
    hide Overlaid;
  }

  lemma MatchOther(y: System, a: Action, window: nat, wnd: nat, acts: seq<Action>)
    requires y.s.Shape() && Possible(y, a) && acts != [] && acts[|acts| - 1] == a
    requires !(a.AckIn? || a.Transmit? || a.TimeOut? || a.ReceiveFails?)
    requires Matches(y.s, window, wnd, acts[..|acts| - 1])
    ensures Matches(Step(y, a).s, window, wnd, acts)
  {
    hide SlotOf;
    hide Overlaid;
  }

  lemma MatchStep(y: System, a: Action, window: nat, wnd: nat, acts: seq<Action>)
    requires y.s.Shape() && Possible(y, a) && acts != [] && acts[|acts| - 1] == a
    requires Matches(y.s, window, wnd, acts[..|acts| - 1])
    ensures Matches(Step(y, a).s, window, wnd, acts)
  {
    hide *;
    if a.AckIn? {
      MatchAck(y, a, window, wnd, acts);
    } else if a.Transmit? || a.TimeOut? || a.ReceiveFails? {
      MatchWorker(y, a, window, wnd, acts);
    } else {
      MatchOther(y, a, window, wnd, acts);
    }
  }

  lemma WireStep(y: System, a: Action, acts: seq<Action>)
    requires y.s.Shape() && Possible(y, a) && acts != [] && acts[|acts| - 1] == a
    requires y.s.base == Highest(acts[..|acts| - 1]) && y.s.dupAck == Repeats(acts[..|acts| - 1])
    requires y.s.retx == Retries(acts[..|acts| - 1]) && MatchesWire(y.s.wire, acts[..|acts| - 1])
    ensures MatchesWire(Step(y, a).s.wire, acts)
  {
    hide SlotOf;
    hide Overlaid;
  }

  /** Over every run of the code, whatever its ACKs, windows and failures. */
  lemma {:induction false} MatchesHistory(window: nat, wnd: nat, syn: real, acts: seq<Action>)
    requires 1 <= window && AnyRun(Initial(window, wnd, syn), acts).Some?
    ensures var z := AnyRun(Initial(window, wnd, syn), acts).value.s;
      Matches(z, window, wnd, acts) && MatchesWire(z.wire, acts)
    decreases |acts|
  {
    hide Step;
    hide Possible;
    hide MatchesWire;
    if acts == [] {
      NoHistory(window, wnd, syn);
    } else {
      hide Initial;
      var n := |acts| - 1;
      MatchesHistory(window, wnd, syn, acts[..n]);
      var x := AnyRun(Initial(window, wnd, syn), acts[..n]).value;
      MatchStep(x, acts[n], window, wnd, acts);
      WireStep(x, acts[n], acts);
      hide Highest;
      hide Advertised;
      hide Repeats;
      hide Retries;
      hide Ended;
      hide Credits;
      hide Queued;
      hide Effective;
    }
  }

  lemma NoHistory(window: nat, wnd: nat, syn: real)
    requires 1 <= window
    ensures var z := Initial(window, wnd, syn).s; Matches(z, window, wnd, []) && MatchesWire(z.wire, [])
  {}
}
