/** How far the sender is from having everything acknowledged: a measure for one step, and what it bounds over runs. */
module Liveness {
  import opened Common
  import opened Sender
  import opened SlidingWindow
  import opened Retransmission

  /** Packets left to acknowledge, then attempts left for base. */
  function PacketsLeft(y: System, total: nat): int { total - y.s.base }
  function AttemptsLeft(y: System): int { LIMIT + 1 - y.s.retx }

  predicate Smaller(y: System, z: System, total: nat) {
    PacketsLeft(z, total) < PacketsLeft(y, total)
    || (PacketsLeft(z, total) == PacketsLeft(y, total) && AttemptsLeft(z) < AttemptsLeft(y))
  }

  predicate Unchanged(y: System, z: System, total: nat) {
    PacketsLeft(z, total) == PacketsLeft(y, total) && AttemptsLeft(z) == AttemptsLeft(y)
  }

  /** The pair never grows and never leaves the naturals; an advancing ACK, a firing fast retransmit and
      a timeout make it smaller, and a timeout that finds no attempt left signals quit. */
  lemma Progress(y: System, a: Action, total: nat)
    requires Safe(y) && Counted(y.s) && Enabled(y, a) && |y.submitted| <= total
    ensures 0 <= PacketsLeft(y, total) && (!y.s.quit ==> 0 < AttemptsLeft(y))
    ensures Smaller(y, Step(y, a), total) || Unchanged(y, Step(y, a), total)
    ensures (a.TimeOut? || (a.AckIn? && (y.s.base < a.ack.seqNo || FiresFast(y, a.ack.seqNo)))) <==>
            Smaller(y, Step(y, a), total)
    ensures a.TimeOut? && y.s.retx >= 50 ==> Step(y, a).s.quit
  {}

  // ------------------------------------------------ over runs

  predicate Advances(y: System, a: Action) { a.AckIn? && y.s.base < a.ack.seqNo }

  predicate Fires(y: System, a: Action) { a.AckIn? && FiresFast(y, a.ack.seqNo) }

  /** How many ACKs moved base, fast retransmits fired and timeouts there were along a run. */
  function Moves(y: System, acts: seq<Action>): nat
    requires y.s.Shape() && Run(y, acts).Some?
    decreases |acts|
  {
    if acts == [] then 0
    else
      var n := |acts| - 1;
      var x := Run(y, acts[..n]).value;
      Moves(y, acts[..n]) + (if Advances(x, acts[n]) || Fires(x, acts[n]) || acts[n].TimeOut? then 1 else 0)
  }

  /** How many fast retransmits fired while base was b. */
  function FiresAt(y: System, acts: seq<Action>, b: nat): nat
    requires y.s.Shape() && Run(y, acts).Some?
    decreases |acts|
  {
    if acts == [] then 0
    else
      var n := |acts| - 1;
      var x := Run(y, acts[..n]).value;
      FiresAt(y, acts[..n], b) + (if x.s.base == b && Fires(x, acts[n]) then 1 else 0)
  }

  /** What one step does to base, the counters and the two kinds of event. */
  lemma CounterStep(y: System, a: Action)
    requires Safe(y) && Counted(y.s) && Enabled(y, a)
    ensures var z := Step(y, a);
      && (Advances(y, a) ==> y.s.base < z.s.base && z.s.dupAck == 0 && y.s.retx <= LIMIT)
      && (Fires(y, a) || a.TimeOut? ==> z.s.base == y.s.base && z.s.retx == y.s.retx + 1)
      && (!Advances(y, a) ==> z.s.base == y.s.base && y.s.retx <= z.s.retx && y.s.dupAck <= z.s.dupAck)
      && (Fires(y, a) ==> y.s.dupAck == 2 && z.s.dupAck == 3)
      && (z.s.quit || z.s.retx <= LIMIT)
  {
    CountedStep(y, a);
  }

  /** 52 events for each packet acknowledged, and one for each retransmission of base. */
  function Budget(s: State): nat { 52 * s.base + s.retx }

  lemma BudgetStep(y: System, a: Action)
    requires Safe(y) && Counted(y.s) && Enabled(y, a)
    ensures Budget(y.s) + (if Advances(y, a) || Fires(y, a) || a.TimeOut? then 1 else 0) <= Budget(Step(y, a).s)
  {
    CounterStep(y, a);
    hide Step;
    hide Enabled;
    hide Safe;
    hide Counted;
  }

  lemma {:induction false} MovesBounded(window: nat, wnd: nat, syn: real, acts: seq<Action>)
    requires 1 <= window && Run(Initial(window, wnd, syn), acts).Some?
    ensures Moves(Initial(window, wnd, syn), acts) <= Budget(Run(Initial(window, wnd, syn), acts).value.s)
    decreases |acts|
  {
    hide Initial;
    hide Step;
    hide Enabled;
    hide Safe;
    hide Counted;
    hide Stamped;
    hide Rationed;
    hide Budget;
    hide Advances;
    hide Fires;
    if acts != [] {
      var n := |acts| - 1;
      MovesBounded(window, wnd, syn, acts[..n]);
      RunCounts(window, wnd, syn, acts[..n]);
      BudgetStep(Run(Initial(window, wnd, syn), acts[..n]).value, acts[n]);
    }
  }

  /** Once ACKs that move base, fast retransmits and timeouts together number 52 for each submitted packet, everything
      is acknowledged or quit is signalled. */
  lemma AllOrQuit(window: nat, wnd: nat, syn: real, acts: seq<Action>)
    requires 1 <= window && Run(Initial(window, wnd, syn), acts).Some?
    ensures var z := Run(Initial(window, wnd, syn), acts).value;
      Moves(Initial(window, wnd, syn), acts) >= 52 * |z.submitted| ==> z.s.base == |z.submitted| || z.s.quit
  {
    MovesBounded(window, wnd, syn, acts);
    RunCounts(window, wnd, syn, acts);
    LeftOver(Run(Initial(window, wnd, syn), acts).value);
    hide Initial;
    hide Safe;
    hide Counted;
    hide Stamped;
    hide Rationed;
  }

  lemma LeftOver(z: System)
    requires Safe(z) && Counted(z.s)
    ensures z.s.base <= |z.submitted|
    ensures !z.s.quit && z.s.base < |z.submitted| ==> Budget(z.s) < 52 * |z.submitted|
  {}

  /** Over every run the fast retransmit fires at most once for each value of base. */
  lemma {:induction false} OneFirePerBase(window: nat, wnd: nat, syn: real, acts: seq<Action>, b: nat)
    requires 1 <= window && Run(Initial(window, wnd, syn), acts).Some?
    ensures var z := Run(Initial(window, wnd, syn), acts).value;
      FiresAt(Initial(window, wnd, syn), acts, b) <=
        if b < z.s.base || (b == z.s.base && 3 <= z.s.dupAck) then 1 else 0
    decreases |acts|
  {
    if acts != [] {
      var n := |acts| - 1;
      var x := Run(Initial(window, wnd, syn), acts[..n]).value;
      OneFirePerBase(window, wnd, syn, acts[..n], b);
      RunCounts(window, wnd, syn, acts[..n]);
      CounterStep(x, acts[n]);
      hide Initial;
      hide Step;
      hide Enabled;
      hide Safe;
      hide Counted;
      hide Stamped;
      hide Rationed;
      hide Fires;
    }
  }
}
