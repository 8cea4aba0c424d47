/** The loop of the worker thread, run on a SenderSocket object, as a run of the composed system. */
module WorkerThread {
  import opened Common
  import opened Sender
  import opened SenderSocketClass
  import opened SlidingWindow

  /** What one turn of the loop is told, when, and whether its sendto works. */
  datatype Turn = Turn(event: Event, now: int, ok: bool)

  /** The action of the composition that a turn performs; a quit event performs none. */
  function ActionOf(t: Turn): Action
    requires !t.event.QuitSignalled?
  {
    match t.event
    case PacketQueued => Transmit(t.now, t.ok)
    case AckArrived(ack, wnd) => AckIn(Ack(ack, wnd), t.now, t.ok)
    case ReceiveFailed => ReceiveFails
    case TimedOut => TimeOut(t.now, t.ok)
  }

  predicate CanServe(y: System, t: Turn)
    requires y.s.Shape()
  {
    if t.event.QuitSignalled? then y.s.quit else Enabled(y, ActionOf(t))
  }

  function Served(y: System, t: Turn): (z: System)
    requires y.s.Shape() && CanServe(y, t)
    ensures z.s.Shape()
  {
    if t.event.QuitSignalled? then y else Step(y, ActionOf(t))
  }

  /** The composed system after the worker has served these turns one after the other; None when one cannot happen. */
  function After(y: System, turns: seq<Turn>): (z: Option<System>)
    requires y.s.Shape()
    ensures z.Some? ==> z.value.s.Shape()
    decreases |turns|
  {
    if turns == [] then Some(y)
    else
      var n := |turns| - 1;
      match After(y, turns[..n])
      case None => None
      case Some(x) => if CanServe(x, turns[n]) then Some(Served(x, turns[n])) else None
  }

  lemma {:induction false} AfterPrefix(y: System, turns: seq<Turn>, n: nat)
    requires y.s.Shape() && n <= |turns| && After(y, turns).Some?
    ensures After(y, turns[..n]).Some?
    decreases |turns|
  {
    hide CanServe;
    hide Served;
    if n < |turns| {
      var init := turns[..|turns| - 1];
      AfterPrefix(y, init, n);
      assert init[..n] == turns[..n];
    } else {
      assert turns[..n] == turns;
    }
  }

  /** One turn of the loop is one action of the composition. */
  lemma TurnIsAction(y: System, t: Turn)
    requires y.s.Shape() && CanServe(y, t)
    ensures CanReport(y.s, t.event)
    ensures Served(y, t) == y.(s := Handle(y.s, t.event, t.now, t.ok))
  {
    hide SlotOf;
  }

  lemma ServedSafe(y: System, t: Turn)
    requires Safe(y) && CanServe(y, t)
    ensures Safe(Served(y, t))
  {
    hide Safe;
    hide Step;
    hide Enabled;
    if !t.event.QuitSignalled? {
      StepSafe(y, ActionOf(t));
    }
  }

  lemma AfterOne(y: System, turns: seq<Turn>, n: nat)
    requires y.s.Shape() && n < |turns| && After(y, turns).Some?
    ensures After(y, turns[..n]).Some? && After(y, turns[..n + 1]).Some?
    ensures CanServe(After(y, turns[..n]).value, turns[n])
    ensures After(y, turns[..n + 1]).value == Served(After(y, turns[..n]).value, turns[n])
  {
    AfterPrefix(y, turns, n);
    AfterPrefix(y, turns, n + 1);
    assert turns[..n + 1][..n] == turns[..n];
    hide CanServe;
    hide Served;
  }

  /** The turn leaves the loop. */
  predicate Leaves(s: State, event: Event) { event.QuitSignalled? || (event.TimedOut? && GivesUp(s)) }

  /** The k-th turn leaves the loop. */
  ghost predicate LeavesAt(y: System, turns: seq<Turn>, k: nat)
    requires y.s.Shape() && k < |turns|
  {
    After(y, turns[..k]).Some? && Leaves(After(y, turns[..k]).value.s, turns[k].event)
  }

  /** None of the first n turns does. */
  ghost predicate Stays(y: System, turns: seq<Turn>, n: nat)
    requires y.s.Shape() && n <= |turns|
  {
    forall k :: 0 <= k < n ==> After(y, turns[..k]).Some? && !LeavesAt(y, turns, k)
  }

  lemma StaysMore(y: System, turns: seq<Turn>, n: nat)
    requires y.s.Shape() && n < |turns| && Stays(y, turns, n) && After(y, turns[..n]).Some? && !LeavesAt(y, turns, n)
    ensures Stays(y, turns, n + 1)
  {
    hide After;
    hide LeavesAt;
  }

  /** The loop. It serves turns until one leaves it, and the object then stands where the composition does, in a safe
      state. It goes on exactly until a turn finds quit signalled or the attempts used up. */
  method Serve(ss: SenderSocket, ghost y: System, turns: seq<Turn>) returns (served: nat, running: bool)
    requires ss.Valid() && y.s == ss.View() && Safe(y) && After(y, turns).Some?
    modifies ss, ss.pendingPackets
    ensures served <= |turns| && After(y, turns[..served]).Some?
    ensures ss.View() == After(y, turns[..served]).value.s && Safe(After(y, turns[..served]).value)
    ensures running ==> served == |turns| && Stays(y, turns, served)
    ensures !running ==> ss.eventQuit && 0 < served && Stays(y, turns, served - 1) && LeavesAt(y, turns, served - 1)
  {
    hide Safe;
    hide Handle;
    hide CanServe;
    hide Served;
    hide Stays;
    hide SenderSocketClass.GivesUp;
    served, running := 0, true;
    ghost var x := y;
    StaysNone(y, turns);
    while running && served < |turns|
      invariant served <= |turns| && ss.View() == x.s && Safe(x) && After(y, turns[..served]) == Some(x)
      invariant running ==> Stays(y, turns, served)
      invariant !running ==> ss.eventQuit && 0 < served && Stays(y, turns, served - 1) && LeavesAt(y, turns, served - 1)
      decreases |turns| - served
    {
      ghost var n := served;
      var t := turns[served];
      AfterOne(y, turns, n);
      TurnIsAction(x, t);
      ServedSafe(x, t);
      running := ServeOne(ss, t);
      assert LeavesAt(y, turns, n) <==> !running;
      if running {
        StaysMore(y, turns, n);
      }
      x := Served(x, t);
      hide After;
      hide LeavesAt;
      served := served + 1;
    }
  }

  lemma StaysNone(y: System, turns: seq<Turn>)
    requires y.s.Shape()
    ensures Stays(y, turns, 0)
  {}

  /** One turn, as far as the loop is concerned. */
  method ServeOne(ss: SenderSocket, t: Turn) returns (running: bool)
    requires ss.Valid() && CanReport(ss.View(), t.event)
    modifies ss, ss.pendingPackets
    ensures ss.View() == Handle(old(ss.View()), t.event, t.now, t.ok)
    ensures !running <==> Leaves(old(ss.View()), t.event)
    ensures !running ==> ss.eventQuit
  {
    hide Handle;
    running := ss.WorkerTurn(t.event, t.now, t.ok);
  }
}
