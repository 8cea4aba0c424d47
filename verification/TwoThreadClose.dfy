/** Close of the two-thread variant: the wait for the last ACK beside the running threads, then the FIN loop. */
module TwoThreadClose {
  import opened Common
  import opened Sender
  import opened SlidingWindow
  import opened TwoThread
  import opened TwoThreadSafe

  // ------------------------------------------------ while the application is in Close

  /** No step of Send. */
  predicate Quiet(acts: seq<Act>) { forall k :: 0 <= k < |acts| ==> !acts[k].OfApp? || acts[k].p.SetQuit? }

  /** The other threads get from y to z. */
  ghost predicate Beside(y: Duo, z: Duo)
    requires y.v.Shape()
  {
    exists acts :: Quiet(acts) && Run2(y, acts) == Some(z) && AllTimely(y, acts)
  }

  ghost predicate Observed(window: nat, wnd: nat, y: Duo)
    requires 1 <= window
  {
    exists acts :: Run2(Opening(window, wnd), acts) == Some(y) && AllTimely(Opening(window, wnd), acts)
  }

  predicate SameSubmitted(y: Duo, z: Duo) {
    z.v.nextSeq == y.v.nextSeq && z.submitted == y.submitted && z.app == y.app && y.v.base <= z.v.base
  }

  lemma QuietStep(y: Duo, a: Act)
    requires y.v.Shape() && Safe2(y) && Can(y, a) && (!a.OfApp? || a.p.SetQuit?)
    ensures SameSubmitted(y, Step2(y, a))
  {
    hide Ring2;
    hide Wire2;
    hide Receiver2;
    hide Acks2;
    match a
    case OfApp(p) =>
    case OfSnd(s) => SndFrame(y, s);
    case OfRcv(q) => RcvFrame(y, q);
    case OfNet(n) => NetFrame(y, n);
  }

  lemma {:induction false} QuietRun(y: Duo, acts: seq<Act>)
    requires y.v.Shape() && Safe2(y) && Quiet(acts) && Run2(y, acts).Some? && AllTimely(y, acts)
    ensures var z := Run2(y, acts).value; Safe2(z) && SameSubmitted(y, z)
    decreases |acts|
  {
    hide Step2;
    hide Can;
    hide Timely;
    hide Safe2;
    if acts != [] {
      var n := |acts| - 1;
      QuietRun(y, acts[..n]);
      var x := Run2(y, acts[..n]).value;
      Step2Safe(x, acts[n]);
      QuietStep(x, acts[n]);
    }
  }

  lemma BesideSafe(y: Duo, z: Duo)
    requires y.v.Shape() && Safe2(y) && Beside(y, z)
    ensures z.v.Shape() && Safe2(z) && SameSubmitted(y, z)
  {
    hide Safe2;
    hide SameSubmitted;
    var acts :| Quiet(acts) && Run2(y, acts) == Some(z) && AllTimely(y, acts);
    QuietRun(y, acts);
  }

  lemma ObservedSafe(window: nat, wnd: nat, y: Duo)
    requires 1 <= window && Observed(window, wnd, y)
    ensures y.v.Shape() && Safe2(y)
  {
    hide Safe2;
    hide Opening;
    var acts :| Run2(Opening(window, wnd), acts) == Some(y) && AllTimely(Opening(window, wnd), acts);
    OpeningSafe(window, wnd);
    Run2Safe(Opening(window, wnd), acts);
  }

  // ------------------------------------------------ the wait for the last ACK

  /** One turn of the wait: the state when base is compared, and whether the wait that follows reports quit. */
  datatype Look = Look(y: Duo, quit: bool)

  predicate Done(l: Look) { l.y.v.nextSeq <= l.y.v.base }

  /** The turns start in y and follow one another beside Close. */
  ghost predicate Follow(y: Duo, looks: seq<Look>)
    requires y.v.Shape()
  {
    && (forall k :: 0 <= k < |looks| ==> looks[k].y.v.Shape())
    && (looks != [] ==> Beside(y, looks[0].y))
    && (forall k :: 1 <= k < |looks| ==> Beside(looks[k - 1].y, looks[k].y))
  }

  /** Every turn before the k-th goes on waiting. */
  predicate Waits(looks: seq<Look>, k: nat)
    requires k <= |looks|
  {
    forall j :: 0 <= j < k ==> !Done(looks[j]) && !looks[j].quit
  }

  /** The wait of Close. `turn` is the one that ends it; `acked` says that it ended because all is acknowledged. */
  method AwaitAcks(looks: seq<Look>) returns (turn: nat, acked: bool)
    ensures turn <= |looks| && Waits(looks, turn)
    ensures turn < |looks| ==> Done(looks[turn]) || looks[turn].quit
    ensures acked <==> turn < |looks| && Done(looks[turn])
  {
    turn := 0;
    while turn < |looks| && looks[turn].y.v.base < looks[turn].y.v.nextSeq
      invariant turn <= |looks| && Waits(looks, turn)
    {
      if looks[turn].quit {
        return turn, false;
      }
      turn := turn + 1;
    }
    acked := turn < |looks|;
  }

  lemma {:induction false} LooksSafe(y: Duo, looks: seq<Look>, k: nat)
    requires y.v.Shape() && Safe2(y) && Follow(y, looks) && k < |looks|
    ensures Safe2(looks[k].y) && SameSubmitted(y, looks[k].y)
  {
    hide Safe2;
    hide Beside;
    if k == 0 {
      BesideSafe(y, looks[0].y);
    } else {
      LooksSafe(y, looks, k - 1);
      BesideSafe(looks[k - 1].y, looks[k].y);
    }
  }

  /** Once all is acknowledged the receiver has put out everything, and base stays at nextSeq. */
  lemma AllArrived(y: Duo, z: Duo, fin: Duo)
    requires y.v.Shape() && z.v.Shape() && Safe2(z) && SameSubmitted(y, z) && y.app.Outside?
    requires z.v.nextSeq <= z.v.base && Beside(z, fin)
    ensures fin.v.base == y.v.nextSeq == |y.submitted| && fin.r.delivered == y.submitted
  {
    BesideSafe(z, fin);
    SafeIsKept(fin);
    hide Safe2;
    hide SlotOf;
  }

  // ------------------------------------------------ the FIN loop

  datatype FinReply = FinReply(fin: bool, ack: bool, magic: nat)

  /** What one turn of the FIN loop runs into. */
  datatype CloseEvent = SendFailed | QuitSeen | NoAnswer | WouldBlock | ReceiveFailed | Received(d: FinReply)

  predicate FinAck(e: CloseEvent) { e.Received? && e.d.fin && e.d.ack && e.d.magic == 0x8311AA }

  /** Events that end the loop by themselves. */
  predicate Ends(e: CloseEvent) { e.SendFailed? || e.QuitSeen? || e.ReceiveFailed? || FinAck(e) }

  function Unanswered(events: seq<CloseEvent>): nat
    decreases |events|
  {
    if events == [] then 0
    else Unanswered(events[..|events| - 1]) + (if events[|events| - 1].NoAnswer? then 1 else 0)
  }

  /** The event at k is the 50th FIN without an answer. */
  predicate GivesUp(events: seq<CloseEvent>, k: nat)
    requires k < |events|
  {
    events[k].NoAnswer? && Unanswered(events[..k]) == 49
  }

  /** The loop reaches its k-th event. */
  predicate Going(events: seq<CloseEvent>, k: nat)
    requires k <= |events|
  {
    forall j :: 0 <= j < k ==> !Ends(events[j]) && !GivesUp(events, j)
  }

  /** The event at k, when the loop reaches it, ends it with this status. */
  predicate Decides(events: seq<CloseEvent>, k: nat, status: Status)
    requires k < |events|
  {
    Going(events, k) &&
    match status
    case STATUS_OK => FinAck(events[k])
    case TIMEOUT => GivesUp(events, k)
    case FAILED_SEND => events[k].SendFailed? || events[k].QuitSeen?
    case FAILED_RECV => events[k].ReceiveFailed?
  }

  predicate Ended(events: seq<CloseEvent>, status: Status) {
    exists k :: 0 <= k < |events| && Decides(events, k, status)
  }

  /** At most one event decides. */
  lemma DecidesOnce(events: seq<CloseEvent>, k: nat, status: Status)
    requires k < |events| && Decides(events, k, status)
    ensures forall s :: Ended(events, s) <==> s == status
    ensures !Going(events, |events|)
  {
    forall s | Ended(events, s) ensures s == status {
      var j :| 0 <= j < |events| && Decides(events, j, s);
      assert Ends(events[j]) || GivesUp(events, j);
      assert Ends(events[k]) || GivesUp(events, k);
    }
  }

  /** The FIN loop; None when the events run out before it ends. */
  method FinLoop(events: seq<CloseEvent>) returns (status: Option<Status>)
    ensures forall s :: status == Some(s) <==> Ended(events, s)
    ensures status == None <==> Going(events, |events|)
  {
    var currAttempt, n := 0, 0;
    status := None;
    while currAttempt < MAX_ATTEMPTS
      invariant n <= |events| && currAttempt == Unanswered(events[..n]) <= MAX_ATTEMPTS
      invariant currAttempt < MAX_ATTEMPTS ==> Going(events, n)
      invariant currAttempt == MAX_ATTEMPTS ==> 0 < n && Decides(events, n - 1, TIMEOUT)
      invariant status == None
      decreases |events| - n
    {
      if n == |events| {
        return;
      }
      var e := events[n];
      assert events[..n + 1][..n] == events[..n];
      match e {
        case SendFailed => status := Some(FAILED_SEND);
        case QuitSeen => status := Some(FAILED_SEND);
        case NoAnswer => currAttempt := currAttempt + 1;
        case WouldBlock =>
        case ReceiveFailed => status := Some(FAILED_RECV);
        case Received(d) =>
          if d.fin && d.ack && d.magic == MAGIC_PROTOCOL {
            status := Some(STATUS_OK);
          }
      }
      if status.Some? {
        DecidesOnce(events, n, status.value);
        return;
      }
      n := n + 1;
    }
    DecidesOnce(events, n - 1, TIMEOUT);
    status := Some(TIMEOUT);
  }

  // ------------------------------------------------ Close

  /** The k-th turn of the wait is the one that ends it. */
  predicate EndsWait(looks: seq<Look>, k: nat)
    requires k < |looks|
  {
    Waits(looks, k) && (Done(looks[k]) || looks[k].quit)
  }

  /** Called in state y, outside Send. `looks` are the turns of its wait, `fin` is the state in which the FIN gets its
      number, and `events` are what the FIN loop meets; None stands for waiting still. The FIN is sent exactly when the
      wait ends acknowledged. It carries nextSeq, and the receiver has put out all that was submitted. */
  method Close(ghost window: nat, ghost wnd: nat, y: Duo, looks: seq<Look>, fin: Duo, events: seq<CloseEvent>)
    returns (status: Option<Status>, finSeq: Option<nat>)
    requires 1 <= window && y.v.Shape() && Observed(window, wnd, y) && y.app.Outside? && Follow(y, looks)
    requires forall k :: 0 <= k < |looks| && Done(looks[k]) ==> Beside(looks[k].y, fin)
    ensures finSeq.Some? <==> exists k :: 0 <= k < |looks| && EndsWait(looks, k) && Done(looks[k])
    ensures finSeq.Some? ==> finSeq.value == y.v.nextSeq == |y.submitted| && fin.r.delivered == y.submitted
    ensures finSeq.Some? ==> forall s :: status == Some(s) <==> Ended(events, s)
    ensures finSeq.Some? ==> (status == None <==> Going(events, |events|))
    ensures finSeq.None? ==> status == if Waits(looks, |looks|) then None else Some(TIMEOUT)
  {
    hide Beside;
    hide Observed;
    hide Ended;
    hide Going;
    var turn, acked := AwaitAcks(looks);
    assert turn < |looks| ==> EndsWait(looks, turn);
    assert forall k :: 0 <= k < |looks| && EndsWait(looks, k) ==> k == turn;
    if !acked {
      return if turn < |looks| then Some(TIMEOUT) else None, None;
    }
    ObservedSafe(window, wnd, y);
    LooksSafe(y, looks, turn);
    AllArrived(y, looks[turn].y, fin);
    hide Safe2;
    finSeq := Some(fin.v.base);
    status := FinLoop(events);
  }
}
