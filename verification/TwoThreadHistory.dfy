/** The shared variables of the two-thread variant told from the list of its steps alone, over every run of the code,
    timely or not. Nothing here looks at the state or at a step function until HistoryHolds compares them. */
module TwoThreadHistory {
  import opened Common
  import opened Sender
  import opened SlidingWindow
  import opened TwoThread

  // ------------------------------------------------ RecvThread

  /** The number of the last ACK that RecvThread has moved base to. */
  function BaseOf(acts: seq<Act>): nat
    decreases |acts|, 0
  {
    if acts == [] then 0
    else
      var init := acts[..|acts| - 1];
      if acts[|acts| - 1] == OfRcv(Move) then InHand(init).seqNo else BaseOf(init)
  }

  /** The last ACK taken whose number was above base then. */
  function InHand(acts: seq<Act>): Ack
    decreases |acts|, 1
  {
    if acts == [] then Ack(0, 0)
    else
      var init := acts[..|acts| - 1];
      match acts[|acts| - 1]
      case OfRcv(Hear(ack)) => if BaseOf(init) < ack.seqNo then ack else InHand(init)
      case _ => InHand(init)
  }

  /** ACKs equal to base since the counters were last cleared. */
  function Repeats(acts: seq<Act>): nat
    decreases |acts|
  {
    if acts == [] then 0
    else
      var init := acts[..|acts| - 1];
      match acts[|acts| - 1]
      case OfRcv(Hear(ack)) => Repeats(init) + Ind(ack.seqNo == BaseOf(init))
      case OfRcv(Clear) => 0
      case _ => Repeats(init)
  }

  /** What RecvThread last did was to take an ACK above base, or one equal to base and the third since the counters were
      cleared. */
  datatype Heard = Nothing | Above | ThirdEqual

  function LastHeard(acts: seq<Act>): Heard
    decreases |acts|
  {
    if acts == [] then Nothing
    else
      var init := acts[..|acts| - 1];
      match acts[|acts| - 1]
      case OfRcv(Hear(ack)) =>
        if BaseOf(init) < ack.seqNo then Above
        else if ack.seqNo == BaseOf(init) && Repeats(acts) == 3 then ThirdEqual
        else Nothing
      case OfRcv(_) => Nothing
      case _ => LastHeard(init)
  }

  function Advertised(wnd: nat, acts: seq<Act>): nat
    decreases |acts|
  {
    if acts == [] then wnd
    else
      var init := acts[..|acts| - 1];
      if acts[|acts| - 1] == OfRcv(Admit) then InHand(init).wnd else Advertised(wnd, init)
  }

  // ------------------------------------------------ the counter that both threads increment

  function Least(a: nat, b: nat): nat { if a < b then a else b }

  /** The value each thread last read, and the value of the counter. */
  function ReadBySend(acts: seq<Act>): nat
    decreases |acts|
  {
    if acts == [] then 0
    else
      var init := acts[..|acts| - 1];
      if acts[|acts| - 1] == OfSnd(ReadCount) then Retries(init) else ReadBySend(init)
  }

  function ReadByRecv(acts: seq<Act>): nat
    decreases |acts|
  {
    if acts == [] then 0
    else
      var init := acts[..|acts| - 1];
      if acts[|acts| - 1] == OfRcv(ReadTally) then Retries(init) else ReadByRecv(init)
  }

  function Retries(acts: seq<Act>): nat
    decreases |acts|
  {
    if acts == [] then 0
    else
      var init := acts[..|acts| - 1];
      match acts[|acts| - 1]
      case OfRcv(Clear) => 0
      case OfSnd(WriteCount) => ReadBySend(init) + 1
      case OfRcv(WriteTally) => ReadByRecv(init) + 1
      case _ => Retries(init)
  }

  // ------------------------------------------------ credits and windows

  /** What Send last computed as the smaller window: it reads the receiver's window twice. */
  function Smaller(window: nat, wnd: nat, acts: seq<Act>): nat
    decreases |acts|
  {
    if acts == [] then 0
    else
      var init := acts[..|acts| - 1];
      var heard := Advertised(wnd, init);
      match acts[|acts| - 1]
      case OfApp(Compare) => if window < heard then window else Smaller(window, wnd, init)
      case OfApp(Sample) => heard
      case _ => Smaller(window, wnd, init)
  }

  function Effective(window: nat, wnd: nat, acts: seq<Act>): nat
    decreases |acts|
  {
    if acts == [] then 0
    else
      var init := acts[..|acts| - 1];
      match acts[|acts| - 1]
      case OfApp(SetWindow) => Smaller(window, wnd, init)
      case OfRcv(Narrow) => Least(window, InHand(init).wnd)
      case _ => Effective(window, wnd, init)
  }

  /** The right edge at the last computation of credits. */
  function Edge(window: nat, wnd: nat, acts: seq<Act>): nat
    decreases |acts|
  {
    if acts == [] then Least(window, wnd)
    else
      var init := acts[..|acts| - 1];
      if acts[|acts| - 1] == OfRcv(Settle) then BaseOf(init) + Effective(window, wnd, init) else Edge(window, wnd, init)
  }

  /** By how much it moved. */
  function EdgeMove(window: nat, wnd: nat, acts: seq<Act>): int
    decreases |acts|
  {
    if acts == [] then 0
    else
      var init := acts[..|acts| - 1];
      if acts[|acts| - 1] == OfRcv(Settle) then Edge(window, wnd, acts) - Edge(window, wnd, init)
      else EdgeMove(window, wnd, init)
  }

  function Credits(window: nat, wnd: nat, acts: seq<Act>): int
    decreases |acts|
  {
    if acts == [] then Least(window, wnd)
    else
      var init := acts[..|acts| - 1];
      var before := Credits(window, wnd, init);
      match acts[|acts| - 1]
      case OfApp(TakeSlot) => before - 1
      case OfRcv(Release) =>
        var move := EdgeMove(window, wnd, init);
        if 0 < move && before + move <= window then before + move else before
      case _ => before
  }

  /** Packets signalled to SendThread and not picked up; the semaphore refuses to count above the window. */
  function Queued(window: nat, acts: seq<Act>): int
    decreases |acts|
  {
    if acts == [] then 0
    else
      var before := Queued(window, acts[..|acts| - 1]);
      match acts[|acts| - 1]
      case OfApp(SignalFull) => if before < window then before + 1 else before
      case OfSnd(PickUp) => before - 1
      case _ => before
  }

  // ------------------------------------------------ counts and quit

  function CountOf(a: Act, acts: seq<Act>): nat
    decreases |acts|
  {
    if acts == [] then 0 else CountOf(a, acts[..|acts| - 1]) + Ind(acts[|acts| - 1] == a)
  }

  /** Successful sendto calls. */
  function Departed(acts: seq<Act>): nat
    decreases |acts|
  {
    if acts == [] then 0
    else
      var a := acts[|acts| - 1];
      Departed(acts[..|acts| - 1]) + Ind(a == OfSnd(End(true)) || a == OfRcv(EndFast(true)))
  }

  /** Close signals the event and resets it. A failed sendto of SendThread, a failed receive, and a decision with more
      than 50 retries counted signal it; a failed sendto of RecvThread does not. */
  predicate Quit(acts: seq<Act>)
    decreases |acts|
  {
    acts != [] &&
    var init := acts[..|acts| - 1];
    match acts[|acts| - 1]
    case OfApp(SetQuit(on)) => on
    case OfSnd(End(false)) => true
    case OfSnd(Decide) => Quit(init) || 50 < Retries(init)
    case OfRcv(HearFails) => true
    case _ => Quit(init)
  }

  // ------------------------------------------------ the comparison

  /** What the threads carry from one step to another. */
  predicate Carried(y: Duo, window: nat, wnd: nat, acts: seq<Act>) {
    && (y.rcv.Accepted? || y.rcv.Narrowed? || y.rcv.Admitted? || y.rcv.Moved? || y.rcv.Cleared? ==>
          y.rcv.ack == InHand(acts))
    && (y.rcv.Tallying? ==> y.rcv.count == ReadByRecv(acts))
    && (y.rcv.Releasing? ==> y.rcv.slots == EdgeMove(window, wnd, acts))
    && (y.snd.Counting? ==> y.snd.count == ReadBySend(acts))
    && (y.app.Sampled? ==> y.app.e == Smaller(window, wnd, acts))
    && (y.rcv.Accepted? <==> LastHeard(acts) == Above)
    && (y.rcv.Third? <==> LastHeard(acts) == ThirdEqual)
  }

  predicate Told(v: Vars, window: nat, wnd: nat, acts: seq<Act>) {
    ToldAcks(v, window, wnd, acts) && ToldWindow(v, window, wnd, acts)
  }

  predicate ToldAcks(v: Vars, window: nat, wnd: nat, acts: seq<Act>) {
    && v.window == window && v.base == BaseOf(acts) && v.receiverWindow == Advertised(wnd, acts)
    && v.dupAck == Repeats(acts) && v.retx == Retries(acts) && v.quit == Quit(acts)
  }

  predicate ToldWindow(v: Vars, window: nat, wnd: nat, acts: seq<Act>) {
    && v.nextSeq == CountOf(OfApp(Count), acts) && v.nextToSend == CountOf(OfSnd(Bump), acts)
    && v.effectiveWindow == Effective(window, wnd, acts) && v.lastReleased == Edge(window, wnd, acts)
    && v.empty == Credits(window, wnd, acts) && v.full == Queued(window, acts)
    && |v.wire| == Departed(acts)
  }

  lemma ToldApp(y: Duo, p: AppAct, window: nat, wnd: nat, acts: seq<Act>)
    requires y.v.Shape() && AppCan(y, p) && acts != [] && acts[|acts| - 1] == OfApp(p)
    requires Told(y.v, window, wnd, acts[..|acts| - 1]) && Carried(y, window, wnd, acts[..|acts| - 1])
    ensures Told(AppStep(y, p).v, window, wnd, acts)
  {
    hide SlotOf;
    hide CopySafe;
    hide Copied;
    hide Front;
  }

  lemma CarriedApp(y: Duo, p: AppAct, window: nat, wnd: nat, acts: seq<Act>)
    requires y.v.Shape() && AppCan(y, p) && acts != [] && acts[|acts| - 1] == OfApp(p)
    requires Told(y.v, window, wnd, acts[..|acts| - 1]) && Carried(y, window, wnd, acts[..|acts| - 1])
    ensures Carried(AppStep(y, p), window, wnd, acts)
  {
    hide SlotOf;
    hide CopySafe;
    hide Copied;
    hide Front;
  }

  lemma ToldSnd(y: Duo, s: SndAct, window: nat, wnd: nat, acts: seq<Act>)
    requires y.v.Shape() && SndCan(y, s) && acts != [] && acts[|acts| - 1] == OfSnd(s)
    requires Told(y.v, window, wnd, acts[..|acts| - 1]) && Carried(y, window, wnd, acts[..|acts| - 1])
    ensures Told(SndStep(y, s).v, window, wnd, acts)
  {
    hide SlotOf;
    hide CopySafe;
    hide Copied;
    hide Front;
  }

  lemma CarriedSnd(y: Duo, s: SndAct, window: nat, wnd: nat, acts: seq<Act>)
    requires y.v.Shape() && SndCan(y, s) && acts != [] && acts[|acts| - 1] == OfSnd(s)
    requires Told(y.v, window, wnd, acts[..|acts| - 1]) && Carried(y, window, wnd, acts[..|acts| - 1])
    ensures Carried(SndStep(y, s), window, wnd, acts)
  {
    hide SlotOf;
    hide CopySafe;
    hide Copied;
    hide Front;
  }

  lemma ToldAcksRcv(y: Duo, q: RcvAct, window: nat, wnd: nat, acts: seq<Act>)
    requires y.v.Shape() && RcvCan(y, q) && acts != [] && acts[|acts| - 1] == OfRcv(q)
    requires Told(y.v, window, wnd, acts[..|acts| - 1]) && Carried(y, window, wnd, acts[..|acts| - 1])
    ensures ToldAcks(RcvStep(y, q).v, window, wnd, acts)
  {
    hide SlotOf;
    hide CopySafe;
    hide Copied;
    hide Front;
  }

  lemma ToldWindowRcv(y: Duo, q: RcvAct, window: nat, wnd: nat, acts: seq<Act>)
    requires y.v.Shape() && RcvCan(y, q) && acts != [] && acts[|acts| - 1] == OfRcv(q)
    requires Told(y.v, window, wnd, acts[..|acts| - 1]) && Carried(y, window, wnd, acts[..|acts| - 1])
    ensures ToldWindow(RcvStep(y, q).v, window, wnd, acts)
  {
    hide SlotOf;
    hide CopySafe;
    hide Copied;
    hide Front;
  }

  lemma CarriedRcv(y: Duo, q: RcvAct, window: nat, wnd: nat, acts: seq<Act>)
    requires y.v.Shape() && RcvCan(y, q) && acts != [] && acts[|acts| - 1] == OfRcv(q)
    requires Told(y.v, window, wnd, acts[..|acts| - 1]) && Carried(y, window, wnd, acts[..|acts| - 1])
    ensures Carried(RcvStep(y, q), window, wnd, acts)
  {
    hide SlotOf;
    hide CopySafe;
    hide Copied;
    hide Front;
  }

  lemma ToldNet(y: Duo, n: NetAct, window: nat, wnd: nat, acts: seq<Act>)
    requires NetCan(y, n) && acts != [] && acts[|acts| - 1] == OfNet(n)
    requires Told(y.v, window, wnd, acts[..|acts| - 1]) && Carried(y, window, wnd, acts[..|acts| - 1])
    ensures Told(NetStep(y, n).v, window, wnd, acts)
  {
  }

  lemma CarriedNet(y: Duo, n: NetAct, window: nat, wnd: nat, acts: seq<Act>)
    requires NetCan(y, n) && acts != [] && acts[|acts| - 1] == OfNet(n)
    requires Told(y.v, window, wnd, acts[..|acts| - 1]) && Carried(y, window, wnd, acts[..|acts| - 1])
    ensures Carried(NetStep(y, n), window, wnd, acts)
  {
  }

  lemma AgreeStep(y: Duo, a: Act, window: nat, wnd: nat, acts: seq<Act>)
    requires y.v.Shape() && Can(y, a) && acts != [] && acts[|acts| - 1] == a
    requires Told(y.v, window, wnd, acts[..|acts| - 1]) && Carried(y, window, wnd, acts[..|acts| - 1])
    ensures Told(Step2(y, a).v, window, wnd, acts) && Carried(Step2(y, a), window, wnd, acts)
  {
    hide ToldAcks;
    hide ToldWindow;
    hide Carried;
    match a
    case OfApp(p) =>
      ToldApp(y, p, window, wnd, acts);
      CarriedApp(y, p, window, wnd, acts);
    case OfSnd(s) =>
      ToldSnd(y, s, window, wnd, acts);
      CarriedSnd(y, s, window, wnd, acts);
    case OfRcv(q) =>
      ToldAcksRcv(y, q, window, wnd, acts);
      ToldWindowRcv(y, q, window, wnd, acts);
      CarriedRcv(y, q, window, wnd, acts);
    case OfNet(n) =>
      ToldNet(y, n, window, wnd, acts);
      CarriedNet(y, n, window, wnd, acts);
  }

  /** Over every run of the code: base, both windows, the duplicate and retry counters, the credits, the queue count,
      quit, and how many datagrams went out are what the steps so far say. In particular RecvThread begins a resend at
      the third ACK equal to base since the counters were cleared and at no other, and an ACK below base changes
      nothing. */
  lemma {:induction false} HistoryHolds(window: nat, wnd: nat, acts: seq<Act>)
    requires 1 <= window && Run2(Opening(window, wnd), acts).Some?
    ensures var y := Run2(Opening(window, wnd), acts).value;
      Told(y.v, window, wnd, acts) && Carried(y, window, wnd, acts)
    decreases |acts|
  {
    hide Told;
    hide Carried;
    hide Can;
    hide Step2;
    if acts == [] {
      NothingTold(window, wnd);
    } else {
      hide Opening;
      var n := |acts| - 1;
      HistoryHolds(window, wnd, acts[..n]);
      var x := Run2(Opening(window, wnd), acts[..n]).value;
      AgreeStep(x, acts[n], window, wnd, acts);
    }
  }

  lemma NothingTold(window: nat, wnd: nat)
    requires 1 <= window
    ensures Told(Opening(window, wnd).v, window, wnd, []) && Carried(Opening(window, wnd), window, wnd, [])
  {}
}
