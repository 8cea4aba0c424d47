/** The two timing assumptions of the two-thread variant: exactly when they are needed, and runs of the code that end
    badly without them. */
module TwoThreadTiming {
  import opened Common
  import opened Sender
  import opened SlidingWindow
  import opened TwoThread
  import opened TwoThreadSafe

  lemma LastInOwn(b: nat, n: nat, w: nat)
    requires 1 <= w
    ensures LastIn(SlotOf(b, w), n, w) == Some(b) <==> b < n <= b + w
  {
    var i := SlotOf(b, w);
    assert i <= b;
    LastInIsLast(i, n, w);
    var k := LastIn(i, n, w);
    hide SlotOf;
    hide LastIn;
    if k.Some? && b < n <= b + w {
      SameSlot(k.value, b, w);
    }
  }

  /** A resend sends packet b itself if and only if packet b has been sent, fewer than `window` packets have been put
      into the ring since, and the length read is that of packet b. */
  lemma OwnCopyExact(y: Duo, b: nat, len: nat)
    requires Safe2(y) && len <= MAX_PAYLOAD
    ensures var f := FrameOf(y.v.At(b), len);
      True2(f, y.submitted, SentUpTo(y)) && f.seqNo == Defined(b) <==>
      b < SentUpTo(y) && |y.submitted| <= b + y.v.window && len == |y.submitted[b]|
  {
    var w, n := y.v.window, |y.submitted|;
    CopyExact(y, b, len);
    LastInOwn(b, n, w);
    LastInIsLast(SlotOf(b, w), n, w);
    var k := LastIn(SlotOf(b, w), n, w);
    if k.Some? {
      assert CellFor(y, k.value);
    }
    hide SlotOf;
    hide LastIn;
    hide Cells;
    hide Memory;
    hide Wire2;
    hide Acks2;
  }

  // ------------------------------------------------ a timeout while base stays where it is

  /** RecvThread does not move base. */
  predicate BaseStays(acts: seq<Act>) { forall k :: 0 <= k < |acts| ==> acts[k] != OfRcv(Move) }

  /** What SendThread has in hand belongs to packet b, which is outstanding. */
  predicate Prompt(y: Duo, b: nat) {
    && y.v.base == b < y.v.nextToSend <= |y.submitted|
    && match y.snd
       case Chosen(c) => c == b
       case Gauged(c, len) => c == b && len == |y.submitted[b]|
       case Counting(c, len, _) => c == b && len == |y.submitted[b]|
       case Charged(c, len) => c == b && len == |y.submitted[b]|
       case Resending(c, len) => c == b && len == |y.submitted[b]|
       case Copying(c, first) => first || c.clean
       case _ => true
  }

  lemma PromptCopy(y: Duo, b: nat)
    requires Safe2(y) && y.v.base == b < y.v.nextToSend
    ensures b < |y.submitted| && CopySafe(y, b, |y.submitted[b]|) && y.v.At(b).size == |y.submitted[b]|
  {
    LastInOwn(b, |y.submitted|, y.v.window);
    assert CellFor(y, b);
    hide SlotOf;
    hide LastIn;
    hide Cells;
    hide Memory;
    hide Wire2;
  }

  lemma PromptSnd(y: Duo, s: SndAct, b: nat)
    requires y.v.Shape() && SndCan(y, s) && Prompt(y, b)
    requires CopySafe(y, b, |y.submitted[b]|) && y.v.At(b).size == |y.submitted[b]|
    requires SentUpTo(y) + Ind(y.snd.Copying? && y.snd.first) <= |y.submitted|
    ensures Prompt(SndStep(y, s), b)
  {
    SndFrame(y, s);
    hide SlotOf;
    hide CopySafe;
  }

  lemma PromptStep(y: Duo, a: Act, b: nat)
    requires Safe2(y) && y.v.Shape() && Can(y, a) && a != OfRcv(Move) && Prompt(y, b)
    ensures Prompt(Step2(y, a), b)
  {
    PromptCopy(y, b);
    match a {
      case OfSnd(s) => PromptSnd(y, s, b); hide SndStep;
      case OfRcv(q) => RcvFrame(y, q); PromptRcv(y, q); hide RcvStep; hide RcvCan;
      case OfNet(n) => NetFrame(y, n); hide NetStep; hide NetCan;
      case OfApp(p) => AppGrows(y, p); hide AppStep; hide AppCan;
    }
    hide SlotOf;
    hide CopySafe;
    hide Ring2;
    hide Wire2;
    hide Acks2;
  }

  lemma PromptRcv(y: Duo, q: RcvAct)
    requires y.v.Shape() && RcvCan(y, q) && q != Move
    ensures RcvStep(y, q).v.base == y.v.base
  {
    hide SlotOf;
    hide CopySafe;
  }

  /** From line 66, which has found packet b outstanding, to the end of sendto: as long as base stays b, the resend is
      timely. It can be untimely only if RecvThread moved base in between. */
  lemma {:induction false} PromptResend(y: Duo, acts: seq<Act>)
    requires y.v.Shape() && Safe2(y) && SndCan(y, Expire)
    requires Run2(y, acts).Some? && AllTimely(y, acts) && BaseStays(acts)
    ensures var z := Run2(y, acts).value; Prompt(z, y.v.base) && Timely(z, OfSnd(End(true)))
    ensures var z := Run2(y, acts).value; z.snd.Resending? ==> CopySafe(z, z.snd.b, z.snd.len)
    decreases |acts|
  {
    hide Step2;
    hide Can;
    hide CopySafe;
    if acts == [] {
      PromptCopy(y, y.v.base);
    } else {
      hide Safe2;
      var n := |acts| - 1;
      PromptResend(y, acts[..n]);
      Run2Safe(y, acts[..n]);
      PromptStep(Run2(y, acts[..n]).value, acts[n], y.v.base);
      Run2Safe(y, acts);
      PromptCopy(Run2(y, acts).value, y.v.base);
    }
  }

  // ------------------------------------------------ credits

  /** Credits computed from an ACK keep the books if and only if effectiveWindow still is what the ACK made it, or Send
      has put the same value there. */
  lemma SettleExact(y: Duo)
    requires Safe2(y) && y.rcv.Cleared?
    ensures Books(RcvStep(y, Settle)) <==> WindowKept(y)
  {
    if WindowKept(y) {
      RcvBooks(y, Settle);
    }
    hide SlotOf;
  }

  // ------------------------------------------------ a receiver whose window does not change

  /** Every window the sender has seen or is working with is c. */
  ghost predicate Steady(y: Duo, c: nat) {
    var m := Min(y.v.window, c);
    && y.v.receiverWindow == c
    && (forall a :: a in y.acks ==> a.wnd == c)
    && (y.app.Compared? ==> c <= y.v.window)
    && (y.app.Sampled? ==> y.app.e == m)
    && match y.rcv
       case Accepted(a) => a.wnd == c
       case Narrowed(a, over) => a.wnd == c && Latest(over, m) == m
       case Admitted(a, over) => a.wnd == c && Latest(over, m) == m
       case Moved(a, over) => a.wnd == c && Latest(over, m) == m
       case Cleared(a, over) => a.wnd == c && Latest(over, m) == m
       case _ => true
  }

  predicate RepliesWith(acts: seq<Act>, c: nat) {
    forall k :: 0 <= k < |acts| && acts[k].OfNet? && acts[k].n.Reply? ==> acts[k].n.wnd == c
  }

  lemma SteadyApp(y: Duo, p: AppAct, c: nat)
    requires y.v.Shape() && AppCan(y, p) && Steady(y, c)
    ensures Steady(AppStep(y, p), c)
  {
    hide SlotOf;
    hide Copied;
  }

  lemma SteadyRcv(y: Duo, q: RcvAct, c: nat)
    requires y.v.Shape() && RcvCan(y, q) && Steady(y, c)
    ensures Steady(RcvStep(y, q), c)
  {
    RcvFrame(y, q);
    if !Moves(q) {
      RcvIdle(y, q);
    }
    hide SlotOf;
    hide CopySafe;
  }

  lemma SteadyStep(y: Duo, a: Act, c: nat)
    requires y.v.Shape() && Can(y, a) && Steady(y, c) && (a.OfNet? && a.n.Reply? ==> a.n.wnd == c)
    ensures Steady(Step2(y, a), c)
  {
    match a
    case OfApp(p) => SteadyApp(y, p, c); hide AppStep; hide AppCan;
    case OfSnd(s) => SndFrame(y, s); hide SndStep; hide SndCan;
    case OfRcv(q) => SteadyRcv(y, q, c); hide RcvStep; hide RcvCan;
    case OfNet(n) =>
  }

  /** If the receiver always advertises the same window, credits are computed in WindowKept states only. */
  lemma {:induction false} SteadyWindow(window: nat, c: nat, acts: seq<Act>)
    requires 1 <= window && Run2(Opening(window, c), acts).Some? && RepliesWith(acts, c)
    ensures var y := Run2(Opening(window, c), acts).value; Steady(y, c) && WindowKept(y)
    decreases |acts|
  {
    if acts != [] {
      hide Opening;
      hide Can;
      hide Step2;
      hide Steady;
      var n := |acts| - 1;
      SteadyWindow(window, c, acts[..n]);
      SteadyStep(Run2(Opening(window, c), acts[..n]).value, acts[n], c);
      SteadyKept(Run2(Opening(window, c), acts).value, c);
    }
  }

  lemma SteadyKept(y: Duo, c: nat)
    requires Steady(y, c)
    ensures WindowKept(y)
  {}
}
