/** The sender of the two-thread variant. Send, SendThread and RecvThread interleave inside their handlers: a step makes
    at most one access to memory that another thread touches, so any thread can act between two accesses of another.
    Variables of one thread alone are read and written in the step that needs them. Two steps make two such accesses:
    the flags and the number of a header are written together (SetHeader) and copied together (Start, StartFast), and a
    SendThread that finds the counter above the limit signals quit at once (Decide). */
module TwoThread {
  import opened Common
  import opened Sender
  import opened SlidingWindow

  /** A slot: the size field, the header (Undefined stands for the zeroes Open leaves there, which lack the magic
      number) and the bytes behind it. */
  datatype Cell = Cell(size: nat, seqNo: Field<nat>, buf: Payload)

  /** One datagram: a header and the bytes copied behind it. */
  datatype Frame = Frame(seqNo: Field<nat>, payload: Payload)

  /** A sendto at work on the slot of b, with the header and some bytes copied. `clean` records whether the slot was as
      CopySafe says when it began. */
  datatype Copy = Copy(b: nat, len: nat, head: Field<nat>, got: Payload, clean: bool)

  /** Where Send stands: past its wait, comparing windows, with the smaller one read, with effectiveWindow, the size,
      the header and `done` bytes, all of the payload, or nextSeq written. */
  datatype App =
    | Outside | Credited | Compared | Sampled(e: nat) | Windowed | Sized(data: Payload)
    | Headed(done: nat) | Written | Counted

  /** Where SendThread stands. First the branch of the `full` semaphore, then the timeout: tested, slot b chosen,
      its length read, the counter read, the counter written, about to resend. Then inside sendto, for the first
      transmission or for another. */
  datatype SendPc =
    | Waiting | Picked | Measured(len: nat) | Launched
    | Tested | Chosen(b: nat) | Gauged(b: nat, len: nat) | Counting(b: nat, len: nat, count: nat)
    | Charged(b: nat, len: nat) | Resending(b: nat, len: nat)
    | Copying(c: Copy, first: bool) | Gone(inHand: nat)

  /** Where RecvThread stands. First an ACK above base: accepted, then with effectiveWindow, receiverWindow, base and
      the counters written (`over` is what Send has written to effectiveWindow since), about to release credits. Then
      the third duplicate: length read, counter read, about to resend, inside sendto. */
  datatype RecvPc =
    | Listening
    | Accepted(ack: Ack) | Narrowed(ack: Ack, over: Option<nat>) | Admitted(ack: Ack, over: Option<nat>)
    | Moved(ack: Ack, over: Option<nat>) | Cleared(ack: Ack, over: Option<nat>) | Releasing(slots: int)
    | Third | Sizing(len: nat) | Tallying(len: nat, count: nat) | Firing(len: nat) | Flying(c: Copy) | Left

  datatype Vars = Vars(
    window: nat, base: nat, nextSeq: nat, nextToSend: nat, lastReleased: int, dupAck: nat, retx: nat,
    receiverWindow: nat, effectiveWindow: nat, ring: seq<Cell>, empty: nat, full: nat, quit: bool, wire: seq<Frame>)
  {
    predicate Shape() { 1 <= window && |ring| == window }

    function At(k: nat): Cell
      requires Shape()
    {
      ring[SlotOf(k, window)]
    }

    function With(k: nat, c: Cell): Vars
      requires Shape()
    {
      this.(ring := ring[SlotOf(k, window) := c])
    }
  }

  datatype Duo = Duo(v: Vars, app: App, snd: SendPc, rcv: RecvPc, submitted: seq<Payload>, r: Receiver, acks: set<Ack>)

  /** The application: the steps of Send, and Close signalling eventQuit and resetting it. */
  datatype AppAct =
    | TakeSlot | Compare | Sample | SetWindow | SetSize(data: Payload) | SetHeader | CopyIn(n: nat) | EndCopy | Count
    | SignalFull | SetQuit(on: bool)

  datatype SndAct =
    | PickUp | Measure | Bump
    | Expire | Choose | Gauge | ReadCount | WriteCount | Decide
    | Start | CopyMore(n: nat) | End(ok: bool) | SendLeaves

  datatype RcvAct =
    | Hear(ack: Ack) | Narrow | Admit | Move | Clear | Settle | Release
    | Size | ReadTally | WriteTally | StartFast | CopyFast(n: nat) | EndFast(ok: bool) | HearFails | RecvLeaves

  datatype NetAct = Reach(t: nat) | Output | Reply(wnd: nat)

  datatype Act = OfApp(p: AppAct) | OfSnd(s: SndAct) | OfRcv(q: RcvAct) | OfNet(n: NetAct)

  function Zeros(n: nat): (s: Payload)
    ensures |s| == n
  {
    seq(n, _ => 0)
  }

  /** A slot as Open leaves it. */
  function Blank(): Cell { Cell(0, Undefined, Zeros(MAX_PAYLOAD)) }

  function Opening(window: nat, wnd: nat): (y: Duo)
    requires 1 <= window
    ensures y.v.Shape()
  {
    Duo(Vars(window, 0, 0, 0, Min(window, wnd), 0, 0, wnd, 0, seq(window, _ => Blank()),
             Min(window, wnd), 0, false, []),
        Outside, Waiting, Listening, [], Receiver([], map[], wnd), {})
  }

  function Ind(p: bool): nat { if p then 1 else 0 }

  /** Packets put on the wire for the first time. */
  function SentUpTo(y: Duo): nat { y.v.nextToSend + Ind(y.snd.Launched?) }

  /** How many bytes a sendto copies. */
  function Whole(y: Duo, c: Copy): nat
    requires y.v.Shape()
  {
    Min(c.len, |y.v.At(c.b).buf|)
  }

  // ------------------------------------------------ what each thread can do next

  predicate AppCan(y: Duo, p: AppAct)
    requires y.v.Shape()
  {
    match p
    case TakeSlot => y.app.Outside? && !y.v.quit && 0 < y.v.empty
    case Compare => y.app.Credited?
    case Sample => y.app.Compared?
    case SetWindow => y.app.Sampled?
    case SetSize(data) => y.app.Windowed? && |data| <= MAX_PAYLOAD
    case SetHeader => y.app.Sized?
    case CopyIn(n) => y.app.Headed? && y.submitted != [] && y.app.done + n <= |y.submitted[|y.submitted| - 1]|
    case EndCopy => y.app.Headed? && y.submitted != [] && y.app.done == |y.submitted[|y.submitted| - 1]|
    case Count => y.app.Written?
    case SignalFull => y.app.Counted?
    case SetQuit(_) => y.app.Outside?
  }

  /** A wait that has ended with its timeout stays ended when quit is signalled after it. */
  predicate SndCan(y: Duo, s: SndAct)
    requires y.v.Shape()
  {
    match s
    case PickUp => y.snd.Waiting? && !y.v.quit && 0 < y.v.full
    case Measure => y.snd.Picked?
    case Bump => y.snd.Launched?
    case Expire => y.snd.Waiting? && y.v.base < y.v.nextToSend
    case Choose => y.snd.Tested?
    case Gauge => y.snd.Chosen?
    case ReadCount => y.snd.Gauged?
    case WriteCount => y.snd.Counting?
    case Decide => y.snd.Charged?
    case Start => y.snd.Measured? || y.snd.Resending?
    case CopyMore(n) => y.snd.Copying? && |y.snd.c.got| + n <= Whole(y, y.snd.c)
    case End(ok) => y.snd.Copying? && (ok ==> |y.snd.c.got| == Whole(y, y.snd.c))
    case SendLeaves => y.snd.Waiting? && y.v.quit
  }

  predicate RcvCan(y: Duo, q: RcvAct)
    requires y.v.Shape()
  {
    match q
    case Hear(ack) => y.rcv.Listening? && ack in y.acks
    case Narrow => y.rcv.Accepted?
    case Admit => y.rcv.Narrowed?
    case Move => y.rcv.Admitted?
    case Clear => y.rcv.Moved?
    case Settle => y.rcv.Cleared?
    case Release => y.rcv.Releasing?
    case Size => y.rcv.Third?
    case ReadTally => y.rcv.Sizing?
    case WriteTally => y.rcv.Tallying?
    case StartFast => y.rcv.Firing?
    case CopyFast(n) => y.rcv.Flying? && |y.rcv.c.got| + n <= Whole(y, y.rcv.c)
    case EndFast(ok) => y.rcv.Flying? && (ok ==> |y.rcv.c.got| == Whole(y, y.rcv.c))
    case HearFails => y.rcv.Listening?
    case RecvLeaves => y.rcv.Listening? && y.v.quit
  }

  predicate NetCan(y: Duo, n: NetAct) {
    match n
    case Reach(t) => t < |y.v.wire| && y.v.wire[t].seqNo.Defined?
    case Output => |y.r.delivered| in y.r.held
    case Reply(wnd) => y.r.edge <= |y.r.delivered| + wnd
  }

  /** What the code allows, without any assumption on timing. */
  predicate Can(y: Duo, a: Act)
    requires y.v.Shape()
  {
    match a
    case OfApp(p) => AppCan(y, p)
    case OfSnd(s) => SndCan(y, s)
    case OfRcv(q) => RcvCan(y, q)
    case OfNet(n) => NetCan(y, n)
  }

  // ------------------------------------------------ what it does

  /** RecvThread's history of writes by Send to effectiveWindow. */
  function Overwritten(q: RecvPc, e: nat): RecvPc {
    match q
    case Narrowed(a, _) => Narrowed(a, Some(e))
    case Admitted(a, _) => Admitted(a, Some(e))
    case Moved(a, _) => Moved(a, Some(e))
    case Cleared(a, _) => Cleared(a, Some(e))
    case _ => q
  }

  /** Bytes lo to hi of `data` in the place of those of `buf`. */
  function Copied(data: Payload, buf: Payload, lo: nat, hi: nat): (r: Payload)
    requires lo <= hi <= |data|
    ensures |data| <= |buf| && data[..lo] <= buf ==> |r| == |buf| && data[..hi] <= r
  {
    if |data| <= |buf| then buf[..lo] + data[lo..hi] + buf[hi..] else data
  }

  /** `min` is a macro: it reads receiverWindow once to compare and once more for its value. */
  function AppStep(y: Duo, p: AppAct): (z: Duo)
    requires y.v.Shape() && AppCan(y, p)
    ensures z.v.Shape()
  {
    var v := y.v;
    match p
    case TakeSlot => y.(v := v.(empty := v.empty - 1), app := Credited)
    case Compare => y.(app := if v.window < v.receiverWindow then Sampled(v.window) else Compared)
    case Sample => y.(app := Sampled(v.receiverWindow))
    case SetWindow => y.(v := v.(effectiveWindow := y.app.e), app := Windowed, rcv := Overwritten(y.rcv, y.app.e))
    case SetSize(data) => y.(v := v.With(v.nextSeq, v.At(v.nextSeq).(size := |data|)), app := Sized(data))
    case SetHeader =>
      y.(v := v.With(v.nextSeq, v.At(v.nextSeq).(seqNo := Defined(v.nextSeq))),
         app := Headed(0), submitted := y.submitted + [y.app.data])
    case CopyIn(n) =>
      var c, m := v.At(v.nextSeq), y.app.done;
      y.(v := v.With(v.nextSeq, c.(buf := Copied(y.submitted[|y.submitted| - 1], c.buf, m, m + n))),
         app := Headed(m + n))
    case EndCopy => y.(app := Written)
    case Count => y.(v := v.(nextSeq := v.nextSeq + 1), app := Counted)
    case SignalFull => y.(v := v.(full := Released(v.full, 1, v.window)), app := Outside)
    case SetQuit(on) => y.(v := v.(quit := on))
  }

  function Front(buf: Payload, len: nat): Payload { buf[..Min(len, |buf|)] }

  /** What a slot offers to a sendto of `len` bytes at one moment. */
  function FrameOf(c: Cell, len: nat): Frame { Frame(c.seqNo, Front(c.buf, len)) }

  function Begun(y: Duo, b: nat, len: nat): Copy
    requires y.v.Shape()
  {
    Copy(b, len, y.v.At(b).seqNo, [], CopySafe(y, b, len))
  }

  function Further(y: Duo, c: Copy, n: nat): Copy
    requires y.v.Shape() && |c.got| + n <= Whole(y, c)
  {
    c.(got := c.got + y.v.At(c.b).buf[|c.got|..|c.got| + n])
  }

  function Sent(v: Vars, c: Copy): Vars { v.(wire := v.wire + [Frame(c.head, c.got)]) }

  function SndStep(y: Duo, s: SndAct): (z: Duo)
    requires y.v.Shape() && SndCan(y, s)
    ensures z.v.Shape()
  {
    var v, t := y.v, y.snd;
    match s
    case PickUp => y.(v := v.(full := v.full - 1), snd := Picked)
    case Measure => y.(snd := Measured(v.At(v.nextToSend).size))
    case Bump => y.(v := v.(nextToSend := v.nextToSend + 1), snd := Waiting)
    case Expire => y.(snd := Tested)
    case Choose => y.(snd := Chosen(v.base))
    case Gauge => y.(snd := Gauged(t.b, v.At(t.b).size))
    case ReadCount => y.(snd := Counting(t.b, t.len, v.retx))
    case WriteCount => y.(v := v.(retx := t.count + 1), snd := Charged(t.b, t.len))
    case Decide =>
      if v.retx > MAX_ATTEMPTS then y.(v := v.(quit := true), snd := Gone(0)) else y.(snd := Resending(t.b, t.len))
    case Start =>
      if t.Measured? then y.(snd := Copying(Begun(y, v.nextToSend, t.len), true))
      else y.(snd := Copying(Begun(y, t.b, t.len), false))
    case CopyMore(n) => y.(snd := Copying(Further(y, t.c, n), t.first))
    case End(ok) =>
      if ok then y.(v := Sent(v, t.c), snd := if t.first then Launched else Waiting)
      else y.(v := v.(quit := true), snd := Gone(Ind(t.first)))
    case SendLeaves => y.(snd := Gone(0))
  }

  function RcvStep(y: Duo, q: RcvAct): (z: Duo)
    requires y.v.Shape() && RcvCan(y, q)
    ensures z.v.Shape()
  {
    var v, t := y.v, y.rcv;
    match q
    case Hear(ack) =>
      if v.base < ack.seqNo then y.(rcv := Accepted(ack))
      else if ack.seqNo < v.base then y
      else if v.dupAck == 2 then y.(v := v.(dupAck := 3), rcv := Third)
      else y.(v := v.(dupAck := v.dupAck + 1))
    case Narrow => y.(v := v.(effectiveWindow := Min(v.window, t.ack.wnd)), rcv := Narrowed(t.ack, None))
    case Admit => y.(v := v.(receiverWindow := t.ack.wnd), rcv := Admitted(t.ack, t.over))
    case Move => y.(v := v.(base := t.ack.seqNo), rcv := Moved(t.ack, t.over))
    case Clear => y.(v := v.(retx := 0, dupAck := 0), rcv := Cleared(t.ack, t.over))
    case Settle =>
      var slots := v.base + v.effectiveWindow - v.lastReleased;
      y.(v := v.(lastReleased := v.lastReleased + slots), rcv := Releasing(slots))
    case Release => y.(v := v.(empty := Released(v.empty, t.slots, v.window)), rcv := Listening)
    case Size => y.(rcv := Sizing(v.At(v.base).size))
    case ReadTally => y.(rcv := Tallying(t.len, v.retx))
    case WriteTally => y.(v := v.(retx := t.count + 1), rcv := Firing(t.len))
    case StartFast => y.(rcv := Flying(Begun(y, v.base, t.len)))
    case CopyFast(n) => y.(rcv := Flying(Further(y, t.c, n)))
    case EndFast(ok) => y.(v := if ok then Sent(v, t.c) else v, rcv := Listening)
    case HearFails => y.(v := v.(quit := true), rcv := Left)
    case RecvLeaves => y.(rcv := Left)
  }

  function NetStep(y: Duo, n: NetAct): Duo
    requires NetCan(y, n)
  {
    match n
    case Reach(t) => y.(r := y.r.(held := y.r.held[y.v.wire[t].seqNo.value := y.v.wire[t].payload]))
    case Output => y.(r := y.r.(delivered := y.r.delivered + [y.r.held[|y.r.delivered|]]))
    case Reply(wnd) =>
      var d := |y.r.delivered|;
      y.(acks := y.acks + {Ack(d, wnd)}, r := y.r.(edge := d + wnd))
  }

  function Step2(y: Duo, a: Act): (z: Duo)
    requires y.v.Shape() && Can(y, a)
    ensures z.v.Shape()
  {
    match a
    case OfApp(p) => AppStep(y, p)
    case OfSnd(s) => SndStep(y, s)
    case OfRcv(q) => RcvStep(y, q)
    case OfNet(n) => NetStep(y, n)
  }

  // ------------------------------------------------ what a run has to avoid

  /** The last packet before n whose slot is i. */
  function LastIn(i: nat, n: nat, w: nat): (k: Option<nat>)
    requires 1 <= w
    ensures k.Some? ==> k.value < n && SlotOf(k.value, w) == i
  {
    if n == 0 then None else if SlotOf(n - 1, w) == i then Some(n - 1) else LastIn(i, n - 1, w)
  }

  /** The last packet put into the slot of b has been sent before, and `len` is its length. */
  predicate CopySafe(y: Duo, b: nat, len: nat)
    requires y.v.Shape()
  {
    var k := LastIn(SlotOf(b, y.v.window), |y.submitted|, y.v.window);
    k.Some? && k.value < SentUpTo(y) && len == |y.submitted[k.value]|
  }

  /** Since effectiveWindow was set from the ACK, Send has not put another value there. */
  predicate WindowKept(y: Duo) {
    y.rcv.Cleared? ==> y.rcv.over.None? || y.rcv.over.value == Min(y.v.window, y.rcv.ack.wnd)
  }

  /** The assumption on a run: a resend that goes out began on a slot as CopySafe says, and credits are computed in
      WindowKept states. */
  predicate Timely(y: Duo, a: Act)
    requires y.v.Shape()
  {
    match a
    case OfSnd(End(ok)) => ok && y.snd.Copying? && !y.snd.first ==> y.snd.c.clean
    case OfRcv(EndFast(ok)) => ok && y.rcv.Flying? ==> y.rcv.c.clean
    case OfRcv(Settle) => WindowKept(y)
    case _ => true
  }

  // ------------------------------------------------ runs

  /** Where the code gets by a sequence of steps; None when one of them cannot happen. */
  function Run2(y: Duo, acts: seq<Act>): (z: Option<Duo>)
    requires y.v.Shape()
    ensures z.Some? ==> z.value.v.Shape()
    decreases |acts|
  {
    if acts == [] then Some(y)
    else
      var n := |acts| - 1;
      match Run2(y, acts[..n])
      case None => None
      case Some(x) => if Can(x, acts[n]) then Some(Step2(x, acts[n])) else None
  }

  /** Every step of the run is timely. */
  predicate AllTimely(y: Duo, acts: seq<Act>)
    requires y.v.Shape()
    decreases |acts|
  {
    acts == [] ||
    var n := |acts| - 1;
    AllTimely(y, acts[..n]) && match Run2(y, acts[..n])
                               case None => true
                               case Some(x) => Timely(x, acts[n])
  }
}
