/** The state of SenderSocket and what each of its handlers does to it, as functions.
    The class in SenderSocket.dfy is proved to compute exactly these. */
module Sender {
  import Rtt
  import opened Common

  const MAX_ATTEMPTS: nat := 50
  const MAX_PKT_SIZE: nat := 1472
  const HEADER_SIZE: nat := 8
  const MAX_PAYLOAD: nat := MAX_PKT_SIZE - HEADER_SIZE
  const CLOCKS_PER_SEC: real := 1000.0

  type Payload = seq<bv8>

  /** A piece of memory the program may not have written yet. */
  datatype Field<T> = Undefined | Defined(value: T)

  datatype Flags = Flags(reserved: nat, syn: bool, ack: bool, fin: bool, magic: nat)
  const MAGIC_PROTOCOL: nat := 0x8311AA
  const DATA_FLAGS: Flags := Flags(0, false, false, false, MAGIC_PROTOCOL)

  /** What Send and Close return. */
  datatype Status = STATUS_OK | TIMEOUT | FAILED_SEND | FAILED_RECV

  /** Sequence number and payload of a packet; its length is the payload's. */
  datatype Body = Body(seqNo: nat, payload: Payload)

  /** A slot of the ring. `bytes` are the bytes of its payload memory that have ever been written, from the first on. */
  datatype Slot = Slot(flags: Field<Flags>, size: Field<nat>, seqNo: Field<nat>, bytes: Payload, txTime: Field<int>)
  {
    /** What a sendto takes from the slot: Undefined when some of it was never written. */
    function Offered(): Field<Body> {
      if seqNo.Defined? && size.Defined? && size.value <= |bytes| then Defined(Body(seqNo.value, bytes[..size.value]))
      else Undefined
    }
  }

  predicate SamePacket(a: Slot, b: Slot) { a.size == b.size && a.seqNo == b.seqNo && a.bytes == b.bytes }

  const UNWRITTEN: Slot := Slot(Undefined, Undefined, Undefined, [], Undefined)

  /** One successful sendto: the bytes of the slot at that moment, and when. */
  datatype Transmission = Transmission(flags: Field<Flags>, body: Field<Body>, at: int)

  datatype State = State(
    window: nat,            // senderWindow
    base: nat,
    nextSeq: nat,
    nextToSend: nat,
    lastReleased: int,
    dupAck: nat,
    retx: nat,              // retxForBase
    receiverWindow: nat,
    effectiveWindow: nat,
    ring: seq<Slot>,        // pendingPackets
    empty: nat,             // count of the semaphore `empty`
    full: nat,              // count of the semaphore `full`
    quit: bool,             // eventQuit is signalled
    rtt: Rtt.Estimate,
    wire: seq<Transmission>)
  {
    predicate Shape() { 1 <= window && |ring| == window }

    function At(k: nat): Slot
      requires Shape()
    {
      ring[SlotOf(k, window)]
    }

    function Put(k: nat, slot: Slot): (s: State)
      requires Shape()
      ensures s.Shape()
    {
      this.(ring := ring[SlotOf(k, window) := slot])
    }
  }

  /** The slot of packet k in a ring of w packets. */
  function SlotOf(k: nat, w: nat): (i: nat)
    requires 1 <= w
    ensures i < w
  {
    k % w
  }

  /** ReleaseSemaphore: refuses a count below 1 or a total above the maximum. */
  function Released(count: nat, add: int, max: nat): nat {
    if 1 <= add && count + add <= max then count + add else count
  }

  /** The end of Open: credits for the smaller window, nothing queued, memory unwritten. */
  function Opened(window: nat, receiverWindow: nat, synRtt: real): State
    requires 1 <= window
  {
    State(window, 0, 0, 0, Min(window, receiverWindow), 0, 0, receiverWindow, 0,
          seq(window, _ => UNWRITTEN), Min(window, receiverWindow), 0, false, Rtt.AfterSyn(synRtt), [])
  }

  // ------------------------------------------------ Send, in its observable steps

  function TakeCredit(s: State): State
    requires 0 < s.empty
  {
    s.(empty := s.empty - 1)
  }

  function PutSize(s: State, n: nat): (t: State)
    requires s.Shape()
    ensures t.Shape()
  {
    s.(effectiveWindow := Min(s.window, s.receiverWindow)).Put(s.nextSeq, s.At(s.nextSeq).(size := Defined(n)))
  }

  function PutNumber(s: State): (t: State)
    requires s.Shape()
    ensures t.Shape()
  {
    s.Put(s.nextSeq, s.At(s.nextSeq).(seqNo := Defined(s.nextSeq)))
  }

  /** Bytes lo to hi of `data` in the place of those of `was`, of which lo are there at least. */
  function Overlaid(was: Payload, data: Payload, lo: nat, hi: nat): (r: Payload)
    requires lo <= hi <= |data|
    ensures data[..lo] <= was ==> data[..hi] <= r
    ensures data[..lo] <= was && hi == |data| && lo == 0 ==> r == data + was[Min(hi, |was|)..]
  {
    was[..Min(lo, |was|)] + data[lo..hi] + was[Min(hi, |was|)..]
  }

  /** A piece of the memcpy. */
  function PutBytes(s: State, data: Payload, lo: nat, hi: nat): (t: State)
    requires s.Shape() && lo <= hi <= |data|
    ensures t.Shape()
  {
    s.Put(s.nextSeq, s.At(s.nextSeq).(bytes := Overlaid(s.At(s.nextSeq).bytes, data, lo, hi)))
  }

  /** All of what Send writes into its slot. */
  function Fill(s: State, data: Payload): (t: State)
    requires s.Shape()
    ensures t.Shape()
  {
    PutBytes(PutNumber(PutSize(s, |data|)), data, 0, |data|)
  }

  /** The slot ends up with the packet. */
  lemma FillOnce(s: State, data: Payload)
    requires s.Shape()
    ensures var i := SlotOf(s.nextSeq, s.window);
      var c := s.ring[i].(size := Defined(|data|), seqNo := Defined(s.nextSeq),
                          bytes := Overlaid(s.ring[i].bytes, data, 0, |data|));
      && Fill(s, data) == s.(effectiveWindow := Min(s.window, s.receiverWindow), ring := s.ring[i := c])
      && c.Offered() == Defined(Body(s.nextSeq, data))
  {
    hide SlotOf;
    var i := SlotOf(s.nextSeq, s.window);
    var r := Overlaid(s.ring[i].bytes, data, 0, |data|);
    assert data[..|data|] == data <= r;
    assert r[..|data|] == data;
    var t := PutNumber(PutSize(s, |data|));
    assert t.ring == s.ring[i := s.ring[i].(size := Defined(|data|), seqNo := Defined(s.nextSeq))];
    hide Overlaid;
    assert Fill(s, data).ring ==
           s.ring[i := s.ring[i].(size := Defined(|data|), seqNo := Defined(s.nextSeq), bytes := r)];
  }

  function Publish(s: State): State {
    s.(nextSeq := s.nextSeq + 1, full := Released(s.full, 1, s.window))
  }

  // ------------------------------------------------ the worker's handlers

  function Emit(s: State, k: nat, now: int): State
    requires s.Shape()
  {
    s.(wire := s.wire + [Transmission(s.At(k).flags, s.At(k).Offered(), now)])
  }

  /** The `full` branch; `ok` says whether sendto succeeded. */
  function FirstSend(s: State, now: int, ok: bool): (t: State)
    requires s.Shape() && 0 < s.full
    ensures t.Shape()
  {
    var k := s.nextToSend;
    var p := s.(full := s.full - 1, effectiveWindow := Min(s.window, s.receiverWindow))
             .Put(k, s.At(k).(flags := Defined(DATA_FLAGS), txTime := Defined(now)));
    var q := if ok then Emit(p, k, now) else p.(quit := true);
    q.(nextToSend := k + 1)
  }

  /** The round-trip sample of an ACK; None when the slot was never transmitted. */
  function Sample(s: State, ack: nat, now: int): Field<real>
    requires s.Shape() && 0 < ack
  {
    match s.At(ack - 1).txTime
    case Undefined => Undefined
    case Defined(t) => Defined((now - t) as real / CLOCKS_PER_SEC)
  }

  function TakeSample(s: State, ack: nat, now: int): (t: State)
    requires s.Shape() && 0 < ack
    ensures t.Shape()
  {
    match Sample(s, ack, now)
    case Undefined => s
    case Defined(x) => s.(rtt := Rtt.Update(s.rtt, x))
  }

  /** An ACK above base. */
  function Advance(s: State, ack: nat, wnd: nat, now: int): (t: State)
    requires s.Shape() && s.base < ack
    ensures t.Shape()
  {
    var p := if s.retx == 0 then TakeSample(s, ack, now) else s;
    var eff := Min(s.window, wnd);
    var slots := ack + eff - s.lastReleased;
    p.(effectiveWindow := eff, receiverWindow := wnd, base := ack, retx := 0,
       lastReleased := s.lastReleased + slots, dupAck := 0,
       empty := Released(s.empty, slots, s.window))
  }

  /** Sending the slot of base again and stamping it. */
  function Resend(s: State, now: int): (t: State)
    requires s.Shape()
    ensures t.Shape()
  {
    Emit(s, s.base, now).Put(s.base, s.At(s.base).(txTime := Defined(now)))
  }

  /** An ACK equal to base; the third one triggers the fast retransmit. */
  function Duplicate(s: State, now: int, ok: bool): (t: State)
    requires s.Shape()
    ensures t.Shape()
  {
    var p := s.(dupAck := s.dupAck + 1);
    if p.dupAck != 3 then p
    else
      var q := p.(retx := p.retx + 1);
      if ok then Resend(q, now) else q
  }

  function OnAck(s: State, ack: nat, wnd: nat, now: int, ok: bool): (t: State)
    requires s.Shape()
    ensures t.Shape()
  {
    if s.base < ack then Advance(s, ack, wnd, now)
    else if ack == s.base then Duplicate(s, now, ok)
    else s
  }

  /** The WAIT_TIMEOUT branch. */
  function OnTimeout(s: State, now: int, ok: bool): (t: State)
    requires s.Shape()
    ensures t.Shape()
  {
    if s.nextToSend <= s.base then s
    else
      var p := s.(retx := s.retx + 1);
      if p.retx > MAX_ATTEMPTS || !ok then p.(quit := true)
      else Resend(p, now)
  }
}
