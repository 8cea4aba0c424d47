/** SenderSocket of SenderSocket.cpp in its own form: fields and a packet ring updated in
    place. Every method is proved against the function of module Sender that it implements. */
module SenderSocketClass {
  import Rtt
  import opened Common
  import opened Sender

  /** What WaitForMultipleObjects and recvfrom report to one turn of the worker loop. */
  datatype Event = QuitSignalled | PacketQueued | AckArrived(ack: nat, wnd: nat) | ReceiveFailed | TimedOut

  /** The waits a turn of the loop can return with. */
  ghost predicate CanReport(s: State, event: Event) {
    match event
    case QuitSignalled => s.quit
    case PacketQueued => 0 < s.full
    case AckArrived(_, _) => true
    case ReceiveFailed => true
    case TimedOut => s.base < s.nextToSend
  }

  function Handle(s: State, event: Event, now: int, ok: bool): State
    requires s.Shape() && CanReport(s, event)
  {
    match event
    case QuitSignalled => s
    case PacketQueued => FirstSend(s, now, ok)
    case AckArrived(ack, wnd) => OnAck(s, ack, wnd, now, ok)
    case ReceiveFailed => s.(quit := true)
    case TimedOut => OnTimeout(s, now, ok)
  }

  /** A timeout finds a packet outstanding and no attempt left. */
  predicate GivesUp(s: State) { s.base < s.nextToSend && s.retx >= 50 }

  /** No turn moves base back, changes a packet in the ring, or sends more than one datagram. */
  lemma HandleKeeps(s: State, event: Event, now: int, ok: bool)
    requires s.Shape() && CanReport(s, event)
    ensures var t := Handle(s, event, now, ok);
      && t.Shape() && t.window == s.window && s.base <= t.base && s.wire <= t.wire && |t.wire| <= |s.wire| + 1
      && (forall i :: 0 <= i < s.window ==> SamePacket(t.ring[i], s.ring[i]))
      && (event.AckArrived? && event.ack < s.base ==> t == s)
      && (event.QuitSignalled? || (event.TimedOut? && GivesUp(s)) ==> t.quit)
  {
    hide SlotOf;
    hide Rtt.Update;
  }

  class SenderSocket {
    const senderWindow: nat
    var base: nat
    var nextSeq: nat
    var nextToSend: nat
    var lastReleased: int
    var dupACK: nat
    var retxForBase: nat
    var receiverWindow: nat
    var effectiveWindow: nat
    const pendingPackets: array<Slot>
    var empty: nat
    var full: nat
    var eventQuit: bool
    var estRTT: real
    var devRTT: real
    var RTO: real
    var sent: seq<Transmission>

    /** Both fields are set by Open and never change. */
    ghost predicate Valid() {
      1 <= senderWindow == pendingPackets.Length
    }

    ghost function View(): (s: State)
      reads this, pendingPackets
      requires Valid()
      ensures s.Shape()
    {
      State(senderWindow, base, nextSeq, nextToSend, lastReleased, dupACK, retxForBase, receiverWindow,
            effectiveWindow, pendingPackets[..], empty, full, eventQuit, Rtt.Estimate(estRTT, devRTT, RTO), sent)
    }

    /** Open, from the SYN-ACK on. */
    constructor (senderWindow: nat, recvWnd: nat, rtt: real)
      requires 1 <= senderWindow
      ensures Valid() && fresh(pendingPackets)
      ensures View() == Opened(senderWindow, recvWnd, rtt)
    {
      base, nextSeq, nextToSend, dupACK, retxForBase, effectiveWindow := 0, 0, 0, 0, 0, 0;
      estRTT, devRTT, RTO := rtt, 0.0, 3.0 * rtt;
      receiverWindow := recvWnd;
      this.senderWindow := senderWindow;
      var initialCredits := Min(senderWindow, recvWnd);
      lastReleased := initialCredits;
      empty := initialCredits;
      full := 0;
      eventQuit := false;
      sent := [];
      pendingPackets := new Slot[senderWindow](_ => UNWRITTEN);
      new;
      assert pendingPackets[..] == seq(senderWindow, _ => UNWRITTEN);
    }

    /** The slot of packet k holds its number and payload; every other slot is as in `was`. */
    ghost predicate Queued(was: seq<Slot>, k: nat, data: Payload)
      reads this, pendingPackets
      requires Valid() && |was| == senderWindow
    {
      && pendingPackets[SlotOf(k, senderWindow)].Offered() == Defined(Body(k, data))
      && forall i :: 0 <= i < senderWindow && i != SlotOf(k, senderWindow) ==> pendingPackets[i] == was[i]
    }

    /** Blocks until eventQuit or `empty` is signalled; the precondition is that the wait is over. */
    method Send(buffer: array<bv8>, off: nat, bytes: nat) returns (status: Status)
      requires Valid()
      requires off + bytes <= buffer.Length && bytes <= MAX_PAYLOAD
      requires eventQuit || 0 < empty
      modifies this, pendingPackets
      ensures status == if old(eventQuit) then TIMEOUT else STATUS_OK
      ensures status == TIMEOUT ==> View() == old(View())
      ensures status == STATUS_OK ==> Queued(old(pendingPackets[..]), old(nextSeq), old(buffer[off..off + bytes]))
      ensures status == STATUS_OK ==> nextSeq == old(nextSeq) + 1 && sent == old(sent)
      ensures status == STATUS_OK ==>
                View() == Publish(Fill(TakeCredit(old(View())), old(buffer[off..off + bytes])))
    {
      hide SlotOf;
      hide Min;
      hide Released;
      if eventQuit {
        return TIMEOUT;
      }
      FillOnce(TakeCredit(View()), buffer[off..off + bytes]);
      hide Fill;
      hide Overlaid;
      Enqueue(buffer[off..off + bytes]);
      return STATUS_OK;
    }

    /** The ring with `data` in the slot of nextSeq. */
    ghost function Refilled(data: Payload): seq<Slot>
      reads this, pendingPackets
      requires Valid()
    {
      var slot, was := SlotOf(nextSeq, senderWindow), pendingPackets[..];
      was[slot := was[slot].(size := Defined(|data|), seqNo := Defined(nextSeq),
                             bytes := Overlaid(was[slot].bytes, data, 0, |data|))]
    }

    method Enqueue(data: Payload)
      requires Valid() && 0 < empty
      modifies this`empty, this`effectiveWindow, this`nextSeq, this`full, pendingPackets
      ensures empty == old(empty) - 1 && effectiveWindow == Min(senderWindow, receiverWindow)
      ensures pendingPackets[..] == old(Refilled(data))
      ensures nextSeq == old(nextSeq) + 1 && full == Released(old(full), 1, senderWindow)
    {
      empty := empty - 1;
      FillSlot(data);
      nextSeq := nextSeq + 1;
      full := Released(full, 1, senderWindow);
    }

    /** effectiveWindow, then size, number and payload into the slot of nextSeq. */
    method FillSlot(data: Payload)
      requires Valid()
      modifies this`effectiveWindow, pendingPackets
      ensures effectiveWindow == Min(senderWindow, receiverWindow)
      ensures pendingPackets[..] == old(Refilled(data))
    {
      hide SlotOf;
      hide Overlaid;
      hide Min;
      var slot := SlotOf(nextSeq, senderWindow);
      effectiveWindow := Min(senderWindow, receiverWindow);
      Store(slot, pendingPackets[slot].(size := Defined(|data|)));
      Store(slot, pendingPackets[slot].(seqNo := Defined(nextSeq)));
      Store(slot, pendingPackets[slot].(bytes := Overlaid(pendingPackets[slot].bytes, data, 0, |data|)));
    }

    method Store(index: nat, slot: Slot)
      requires Valid() && index < senderWindow
      modifies pendingPackets
      ensures pendingPackets[..] == old(pendingPackets[..])[index := slot]
    {
      pendingPackets[index] := slot;
    }

    method CalculateStats(prevRTT: real)
      requires Valid()
      modifies this`estRTT, this`devRTT, this`RTO
      ensures View() == old(View()).(rtt := Rtt.Update(old(View()).rtt, prevRTT))
    {
      estRTT := 0.875 * estRTT + 0.125 * prevRTT;
      devRTT := 0.75 * devRTT + 0.25 * Rtt.Abs(prevRTT - estRTT);
      RTO := estRTT + 4.0 * Rtt.Max(devRTT, 0.010);
    }

    /** sendto of the packet in a slot. */
    method SendTo(index: nat, now: int)
      requires Valid() && index < senderWindow
      modifies this`sent
      ensures sent == old(sent) + [Transmission(pendingPackets[index].flags, pendingPackets[index].Offered(), now)]
    {
      sent := sent + [Transmission(pendingPackets[index].flags, pendingPackets[index].Offered(), now)];
    }

    /** Takes a queued packet, and writes its flags and its time stamp. */
    method StampNext(now: int) returns (index: nat)
      requires Valid() && 0 < full
      modifies this`full, this`effectiveWindow, pendingPackets
      ensures full == old(full) - 1 && effectiveWindow == Min(senderWindow, receiverWindow)
      ensures index == SlotOf(nextToSend, senderWindow)
      ensures var was := old(pendingPackets[..]);
        pendingPackets[..] == was[index := was[index].(flags := Defined(DATA_FLAGS), txTime := Defined(now))]
    {
      full := full - 1;
      effectiveWindow := Min(senderWindow, receiverWindow);
      index := SlotOf(nextToSend, senderWindow);
      Store(index, pendingPackets[index].(flags := Defined(DATA_FLAGS), txTime := Defined(now)));
    }

    /** The branch of the `full` semaphore. */
    method TransmitNext(now: int, ok: bool)
      requires Valid() && 0 < full
      modifies this, pendingPackets
      ensures View() == FirstSend(old(View()), now, ok)
    {
      hide SlotOf;
      hide Min;
      var index := StampNext(now);
      if !ok {
        eventQuit := true;
      } else {
        SendTo(index, now);
      }
      nextToSend := nextToSend + 1;
    }

    method SampleRtt(ack: nat, now: int)
      requires Valid() && 0 < ack
      modifies this`estRTT, this`devRTT, this`RTO
      ensures View() == TakeSample(old(View()), ack, now)
    {
      hide Rtt.Update;
      var stamp := pendingPackets[SlotOf(ack - 1, senderWindow)].txTime;
      if stamp.Defined? {
        CalculateStats((now - stamp.value) as real / CLOCKS_PER_SEC);
      }
    }

    /** The fields an ACK above base sets. */
    method MoveWindow(ack: nat, wnd: nat)
      requires Valid()
      modifies this`effectiveWindow, this`receiverWindow, this`base, this`retxForBase
      modifies this`lastReleased, this`dupACK, this`empty
      ensures effectiveWindow == Min(senderWindow, wnd) && receiverWindow == wnd && base == ack
      ensures retxForBase == dupACK == 0 && lastReleased == ack + effectiveWindow
      ensures empty == Released(old(empty), ack + effectiveWindow - old(lastReleased), senderWindow)
    {
      effectiveWindow := Min(senderWindow, wnd);
      receiverWindow := wnd;
      base := ack;
      retxForBase := 0;
      var slotsToRelease := base + effectiveWindow - lastReleased;
      lastReleased := lastReleased + slotsToRelease;
      dupACK := 0;
      empty := Released(empty, slotsToRelease, senderWindow);
    }

    /** An ACK above base. */
    method TakeAck(ack: nat, wnd: nat, now: int)
      requires Valid() && base < ack
      modifies this
      ensures View() == Advance(old(View()), ack, wnd, now)
    {
      hide TakeSample;
      hide Released;
      hide Min;
      if retxForBase == 0 {
        SampleRtt(ack, now);
      }
      MoveWindow(ack, wnd);
    }

    /** sendto of the packet at base, and its new time stamp. */
    method ResendBase(now: int)
      requires Valid()
      modifies this`sent, pendingPackets
      ensures View() == Resend(old(View()), now)
    {
      var index := SlotOf(base, senderWindow);
      SendTo(index, now);
      Store(index, pendingPackets[index].(txTime := Defined(now)));
    }

    /** An ACK equal to base. */
    method TakeDuplicate(now: int, ok: bool)
      requires Valid()
      modifies this, pendingPackets
      ensures View() == Duplicate(old(View()), now, ok)
    {
      dupACK := dupACK + 1;
      if dupACK == 3 {
        retxForBase := retxForBase + 1;
        if ok {
          ResendBase(now);
        }
      }
    }

    /** The timeout branch; `running` is false when the attempts are used up. */
    method TakeTimeout(now: int, ok: bool) returns (running: bool)
      requires Valid()
      modifies this, pendingPackets
      ensures View() == OnTimeout(old(View()), now, ok)
      ensures !running <==> old(GivesUp(View()))
    {
      running := true;
      if nextToSend > base {
        retxForBase := retxForBase + 1;
        if retxForBase > MAX_ATTEMPTS {
          eventQuit := true;
          running := false;
        } else if !ok {
          eventQuit := true;
        } else {
          ResendBase(now);
        }
      }
    }

    /** One turn of the worker loop; `running` is false when the turn breaks out of it. */
    method WorkerTurn(event: Event, now: int, ok: bool) returns (running: bool)
      requires Valid() && CanReport(View(), event)
      modifies this, pendingPackets
      ensures View() == Handle(old(View()), event, now, ok)
      ensures !running <==> event.QuitSignalled? || (event.TimedOut? && old(GivesUp(View())))
      ensures !running ==> eventQuit
      ensures event.AckArrived? && event.ack < old(base) ==> View() == old(View())
      ensures old(base) <= base && old(sent) <= sent && |sent| <= |old(sent)| + 1
      ensures forall i :: 0 <= i < senderWindow ==> SamePacket(pendingPackets[i], old(pendingPackets[i]))
    {
      HandleKeeps(View(), event, now, ok);
      running := true;
      match event
      case QuitSignalled =>
        running := false;
      case PacketQueued =>
        TransmitNext(now, ok);
      case AckArrived(ack, wnd) =>
        if ack > base {
          TakeAck(ack, wnd, now);
        } else if ack == base {
          TakeDuplicate(now, ok);
        }
      case ReceiveFailed =>
        eventQuit := true;
      case TimedOut =>
        running := TakeTimeout(now, ok);
    }
  }
}
