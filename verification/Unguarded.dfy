/** What the single-worker sender keeps in runs of the code that meet neither assumption of the invariant: delivery in
    order and in full, as long as no sendto reads a slot that Send has written in part. */
module Unguarded {
  import opened Common
  import opened Sender
  import opened SlidingWindow

  /** Where the code gets by a sequence of possible actions. */
  function AnyRun(y: System, acts: seq<Action>): (z: Option<System>)
    requires y.s.Shape()
    ensures z.Some? ==> z.value.s.Shape()
    decreases |acts|
  {
    if acts == [] then Some(y)
    else
      var n := |acts| - 1;
      match AnyRun(y, acts[..n])
      case None => None
      case Some(x) => if Possible(x, acts[n]) then Some(Step(x, acts[n])) else None
  }

  /** Number and payload belong together. */
  predicate Own(b: Body, submitted: seq<Payload>) { b.seqNo < |submitted| && b.payload == submitted[b.seqNo] }

  // ------------------------------------------------ reading the slot that Send is writing

  /** The packet whose slot a successful sendto of this action reads. */
  function Reads(y: System, a: Action): Option<nat> {
    match a
    case Transmit(_, ok) => if ok then Some(y.s.nextToSend) else None
    case AckIn(ack, _, ok) => if ok && FiresFast(y, ack.seqNo) then Some(y.s.base) else None
    case TimeOut(_, ok) => if ok && y.s.retx + 1 <= MAX_ATTEMPTS then Some(y.s.base) else None
    case _ => None
  }

  /** Size, number and payload in the slot of nextSeq are not all of one packet: Send has changed the size, or has
      written the number and not yet all of the payload. */
  predicate Torn(y: System)
    requires y.s.Shape()
  {
    match y.phase
    case Resized(data) =>
      var k := y.s.At(y.s.nextSeq).seqNo;
      k.Defined? && (k.value < |y.submitted| ==> |data| != |y.submitted[k.value]|)
    case Filling(done) => y.submitted != [] && done < |LastSubmitted(y)|
    case _ => false
  }

  /** The action reads no torn slot. */
  predicate Undisturbed(y: System, a: Action)
    requires y.s.Shape()
  {
    var k := Reads(y, a);
    k.Some? && Torn(y) ==> SlotOf(k.value, y.s.window) != SlotOf(y.s.nextSeq, y.s.window)
  }

  predicate AllUndisturbed(y: System, acts: seq<Action>)
    requires y.s.Shape()
    decreases |acts|
  {
    acts == [] ||
    var n := |acts| - 1;
    AllUndisturbed(y, acts[..n]) && match AnyRun(y, acts[..n])
                                    case None => true
                                    case Some(x) => Undisturbed(x, acts[n])
  }

  // ------------------------------------------------ the invariant

  /** A slot that holds a packet, or has never held one. */
  predicate Whole(c: Slot, submitted: seq<Payload>) {
    c.seqNo.Defined? ==>
      && c.seqNo.value < |submitted| && c.size == Defined(|submitted[c.seqNo.value]|)
      && submitted[c.seqNo.value] <= c.bytes
  }

  /** The slot Send is writing, and every other one. */
  predicate Fine(y: System, i: nat)
    requires y.s.Shape() && i < y.s.window
  {
    var c := y.s.ring[i];
    if i != SlotOf(y.s.nextSeq, y.s.window) then Whole(c, y.submitted)
    else
      match y.phase
      case Resized(data) =>
        && c.size == Defined(|data|)
        && (c.seqNo.Defined? ==> c.seqNo.value < |y.submitted| && y.submitted[c.seqNo.value] <= c.bytes)
      case Filling(done) =>
        && c.seqNo == Defined(y.s.nextSeq) && |y.submitted| == y.s.nextSeq + 1
        && c.size == Defined(|LastSubmitted(y)|) && done <= |LastSubmitted(y)| && LastSubmitted(y)[..done] <= c.bytes
      case _ => Whole(c, y.submitted)
  }

  ghost predicate SlotsFine(y: System)
    requires y.s.Shape()
  {
    forall i: nat :: i < y.s.window ==> Fine(y, i)
  }

  /** What a slot offers is a packet, or reaches into memory never written. */
  predicate OwnBody(b: Field<Body>, submitted: seq<Payload>) { b.Defined? ==> Own(b.value, submitted) }

  ghost predicate WireOwn(y: System) {
    forall t :: 0 <= t < |y.s.wire| ==> OwnBody(y.s.wire[t].body, y.submitted)
  }

  ghost predicate OutputOwn(y: System) {
    && y.r.delivered <= y.submitted
    && (forall k :: k in y.r.held ==> k < |y.submitted| && y.r.held[k] == y.submitted[k])
    && y.s.base <= |y.r.delivered|
    && (forall a :: a in y.acks ==> a.seqNo <= |y.r.delivered|)
  }

  ghost predicate Faithful(y: System) {
    && y.s.Shape() && |y.submitted| == y.s.nextSeq + (if y.phase.Filling? then 1 else 0)
    && SlotsFine(y) && WireOwn(y) && OutputOwn(y)
  }

  lemma WholeOffers(c: Slot, submitted: seq<Payload>)
    requires Whole(c, submitted)
    ensures OwnBody(c.Offered(), submitted)
  {
    if c.seqNo.Defined? {
      var d := submitted[c.seqNo.value];
      assert c.bytes[..|d|] == d;
    }
  }

  /** What a sendto takes from the slot that Send is writing: while the size alone is written, a packet if and only if
      the slot is not torn; after the number, the new packet if and only if the slot already has all of its bytes. */
  lemma TornExact(y: System)
    requires Faithful(y)
    ensures var o := y.s.At(y.s.nextSeq).Offered();
      && (y.phase.Resized? && o.Defined? ==> (Own(o.value, y.submitted) <==> !Torn(y)))
      && (y.phase.Filling? ==>
            (o.Defined? && Own(o.value, y.submitted) <==> LastSubmitted(y) <= y.s.At(y.s.nextSeq).bytes))
  {
    var i := SlotOf(y.s.nextSeq, y.s.window);
    var c := y.s.ring[i];
    assert Fine(y, i);
    hide SlotOf;
    hide SlotsFine;
    if y.phase.Resized? && c.seqNo.Defined? {
      var d := y.submitted[c.seqNo.value];
      assert c.bytes[..|d|] == d;
    }
    if y.phase.Filling? {
      var d := LastSubmitted(y);
      assert d <= c.bytes ==> c.bytes[..|d|] == d;
      assert |d| <= |c.bytes| && c.bytes[..|d|] == d ==> d <= c.bytes;
    }
  }

  /** A slot that is not torn offers a packet. */
  lemma FineOffers(y: System, k: nat)
    requires Faithful(y) && (Torn(y) ==> SlotOf(k, y.s.window) != SlotOf(y.s.nextSeq, y.s.window))
    ensures OwnBody(y.s.At(k).Offered(), y.submitted)
  {
    var i := SlotOf(k, y.s.window);
    assert Fine(y, i);
    if i == SlotOf(y.s.nextSeq, y.s.window) && (y.phase.Resized? || y.phase.Filling?) {
      TornExact(y);
      assert y.phase.Filling? ==> LastSubmitted(y)[..|LastSubmitted(y)|] == LastSubmitted(y);
    } else {
      WholeOffers(y.s.ring[i], y.submitted);
    }
    hide SlotOf;
    hide SlotsFine;
  }

  // ------------------------------------------------ every undisturbed action keeps it

  /** What an action of the worker does to ring and wire. */
  lemma WorkerReads(y: System, a: Action)
    requires y.s.Shape() && Possible(y, a) && (a.Transmit? || a.AckIn? || a.TimeOut?)
    ensures var z := Step(y, a); var k := Reads(y, a);
      && z.s.window == y.s.window && z.s.nextSeq == y.s.nextSeq && z == y.(s := z.s)
      && (forall i :: 0 <= i < y.s.window ==> SamePacket(z.s.ring[i], y.s.ring[i]))
      && (k.None? ==> z.s.wire == y.s.wire)
      && (k.Some? ==> |z.s.wire| == |y.s.wire| + 1 && y.s.wire <= z.s.wire
                      && z.s.wire[|y.s.wire|].body == y.s.At(k.value).Offered())
      && (z.s.base != y.s.base ==> a.AckIn? && z.s.base == a.ack.seqNo)
  {
    hide SlotOf;
  }

  lemma WorkerSlots(y: System, z: System)
    requires y.s.Shape() && z.s.Shape() && SlotsFine(y) && z == y.(s := z.s)
    requires z.s.window == y.s.window && z.s.nextSeq == y.s.nextSeq
    requires forall i :: 0 <= i < y.s.window ==> SamePacket(z.s.ring[i], y.s.ring[i])
    ensures SlotsFine(z)
  {
    forall i: nat | i < z.s.window ensures Fine(z, i) {
      assert Fine(y, i);
      assert SamePacket(z.s.ring[i], y.s.ring[i]);
    }
    hide SlotOf;
  }

  lemma WorkerFaithful(y: System, a: Action)
    requires Faithful(y) && Possible(y, a) && Undisturbed(y, a) && (a.Transmit? || a.AckIn? || a.TimeOut?)
    ensures Faithful(Step(y, a))
  {
    WorkerReads(y, a);
    var z := Step(y, a);
    WorkerSlots(y, z);
    var k := Reads(y, a);
    if k.Some? {
      FineOffers(y, k.value);
    }
    forall t | 0 <= t < |z.s.wire| ensures OwnBody(z.s.wire[t].body, z.submitted) {
      if t < |y.s.wire| {
        assert OwnBody(y.s.wire[t].body, y.submitted);
      }
    }
    hide Step;
    hide SlotOf;
    hide SlotsFine;
  }

  lemma SendSlots(y: System, a: Action)
    requires Faithful(y) && Possible(y, a) && (Writes(a) || a.EnterSend? || a.LeaveSend?)
    ensures SlotsFine(Step(y, a))
  {
    var z := Step(y, a);
    var j := SlotOf(y.s.nextSeq, y.s.window);
    assert Fine(y, j);
    forall i: nat | i < z.s.window ensures Fine(z, i) {
      assert Fine(y, i);
    }
    assert a.LeaveSend? ==> LastSubmitted(y)[..|LastSubmitted(y)|] == LastSubmitted(y);
    hide SlotOf;
    hide Overlaid;
  }

  lemma SendFaithful(y: System, a: Action)
    requires Faithful(y) && Possible(y, a) && (Writes(a) || a.EnterSend? || a.LeaveSend?)
    ensures Faithful(Step(y, a))
  {
    SendSlots(y, a);
    var z := Step(y, a);
    forall t | 0 <= t < |z.s.wire| ensures OwnBody(z.s.wire[t].body, z.submitted) {
      assert OwnBody(y.s.wire[t].body, y.submitted);
    }
    hide SlotOf;
    hide Overlaid;
    hide SlotsFine;
  }

  lemma FaithfulStep(y: System, a: Action)
    requires Faithful(y) && Possible(y, a) && Undisturbed(y, a)
    ensures Faithful(Step(y, a))
  {
    if a.Transmit? || a.AckIn? || a.TimeOut? {
      WorkerFaithful(y, a);
    } else if Writes(a) || a.EnterSend? || a.LeaveSend? {
      SendFaithful(y, a);
    } else {
      ReceiverFaithfulStep(y, a);
    }
    hide Step;
    hide Faithful;
  }

  lemma ReceiverFaithfulStep(y: System, a: Action)
    requires Faithful(y) && Possible(y, a) && (a.ReceiveFails? || a.Arrive? || a.Deliver? || a.AckOut?)
    ensures Faithful(Step(y, a))
  {
    var z := Step(y, a);
    forall i: nat | i < z.s.window ensures Fine(z, i) {
      assert Fine(y, i);
    }
    if a.Arrive? {
      assert OwnBody(y.s.wire[a.t].body, y.submitted);
    }
    hide SlotOf;
  }

  // ------------------------------------------------ over runs

  lemma InitialFaithful(window: nat, wnd: nat, syn: real)
    requires 1 <= window
    ensures Faithful(Initial(window, wnd, syn))
  {}

  lemma {:induction false} RunFaithful(window: nat, wnd: nat, syn: real, acts: seq<Action>)
    requires 1 <= window && AnyRun(Initial(window, wnd, syn), acts).Some?
    requires AllUndisturbed(Initial(window, wnd, syn), acts)
    ensures Faithful(AnyRun(Initial(window, wnd, syn), acts).value)
    decreases |acts|
  {
    hide Step;
    hide Possible;
    hide Faithful;
    hide Initial;
    hide Undisturbed;
    if acts == [] {
      InitialFaithful(window, wnd, syn);
    } else {
      var n := |acts| - 1;
      RunFaithful(window, wnd, syn, acts[..n]);
      FaithfulStep(AnyRun(Initial(window, wnd, syn), acts[..n]).value, acts[n]);
    }
  }

  /** Over every undisturbed run of the code, with any windows and any duplicates: each datagram whose bytes were all
      written carries the payload submitted under its number, the output is a prefix of the stream, and when Close stops
      waiting it is all of it. */
  lemma DeliveryUndisturbed(window: nat, wnd: nat, syn: real, acts: seq<Action>)
    requires 1 <= window && AnyRun(Initial(window, wnd, syn), acts).Some?
    requires AllUndisturbed(Initial(window, wnd, syn), acts)
    ensures var z := AnyRun(Initial(window, wnd, syn), acts).value;
      && WireOwn(z)
      && z.r.delivered <= z.submitted
      && (Closed(z) ==> z.r.delivered == z.submitted)
  {
    RunFaithful(window, wnd, syn, acts);
    hide Initial;
    hide AnyRun;
    hide SlotsFine;
  }

  /** The assumptions of the invariant leave no sendto near a torn slot. */
  lemma EnabledUndisturbed(y: System, a: Action)
    requires Safe(y) && Enabled(y, a)
    ensures Undisturbed(y, a)
  {
    var n, w, k := y.s.nextSeq, y.s.window, Reads(y, a);
    if k.Some? && Torn(y) && SlotOf(k.value, w) == SlotOf(n, w) {
      if k.value < n {
        SameSlot(k.value, n, w);
      } else {
        assert Holds(y, k.value - w);
        SlotPeriod(k.value - w, w);
      }
    }
    hide SlotOf;
    hide RingHolds;
    hide WireTruthful;
    hide ReceiverFaithful;
    hide AcksOrdered;
  }

  /** A run that meets the assumptions of the invariant is an undisturbed run of the code. */
  lemma {:induction false} RunUndisturbed(y: System, acts: seq<Action>)
    requires y.s.Shape() && Safe(y) && Run(y, acts).Some?
    ensures AnyRun(y, acts) == Run(y, acts) && AllUndisturbed(y, acts)
    decreases |acts|
  {
    hide Step;
    hide Safe;
    hide Undisturbed;
    if acts != [] {
      var n := |acts| - 1;
      RunUndisturbed(y, acts[..n]);
      RunSafe(y, acts[..n]);
      EnabledUndisturbed(Run(y, acts[..n]).value, acts[n]);
    }
  }

  // ------------------------------------------------ what the assumptions are for

  lemma AnyRunMore(y: System, acts: seq<Action>, a: Action)
    requires y.s.Shape() && AnyRun(y, acts).Some? && Possible(AnyRun(y, acts).value, a)
    ensures AnyRun(y, acts + [a]) == Some(Step(AnyRun(y, acts).value, a))
  {
    assert (acts + [a])[..|acts|] == acts;
  }

  /** The early resend of packet base, and its way to the receiver's output. */
  lemma EarlyOutput(x: System, ack: Ack, now: int) returns (y1: System, y2: System, y3: System)
    requires Safe(x) && !x.s.quit && ack in x.acks && FiresFast(x, ack.seqNo)
    requires x.s.base == x.s.nextToSend < |x.submitted| && x.s.At(x.s.base).Offered().Defined?
    ensures Possible(x, AckIn(ack, now, true)) && y1 == Step(x, AckIn(ack, now, true))
    ensures Possible(y1, Arrive(|x.s.wire|)) && y2 == Step(y1, Arrive(|x.s.wire|))
    ensures Possible(y2, Deliver) && y3 == Step(y2, Deliver)
    ensures |y3.r.delivered| == x.s.base + 1 && y3.s.base == y3.s.nextToSend == x.s.base && !y3.s.quit
  {
    assert Holds(x, x.s.base);
    y1 := Step(x, AckIn(ack, now, true));
    hide SlotOf;
    hide RingHolds;
    hide WireTruthful;
    assert y1.s.wire[|x.s.wire|].body.value.seqNo == x.s.base;
    y2 := Step(y1, Arrive(|x.s.wire|));
    y3 := Step(y2, Deliver);
  }

  /** Its acknowledgement. */
  lemma EarlyAck(y: System, now: int) returns (y1: System, y2: System)
    requires y.s.Shape() && !y.s.quit && y.s.base == y.s.nextToSend && |y.r.delivered| == y.s.base + 1
    ensures Possible(y, AckOut(1)) && y1 == Step(y, AckOut(1))
    ensures var a := AckIn(Ack(|y.r.delivered|, 1), now, true);
      Possible(y1, a) && y2 == Step(y1, a) && y2.s.nextToSend < y2.s.base
  {
    y1 := Step(y, AckOut(1));
    y2 := Step(y1, AckIn(Ack(|y.r.delivered|, 1), now, true));
  }

  /** Wherever a third duplicate finds packet base in its slot but not transmitted, the code can go on to a state in
      which base is past nextToSend: the order of the window's marks needs the first assumption. */
  lemma MarksOutOfOrder(x: System, ack: Ack, now: int) returns (acts: seq<Action>)
    requires Safe(x) && !x.s.quit && ack in x.acks && FiresFast(x, ack.seqNo)
    requires x.s.base == x.s.nextToSend < |x.submitted| && x.s.At(x.s.base).Offered().Defined?
    ensures AnyRun(x, acts).Some? && AnyRun(x, acts).value.s.nextToSend < AnyRun(x, acts).value.s.base
  {
    var y1, y2, y3 := EarlyOutput(x, ack, now);
    var y4, y5 := EarlyAck(y3, now);
    hide Safe;
    hide Step;
    hide Possible;
    assert AnyRun(x, []) == Some(x);
    AnyRunMore(x, [], AckIn(ack, now, true));
    acts := [] + [AckIn(ack, now, true)];
    AnyRunMore(x, acts, Arrive(|x.s.wire|));
    acts := acts + [Arrive(|x.s.wire|)];
    AnyRunMore(x, acts, Deliver);
    acts := acts + [Deliver];
    AnyRunMore(x, acts, AckOut(1));
    acts := acts + [AckOut(1)];
    AnyRunMore(x, acts, AckIn(Ack(|y3.r.delivered|, 1), now, true));
    acts := acts + [AckIn(Ack(|y3.r.delivered|, 1), now, true)];
  }
}
