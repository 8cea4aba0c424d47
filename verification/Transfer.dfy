/** What a caller sees of the sliding window over whole runs, and the transfer of Hw3P3.cpp: the buffer cut into
    packets, carried by the window, put together again, and its checksum. */
module Transfer {
  import Crc32
  import opened Common
  import opened Sender
  import opened SlidingWindow
  import opened Unguarded

  function Join(chunks: seq<Payload>): Payload
    decreases |chunks|
  {
    if chunks == [] then [] else Join(chunks[..|chunks| - 1]) + chunks[|chunks| - 1]
  }

  /** How main cuts a buffer: full payloads and a last one with the rest. */
  function Chunks(buffer: Payload): seq<Payload>
    decreases |buffer|
  {
    if buffer == [] then []
    else
      var n := Min(|buffer|, MAX_PAYLOAD);
      [buffer[..n]] + Chunks(buffer[n..])
  }

  lemma {:induction false} JoinFront(c: Payload, chunks: seq<Payload>)
    ensures Join([c] + chunks) == c + Join(chunks)
    decreases |chunks|
  {
    if chunks == [] {
      assert ([c] + chunks)[..0] == [];
      assert [c] + chunks == [c];
      assert Join([c]) == [] + c;
    } else {
      var n := |chunks| - 1;
      assert ([c] + chunks)[..n + 1] == [c] + chunks[..n];
      JoinFront(c, chunks[..n]);
      assert (c + Join(chunks[..n])) + chunks[n] == c + (Join(chunks[..n]) + chunks[n]);
    }
  }

  lemma JoinNone()
    ensures Join([]) == []
  {}

  /** Nothing is lost or moved by the cut, and each chunk fits a packet. */
  lemma {:induction false} ChunksJoin(buffer: Payload)
    ensures Join(Chunks(buffer)) == buffer
    ensures forall k :: 0 <= k < |Chunks(buffer)| ==> 1 <= |Chunks(buffer)[k]| <= 1464
    ensures forall k :: 0 <= k < |Chunks(buffer)| - 1 ==> |Chunks(buffer)[k]| == 1464
    decreases |buffer|
  {
    hide Join;
    if buffer == [] {
      assert Join([]) == [] by { JoinNone(); }
    } else {
      var n := Min(|buffer|, MAX_PAYLOAD);
      ChunksJoin(buffer[n..]);
      JoinFront(buffer[..n], Chunks(buffer[n..]));
      assert buffer[..n] + buffer[n..] == buffer;
    }
  }

  lemma {:induction false} JoinPrefix(a: seq<Payload>, b: seq<Payload>)
    requires a <= b
    ensures Join(a) <= Join(b)
    decreases |b|
  {
    if |a| < |b| {
      JoinPrefix(a, b[..|b| - 1]);
      assert Join(b[..|b| - 1]) <= Join(b);
    } else {
      assert a == b;
    }
  }

  /** The loop of main that feeds Send; `calls` are the payloads of its calls, in order. */
  method SendBuffer(charBuf: array<bv8>) returns (calls: seq<Payload>)
    ensures calls == Chunks(charBuf[..])
  {
    calls := [];
    var off := 0;
    while off < charBuf.Length
      invariant off <= charBuf.Length
      invariant calls + Chunks(charBuf[off..]) == Chunks(charBuf[..])
    {
      var bytes := Min(charBuf.Length - off, MAX_PAYLOAD);
      assert charBuf[off..][..bytes] == charBuf[off..off + bytes];
      assert charBuf[off..][bytes..] == charBuf[off + bytes..];
      calls := calls + [charBuf[off..off + bytes]];
      off := off + bytes;
    }
    assert charBuf[off..] == [];
  }

  /** Over every run: what is on the wire is what was submitted under that number, what the receiver has
      put out is a prefix of what was submitted, and once Close has left its wait loop it is all of it. */
  lemma Delivery(window: nat, wnd: nat, syn: real, acts: seq<Action>)
    requires 1 <= window && Run(Initial(window, wnd, syn), acts).Some?
    ensures var z := Run(Initial(window, wnd, syn), acts).value;
      && (forall t :: 0 <= t < |z.s.wire| ==> Truthful(z.s.wire[t], z.submitted, z.s.nextToSend))
      && z.r.delivered <= z.submitted
      && (Closed(z) ==> z.r.delivered == z.submitted && z.s.base == |z.submitted|)
  {
    InitialSafe(window, wnd, syn);
    RunSafe(Initial(window, wnd, syn), acts);
  }

  /** The count that Advance passes to ReleaseSemaphore. */
  function SlotsToRelease(s: State, a: Ack): int { a.seqNo + Min(s.window, a.wnd) - s.lastReleased }

  /** Over every run: the four marks of the window are in order, each semaphore counts what it stands for and stays
      within its maximum, and what an ACK asks ReleaseSemaphore for is never negative and never over the maximum. A
      release of 0 is refused and changes nothing. */
  lemma WindowAndCredits(window: nat, wnd: nat, syn: real, acts: seq<Action>)
    requires 1 <= window && Run(Initial(window, wnd, syn), acts).Some?
    ensures var z := Run(Initial(window, wnd, syn), acts).value; var s := z.s;
      && s.base <= s.nextToSend <= s.nextSeq <= s.lastReleased == s.base + Min(window, s.receiverWindow)
      && s.empty + InHand(z.phase) == s.lastReleased - s.nextSeq
      && s.full == s.nextSeq - s.nextToSend
      && s.empty <= window && s.full + InHand(z.phase) <= window
      && forall a :: a in z.acks && s.base < a.seqNo ==>
                       0 <= SlotsToRelease(s, a) && s.empty + SlotsToRelease(s, a) <= window
  {
    InitialSafe(window, wnd, syn);
    RunSafe(Initial(window, wnd, syn), acts);
    RunKeepsWindow(Initial(window, wnd, syn), acts);
    var z := Run(Initial(window, wnd, syn), acts).value;
    forall a | a in z.acks && z.s.base < a.seqNo
      ensures 0 <= SlotsToRelease(z.s, a) && z.s.empty + SlotsToRelease(z.s, a) <= window
    {
      AckWithinWindow(z, a);
    }
  }

  lemma {:induction false} RunKeepsWindow(y: System, acts: seq<Action>)
    requires y.s.Shape() && Run(y, acts).Some?
    ensures Run(y, acts).value.s.window == y.s.window
    decreases |acts|
  {
    if acts != [] {
      RunKeepsWindow(y, acts[..|acts| - 1]);
    }
  }

  lemma SendSlotFree(z: System)
    requires Safe(z) && z.phase.Holding? && z.s.At(z.s.nextSeq).seqNo.Defined?
    ensures z.s.At(z.s.nextSeq).seqNo.value < z.s.base
  {
    var n, w := z.s.nextSeq, z.s.window;
    if n < w {
      SmallSlot(n, w);
      hide SlotOf;
    } else {
      SlotPeriod(n - w, w);
      assert Holds(z, n - w);
    }
  }

  /** Each unacknowledged packet is in its slot, unaltered, and the slot that Send is about to overwrite belonged to an
      acknowledged packet. */
  ghost predicate RingKept(z: System) {
    && z.s.Shape() && z.s.nextSeq <= |z.submitted|
    && (forall k: nat :: z.s.base <= k < z.s.nextSeq ==> z.s.At(k).Offered() == Defined(Body(k, z.submitted[k])))
    && (z.phase.Holding? && z.s.At(z.s.nextSeq).seqNo.Defined? ==>
          z.s.At(z.s.nextSeq).seqNo.value < z.s.base)
  }

  lemma SafeKeepsRing(z: System)
    requires Safe(z)
    ensures RingKept(z)
  {
    forall k: nat | z.s.base <= k < z.s.nextSeq ensures z.s.At(k).Offered() == Defined(Body(k, z.submitted[k])) {
      OfferedAt(z, k);
    }
    if z.phase.Holding? && z.s.At(z.s.nextSeq).seqNo.Defined? {
      SendSlotFree(z);
    }
  }

  lemma RingSafety(window: nat, wnd: nat, syn: real, acts: seq<Action>)
    requires 1 <= window && Run(Initial(window, wnd, syn), acts).Some?
    ensures RingKept(Run(Initial(window, wnd, syn), acts).value)
  {
    hide RingKept;
    InitialSafe(window, wnd, syn);
    RunSafe(Initial(window, wnd, syn), acts);
    SafeKeepsRing(Run(Initial(window, wnd, syn), acts).value);
  }

  /** Over every undisturbed run of the code whose calls of Send are those of main's loop, as far as it has got: the
      bytes the receiver has put out are a prefix of the caller's buffer, and once all chunks are submitted and Close
      has stopped waiting they are the buffer. */
  lemma BufferArrives(window: nat, wnd: nat, syn: real, acts: seq<Action>, buffer: Payload)
    requires 1 <= window && AnyRun(Initial(window, wnd, syn), acts).Some?
    requires AllUndisturbed(Initial(window, wnd, syn), acts)
    requires AnyRun(Initial(window, wnd, syn), acts).value.submitted <= Chunks(buffer)
    ensures var z := AnyRun(Initial(window, wnd, syn), acts).value;
      && Join(z.r.delivered) <= buffer
      && (Closed(z) && |z.submitted| == |Chunks(buffer)| ==> Join(z.r.delivered) == buffer)
  {
    hide Initial;
    DeliveryUndisturbed(window, wnd, syn, acts);
    var z := AnyRun(Initial(window, wnd, syn), acts).value;
    ChunksJoin(buffer);
    JoinPrefix(z.r.delivered, Chunks(buffer));
    assert |z.submitted| == |Chunks(buffer)| ==> z.submitted == Chunks(buffer);
    hide Chunks;
    hide Join;
  }

  /** main from its loop on: `acts` is any run that its calls of Send take part in, up to the end of Close's wait. The
      checksum it prints, computed over its own buffer, is the CRC of the bytes the receiver has put out. */
  method TransferBuffer(charBuf: array<bv8>, ghost window: nat, ghost wnd: nat, ghost syn: real,
                        ghost acts: seq<Action>)
    returns (calls: seq<Payload>, check: bv32)
    requires 1 <= window && AnyRun(Initial(window, wnd, syn), acts).Some?
    requires AllUndisturbed(Initial(window, wnd, syn), acts)
    requires var z := AnyRun(Initial(window, wnd, syn), acts).value; Closed(z) && z.submitted == Chunks(charBuf[..])
    ensures calls == AnyRun(Initial(window, wnd, syn), acts).value.submitted
    ensures check == Crc32.BitwiseCrc(Join(AnyRun(Initial(window, wnd, syn), acts).value.r.delivered))
  {
    hide Initial;
    hide AnyRun;
    hide Chunks;
    hide Join;
    hide Crc32.BitwiseCrc;
    BufferArrives(window, wnd, syn, acts, charBuf[..]);
    calls := SendBuffer(charBuf);
    var cs := new Crc32.Checksum();
    check := cs.CRC32(charBuf, charBuf.Length);
    assert charBuf[..charBuf.Length] == charBuf[..];
  }
}
