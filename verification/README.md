# Verified models of the network programs

The repository holds four small network programs in C++: a reliable UDP sender with a sliding window (Hw3), a DNS
client with its own name codec (Hw2), a multi-threaded crawler (Hw1) and a parallel traceroute (Hw4). This project
models the protocol logic of each and proves what it promises over every input and every run.

## What is modelled

**Sliding-window sender** (`Sender`, `SenderSocket`, `SlidingWindow`, `WorkerThread`, `Retransmission`, `Liveness`,
`Assumptions`, `Unguarded`, `UnguardedRuns`, `History`, `Transfer`, `Rtt`). `Sender` gives each handler of the worker
thread and each step of `Send` as a function on the sender's state; `SenderSocketClass.SenderSocket` is the class in its
own form, with its fields and its packet ring updated in place, and every method is proved to compute the function of its
handler. `SlidingWindow` composes those functions with a channel that loses, duplicates and reorders in both directions
and with a receiver, and proves one invariant for every action. `WorkerThread` runs the worker's loop on an object and
proves it to be a run of the composition. `History` says what each field is from the list of past actions alone, without
a handler, and proves it over every run. The other modules draw the consequences for whole runs.

What the sliding window assumes:

- Each handler of the worker is one atomic step, the copy that `sendto` takes of a slot included. `Send` is taken apart:
  past the wait, size written, number written, payload copied in pieces of any size, packet counted; the worker can act
  between any two of these. What else can happen inside a handler, the race on `effectiveWindow` and a slot written while
  `sendto` copies it, is resolved step by step in the two-thread model below and not here.
- For the invariant, the receiver acknowledges the next packet it expects and never moves its right edge to the left
  (section 3.8.6 of RFC 9293). That an accepted ACK never takes credits back is *derived* from this rule, for reordered
  ACKs too (`SlidingWindow.AckWithinWindow`); `Assumptions.AckExact` shows that the accounting needs exactly that, and
  `Assumptions.ShrinkingWindow` is a run that ends in a state where it would fail.
- For the invariant, a third duplicate ACK arrives only in a `Resendable` state: something is outstanding, or nothing is
  queued, the ring has been filled once and `Send` has not just put another size into the slot. The timeout branch tests
  for outstanding packets; the duplicate-ACK branch (`Hw3/Hw3P3/Hw3P3/Hw3P3/SenderSocket.cpp:115-139`) does not.
  `Assumptions.FastRetransmitExact` proves the condition exact in every reachable state; `StrayDuplicates` and
  `EarlyRetransmit` are runs that reach two ways it fails, and `Unguarded.MarksOutOfOrder` shows what follows.
- Delivery in order and in full needs less: that no successful `sendto` reads a slot that `Send` has written in part
  (`Undisturbed`). `Unguarded.DeliveryUndisturbed` proves it for every such run, with any windows and any duplicates;
  `Unguarded.TornExact` says in both directions what reading such a slot sends, and `Unguarded.RunUndisturbed` that the
  two assumptions above imply the condition. It can fail from either side: in `UnguardedRuns.DuplicateTooMany` an ACK
  repeated once too often, in `UnguardedRuns.WindowTooSmall` a window taken back, makes the receiver put out the payload
  of another packet.
- The timer may fire at any moment at which it is armed, that is, while `nextToSend > base`. Nothing is claimed about when
  it is restarted: the test at line 80 comes after the increment.

**The two-thread variant** (`TwoThread`, `TwoThreadSafe`, `TwoThreadTiming`, `TwoThreadRuns`, `TwoThreadCount`,
`TwoThreadHistory`, `TwoThreadClose`).
`SendThread`, `RecvThread` and `Send` interleave *inside* their handlers, under sequential consistency: a step makes at
most one access to a variable that another thread touches. `memcpy` and `sendto` copy a payload in pieces of any size;
the header of a packet is written, and copied, in one step, and a `SendThread` that finds the counter above its limit
signals quit in the same step. A run is *timely* when

- every resend that goes out began on a slot whose last packet had been sent before, with that packet's length
  (`CopySafe`), and
- every computation of credits finds `effectiveWindow` as the ACK set it, or overwritten by `Send` with the same value
  (`WindowKept`).

The code tests neither. Both conditions are proved exact in both directions: `TwoThreadSafe.CopyExact` and
`TwoThreadTiming.OwnCopyExact` for what the slot offers when `sendto` begins, `TwoThreadTiming.SettleExact` for the
credits. A slot lost while `sendto` is copying it needs no assumption: `TwoThreadSafe.CleanCarried` proves that the
receiver is past such a datagram. A receiver that never changes its window meets the second condition
(`TwoThreadTiming.SteadyWindow`). `TwoThreadRuns` has runs of the code that are not timely, followed to where they do
harm: `ChosenTooLate` and `SentTooLate` make the receiver put out the first payload twice in place of the second, and
`CreditTooMany` hands out a credit the receiver never gave. A timeout can be untimely only if base moved between line 66
and its `sendto` (`TwoThreadTiming.PromptResend`). Everything else holds for every timely interleaving.

`TwoThreadCount` is about `retxForBase`, which both threads increment and one resets without a lock. As long as no write
of the other thread falls between the two halves of an increment, the counter is exact and the limit of 50 applies to each
base by itself (`CountExact`); `ResetLost` is a run in which the reset is lost and the sender gives up with everything
acknowledged. `TwoThreadHistory` gives every shared variable as a function of the list of steps, over every run of the
code, timely or not.

**CRC-32** (`Crc32`, `CrcPolynomial`). The table and the byte loop against the register of section 8 of RFC 1952 fed bit
by bit, and detection of every error burst of at most 32 bits. `CrcPolynomial` starts from the exponents of the generator
and proves the checksum to be the remainder of the message polynomial.

**DNS names** (`DnsName`, `DnsQuery`, `DnsRoundTrip`). The decompressing decoder against the recursive expansion of
section 4.1.4 of RFC 1035, the encoder and the query packet, and the round trips: for host names, for labels that end in
a pointer, and for reversed addresses (section 3.5). Octets are unsigned; the program reads them through `char`. The
output buffer is required to hold 257 octets: the length check does not count the dot it is about to write, and
`LongestName` is a name that needs the room. A host name is the text before the terminator of its C string.

**Crawler** (`Crawler`, `CrawlerRuns`, `CrawlerLog`). Any number of workers, interleaved one critical section or atomic
increment at a time. `CrawlerLog` relates the counters to the log of everything asked of the network.

**Traceroute** (`Traceroute`). The probe loop with its replies, retransmissions and neighbour timeouts. Each hop is
examined at its own reading of the clock, which advances at least one millisecond a turn.

Clocks, the network and thread scheduling enter as parameters or as the choice of the next step. Arithmetic of times is
over the reals with `CLOCKS_PER_SEC` equal to 1000; sequence numbers, windows and counters are naturals, below 2^31.

## Model

| member | source | states |
|---|---|---|
| Transfer.Delivery | Hw3/Hw3P3/Hw3P3/Hw3P3/SenderSocket.cpp:24-189 | over every run: a packet on the wire with number s carries the s-th payload given to Send, the receiver's output is a prefix of the submitted stream, and once Close has left its wait loop it is the whole stream |
| Unguarded.DeliveryUndisturbed | Hw3/Hw3P3/Hw3P3/Hw3P3/SenderSocket.cpp:24-189 | with any windows and any duplicate ACKs, over every run in which no sendto reads a slot that Send has written in part: datagrams from written memory are truthful, the output is a prefix, and after Close's wait it is everything |
| Unguarded.TornExact | Hw3/Hw3P3/Hw3P3/Hw3P3/SenderSocket.cpp:467-471 | what a sendto takes from the slot being written: with only the size changed, a packet if and only if that is the old packet's size; with the number written, the new packet if and only if all its bytes already stand there |
| Unguarded.RunUndisturbed | Hw3/Hw3P3/Hw3P3/Hw3P3/SenderSocket.cpp:24-189 | a run under the two assumptions of the invariant never reads such a slot |
| UnguardedRuns.DuplicateTooMany | Hw3/Hw3P3/Hw3P3/Hw3P3/SenderSocket.cpp:115-139 | a run in which a third copy of an ACK comes between lines 470 and 471: the receiver puts out the first payload twice in place of the second |
| UnguardedRuns.WindowTooSmall | Hw3/Hw3P3/Hw3P3/Hw3P3/SenderSocket.cpp:104-113 | a run without duplicate ACKs in which a window taken back releases a credit too many, and a timeout reads the slot Send is writing: the receiver puts out the payload of packet 2 as that of packet 5 |
| Unguarded.MarksOutOfOrder | Hw3/Hw3P3/Hw3P3/Hw3P3/SenderSocket.cpp:115-139 | wherever a third duplicate finds packet base in its slot but not transmitted, the code can go on to base > nextToSend |
| Transfer.BufferArrives | Hw3/Hw3P3/Hw3P3/Hw3P3/Hw3P3.cpp:113-137 | over every such run whose calls of Send are those of main's loop so far, the bytes put out are a prefix of the caller's buffer, and all of it once every chunk is submitted and Close has stopped waiting |
| Transfer.TransferBuffer | Hw3/Hw3P3/Hw3P3/Hw3P3/Hw3P3.cpp:113-139 | over every such run the checksum main prints, computed by the table loop over its own buffer, is the CRC of the bytes the receiver has put out |
| Transfer.ChunksJoin | Hw3/Hw3P3/Hw3P3/Hw3P3/Hw3P3.cpp:113-123 | the chunks join up to the buffer; none is empty or too long, and all but the last are full |
| Transfer.SendBuffer | Hw3/Hw3P3/Hw3P3/Hw3P3/Hw3P3.cpp:113-123 | main's loop hands Send exactly the chunks of the buffer, in order |
| Transfer.WindowAndCredits | Hw3/Hw3P3/Hw3P3/Hw3P3/SenderSocket.cpp:104-113 | over every run: base <= nextToSend <= nextSeq <= lastReleased = base + min(W, receiver window), both semaphores count exactly what they stand for, and a release is never negative nor over W |
| Transfer.RingSafety | Hw3/Hw3P3/Hw3P3/Hw3P3/SenderSocket.cpp:460-472 | over every run: each unacknowledged packet is in its slot, and the slot Send is about to overwrite belonged to an acknowledged one |
| History.MatchesHistory | Hw3/Hw3P3/Hw3P3/Hw3P3/SenderSocket.cpp:44-186 | over every run, whatever the ACKs, windows and failures: base is the largest ACK, dupACK the number of ACKs equal to it since (an ACK below it counts for nothing), retxForBase the timeouts and third duplicates since, lastReleased, both semaphores, both windows, nextSeq and nextToSend what the past actions make them; a datagram goes out exactly at a first send, at a timeout with fewer than 50 retries and at the third duplicate; quit exactly after a failed first send, a failed receive, or a timeout that fails or has no retry left |
| SlidingWindow.SameSlot | Hw3/Hw3P3/Hw3P3/Hw3P3/SenderSocket.cpp:461 | packets less than one ring length apart never share a slot |
| SlidingWindow.StepSafe | Hw3/Hw3P3/Hw3P3/Hw3P3/SenderSocket.cpp:31-186 | every step of Send, the worker, the channel and the receiver keeps the joint invariant of window, credits, ring, wire, receiver and ACKs |
| SlidingWindow.RunSafe | Hw3/Hw3P3/Hw3P3/Hw3P3/SenderSocket.cpp:24-189 | the invariant holds after every run |
| SlidingWindow.WriteSafe | Hw3/Hw3P3/Hw3P3/Hw3P3/SenderSocket.cpp:461-471 | each write of Send into its slot, of the size, the number or a piece of the payload, spoils no unacknowledged packet |
| SlidingWindow.TransmitSafe | Hw3/Hw3P3/Hw3P3/Hw3P3/SenderSocket.cpp:51-83 | the first transmission reads the packet it means to, whether sendto works or not |
| SlidingWindow.AckWithinWindow | Hw3/Hw3P3/Hw3P3/Hw3P3/SenderSocket.cpp:104-113 | an ACK above base acknowledges only transmitted packets and never asks for a negative release, in whatever order ACKs arrive |
| SlidingWindow.AdvanceSafe | Hw3/Hw3P3/Hw3P3/Hw3P3/SenderSocket.cpp:93-114 | an ACK above base keeps the invariant |
| SlidingWindow.ResendTruthful | Hw3/Hw3P3/Hw3P3/Hw3P3/SenderSocket.cpp:120-123 | a resend of base puts a packet on the wire that was sent before, unaltered |
| SlidingWindow.DuplicateSafe | Hw3/Hw3P3/Hw3P3/Hw3P3/SenderSocket.cpp:115-139 | duplicate ACKs and the fast retransmit keep the invariant |
| SlidingWindow.TimeOutSafe | Hw3/Hw3P3/Hw3P3/Hw3P3/SenderSocket.cpp:146-178 | the timeout branch keeps the invariant, giving up included |
| SenderSocketClass.SenderSocket.constructor | Hw3/Hw3P3/Hw3P3/Hw3P3/SenderSocket.cpp:325-347 | Open leaves min(W, receiver window) credits, an empty queue, an unwritten ring and the SYN's round-trip time |
| SenderSocketClass.SenderSocket.Send | Hw3/Hw3P3/Hw3P3/Hw3P3/SenderSocket.cpp:452-477 | Send puts the packet into the slot of nextSeq and changes no other slot, in the three steps the composition interleaves; after quit it changes nothing and returns TIMEOUT |
| SenderSocketClass.SenderSocket.TransmitNext | Hw3/Hw3P3/Hw3P3/Hw3P3/SenderSocket.cpp:51-83 | the full branch is the first-send step of the composition |
| SenderSocketClass.SenderSocket.TakeAck | Hw3/Hw3P3/Hw3P3/Hw3P3/SenderSocket.cpp:93-114 | the branch of an ACK above base is the advance step |
| SenderSocketClass.SenderSocket.TakeDuplicate | Hw3/Hw3P3/Hw3P3/Hw3P3/SenderSocket.cpp:115-139 | the duplicate-ACK branch is the duplicate step |
| SenderSocketClass.SenderSocket.TakeTimeout | Hw3/Hw3P3/Hw3P3/Hw3P3/SenderSocket.cpp:146-178 | the timeout branch is the timeout step, and it leaves the loop exactly when a packet is outstanding and the attempts are used up |
| SenderSocketClass.SenderSocket.WorkerTurn | Hw3/Hw3P3/Hw3P3/Hw3P3/SenderSocket.cpp:44-186 | one turn dispatches each wait result to its step and leaves the loop exactly on quit or on giving up; an ACK below base changes nothing; base never moves back, no packet in the ring changes, at most one datagram goes out |
| WorkerThread.Serve | Hw3/Hw3P3/Hw3P3/Hw3P3/SenderSocket.cpp:31-186 | the loop on an object, for any turns the environment can bring about: the object ends where the composition does, in a safe state, and the loop goes on exactly until a turn finds quit or no attempt left |
| WorkerThread.TurnIsAction | Hw3/Hw3P3/Hw3P3/Hw3P3/SenderSocket.cpp:44-186 | each turn of the loop is one action of the composition |
| SenderSocketClass.SenderSocket.CalculateStats | Hw3/Hw3P3/Hw3P3/Hw3P3/SenderSocket.cpp:4-10 | the estimator updates the three fields in the source's order, estimate first |
| Assumptions.AckExact | Hw3/Hw3P3/Hw3P3/Hw3P3/SenderSocket.cpp:108-113 | an ACK keeps window and credits in step if and only if it does not pull back the right edge |
| Assumptions.FastRetransmitExact | Hw3/Hw3P3/Hw3P3/Hw3P3/SenderSocket.cpp:115-139 | a fast retransmit sends a previously sent packet unaltered if and only if base < nextToSend, or nothing is queued, the ring has been filled once, and the slot still has that packet's size |
| Assumptions.StrayDuplicates | Hw3/Hw3P3/Hw3P3/Hw3P3/SenderSocket.cpp:115-139 | a reachable idle state in which repeated ACKs make the sender transmit a slot never written |
| Assumptions.EarlyRetransmit | Hw3/Hw3P3/Hw3P3/Hw3P3/SenderSocket.cpp:115-139 | a reachable state in which the fast retransmit sends a queued packet before its first transmission |
| Assumptions.ShrinkingWindow | Hw3/Hw3P3/Hw3P3/Hw3P3/SenderSocket.cpp:108-113 | a reachable state in which an ACK that closes the window would leave lastReleased below nextSeq |
| Assumptions.StuckExact | Hw3/Hw3P3/Hw3P3/Hw3P3/SenderSocket.cpp:34-45 | the sender has no credit, no queued packet and no timer if and only if all is acknowledged and the receiver's window is closed |
| Assumptions.NeverStuck | Hw3/Hw3P3/Hw3P3/Hw3P3/SenderSocket.cpp:34-45 | if every advertised window is at least 1, after every run without quit some step of Send, a first-send or a timeout can happen |
| Retransmission.KarnsRule | Hw3/Hw3P3/Hw3P3/Hw3P3/SenderSocket.cpp:97-102 | Karn's rule (section 3 of RFC 6298) over every run: a sample measures a packet transmitted exactly once, from that transmission on |
| Retransmission.ResendsBounded | Hw3/Hw3P3/Hw3P3/Hw3P3/SenderSocket.cpp:115-178 | over every run: at most 51 resends of a packet before it is acknowledged and 52 ever; at most 51 N in all for N packets until everything is acknowledged, and one more after that |
| Liveness.Progress | Hw3/Hw3P3/Hw3P3/Hw3P3/SenderSocket.cpp:107-162 | (packets left, attempts left) never grows, and shrinks exactly on an advancing ACK, a firing fast retransmit or a timeout; out of attempts, a timeout signals quit |
| Liveness.AllOrQuit | Hw3/Hw3P3/Hw3P3/Hw3P3/SenderSocket.cpp:107-162 | over every run: once advancing ACKs, fast retransmits and timeouts together number 52 for each packet submitted, all is acknowledged or quit is signalled |
| Liveness.OneFirePerBase | Hw3/Hw3P3/Hw3P3/Hw3P3/SenderSocket.cpp:117-125 | over every run the fast retransmit fires at most once for each value of base |
| Retransmission.TimeoutBounded | Hw3/Hw3P3/Hw3P3/Hw3P3/SenderSocket.cpp:4-10 | over every run whose samples lie in [lo, hi]: estRTT in [lo, hi], devRTT in [0, hi - lo], RTO in [lo + 0.04, hi + 4 max(hi - lo, 0.01)]; three times the SYN's round-trip time before any sample |
| Retransmission.RttOfRun | Hw3/Hw3P3/Hw3P3/Hw3P3/SenderSocket.cpp:97-102 | the estimate after a run is the estimator folded over exactly the samples that run took |
| Rtt.StaysInRange | Hw3/Hw3P3/Hw3P3/Hw3P3/SenderSocket.cpp:4-10 | the same bounds for any sequence of samples after the SYN's |
| Rtt.ConvergesToConstant | Hw3/Hw3P3/Hw3P3/Hw3P3/SenderSocket.cpp:7 | with constant samples the error of the estimate is multiplied by 7/8 at each step |
| Rtt.DeviationAgainstRfc | Hw3/Hw3P3/Hw3P3/Hw3P3/SenderSocket.cpp:7-8 | because the estimate moves first, the deviation is exactly 7/8 of what section 2 of RFC 6298 computes on the same samples from the same start; the estimates agree, and RTO is that estimate plus max(0.04, 3.5 times the deviation of the RFC), or three times the SYN's round-trip time before any sample |
| TwoThreadSafe.EveryInterleaving | Hw3/Hw3P3/Hw3P3 - with extra part/Hw3P3/SenderSocket.cpp:24-165 | every timely interleaving of the three threads, access by access, keeps window, credits and ring, the output is a prefix of what was submitted, and when Close stops waiting it is all of it and base = nextSeq |
| TwoThreadSafe.Step2Safe | Hw3/Hw3P3/Hw3P3 - with extra part/Hw3P3/SenderSocket.cpp:24-165 | every timely step of every thread keeps the invariant, with what each thread has in its hands counted in |
| TwoThreadSafe.SizeCells | Hw3/Hw3P3/Hw3P3 - with extra part/Hw3P3/SenderSocket.cpp:437 | writing the size of the next packet takes nothing but the size from the packet it replaces |
| TwoThreadSafe.HeaderCells | Hw3/Hw3P3/Hw3P3 - with extra part/Hw3P3/SenderSocket.cpp:439-440 | between header and payload only the slot being written is incomplete |
| TwoThreadSafe.CompleteCells | Hw3/Hw3P3/Hw3P3 - with extra part/Hw3P3/SenderSocket.cpp:441 | when memcpy has copied its last piece, the slot holds the whole packet |
| TwoThreadSafe.CleanCarried | Hw3/Hw3P3/Hw3P3 - with extra part/Hw3P3/SenderSocket.cpp:77-90 | a resend that began clean puts a packet sent before on the wire, unaltered, unless its slot was lost meanwhile; then the receiver is past its number |
| TwoThreadSafe.CopyExact | Hw3/Hw3P3/Hw3P3 - with extra part/Hw3P3/SenderSocket.cpp:67-78 | what a slot offers to a resend is a packet sent before, unaltered, if and only if the last packet put there has been sent and the length read is its length |
| TwoThreadTiming.OwnCopyExact | Hw3/Hw3P3/Hw3P3 - with extra part/Hw3P3/SenderSocket.cpp:66-78 | it is packet b itself if and only if b has been sent, fewer than W packets were put into the ring since, and the length read is that of b |
| TwoThreadTiming.PromptResend | Hw3/Hw3P3/Hw3P3 - with extra part/Hw3P3/SenderSocket.cpp:66-90 | over every timely run from a timeout that finds packet b outstanding: as long as RecvThread does not move base, the resend of b is timely |
| TwoThreadTiming.SettleExact | Hw3/Hw3P3/Hw3P3 - with extra part/Hw3P3/SenderSocket.cpp:127-135 | credits computed from an ACK keep the books if and only if Send has not put another value into effectiveWindow since line 127 |
| TwoThreadTiming.SteadyWindow | Hw3/Hw3P3/Hw3P3 - with extra part/Hw3P3/SenderSocket.cpp:127-132 | if the receiver always advertises the same window, that is so at every point of every run |
| TwoThreadRuns.ChosenTooLate | Hw3/Hw3P3/Hw3P3 - with extra part/Hw3P3/SenderSocket.cpp:66-78 | a run in which an ACK comes between the two reads of base: the resend carries the next number with the old payload, and the receiver puts out the first payload twice |
| TwoThreadRuns.SentTooLate | Hw3/Hw3P3/Hw3P3 - with extra part/Hw3P3/SenderSocket.cpp:67-78 | the same end when the slot is lost after packet 0 was chosen |
| TwoThreadRuns.CreditTooMany | Hw3/Hw3P3/Hw3P3 - with extra part/Hw3P3/SenderSocket.cpp:127-133 | a run with a rule-keeping receiver in which Send writes effectiveWindow after line 127 and lastReleased passes the receiver's right edge |
| TwoThreadCount.CountExact | Hw3/Hw3P3/Hw3P3 - with extra part/Hw3P3/SenderSocket.cpp:71-73 | over every run in which no write falls between the two halves of an increment, retxForBase is the number of retransmissions since the last reset, and the thread gives up exactly when there have been more than 50 |
| TwoThreadCount.IncrementExact | Hw3/Hw3P3/Hw3P3 - with extra part/Hw3P3/SenderSocket.cpp:71 | an increment adds one if and only if the counter still holds what was read |
| TwoThreadCount.ResetLost | Hw3/Hw3P3/Hw3P3 - with extra part/Hw3P3/SenderSocket.cpp:71-75 | a run in which the reset of line 130 falls between the halves of line 71, and the thread gives up with everything acknowledged |
| TwoThreadHistory.HistoryHolds | Hw3/Hw3P3/Hw3P3 - with extra part/Hw3P3/SenderSocket.cpp:44-165 | over every run, timely or not: base, both windows, dupACK, retxForBase, lastReleased, both semaphores, quit and the number of datagrams are what the list of steps says; RecvThread starts a resend exactly on the third ACK equal to base since the counters were cleared, an ACK below base changes nothing, and a failed sendto of SendThread, a failed receive or more than 50 retries signal quit |
| TwoThreadClose.AwaitAcks | Hw3/Hw3P3/Hw3P3 - with extra part/Hw3P3/SenderSocket.cpp:335-344 | the wait ends at the first turn that finds everything acknowledged or quit signalled |
| TwoThreadClose.FinLoop | Hw3/Hw3P3/Hw3P3 - with extra part/Hw3P3/SenderSocket.cpp:369-418 | STATUS_OK exactly when a valid FIN-ACK is met before any failure and before the 50th unanswered FIN; likewise each other status and its event |
| TwoThreadClose.Close | Hw3/Hw3P3/Hw3P3 - with extra part/Hw3P3/SenderSocket.cpp:333-419 | beside the running threads: the FIN is sent exactly when the wait ends acknowledged, it carries nextSeq, and by then the receiver has put out all that was submitted |
| Crc32.Checksum.CRC32 | Hw3/Hw3P3/Hw3P3/Hw3P3/Checksum.cpp:16-21 | the table-driven loop computes the CRC defined bit by bit |
| Crc32.Checksum.constructor | Hw3/Hw3P3/Hw3P3/Hw3P3/Checksum.cpp:3-14 | each table entry is eight clocks of the register on its index |
| Crc32.TableStepIsFeed | Hw3/Hw3P3/Hw3P3/Hw3P3/Checksum.cpp:19 | one table step equals feeding the eight bits of the byte |
| Crc32.DetectsBursts | Hw3/Hw3P3/Hw3P3/Hw3P3/Checksum.cpp:16-21 | messages of one length that differ only within 32 consecutive bits, at any bit offset, have different CRCs |
| Crc32.DetectsByteBursts | Hw3/Hw3P3/Hw3P3/Hw3P3/Checksum.cpp:16-21 | the same for messages that differ only within four consecutive bytes |
| Crc32.ClocksLinear | Hw3/Hw3P3/Hw3P3/Hw3P3/Checksum.cpp:6-11 | the register is linear over xor |
| Crc32.ClocksInjective | Hw3/Hw3P3/Hw3P3/Hw3P3/Checksum.cpp:6-11 | different registers never meet |
| CrcPolynomial.ChecksumIsRemainder | Hw3/Hw3P3/Hw3P3/Hw3P3/Checksum.cpp:16-21 | the checksum of a message is the complement of the unique remainder, modulo x^32+x^26+x^23+x^22+x^16+x^12+x^11+x^10+x^8+x^7+x^5+x^4+x^2+x+1, of the message times x^32 with its first 32 coefficients complemented |
| CrcPolynomial.PolyIsGenerator | Hw3/Hw3P3/Hw3P3/Hw3P3/Checksum.cpp:8 | the table's constant is that generator without x^32, lowest bit first |
| CrcPolynomial.ClockIsTimesX | Hw3/Hw3P3/Hw3P3/Hw3P3/Checksum.cpp:7-10 | one step of the inner loop multiplies the register by x modulo the generator |
| DnsName.ReadDNSName | Hw2/Hw2/Hw2.cpp:92-166 | for every packet and start: reads stay inside, it terminates, an accepted text is the dotted form of the RFC 1035 expansion with the cursor past the first pointer or the zero octet, and each rejection means what it says |
| DnsName.AcceptedExactly | Hw2/Hw2/Hw2.cpp:92-166 | a name is accepted if and only if it has an expansion within the length limit |
| DnsName.AcceptedName | Hw2/Hw2/Hw2.cpp:145-157 | an accepted name is the only expansion there is, in at most 256 octets |
| DnsName.RejectedHasNoName | Hw2/Hw2/Hw2.cpp:101-148 | whatever the fault, a rejected name has no expansion within the limit |
| DnsName.LoopNeverEnds | Hw2/Hw2/Hw2.cpp:108-113 | a position that leads back to itself has no expansion at any depth |
| DnsName.WalkLoop | Hw2/Hw2/Hw2.cpp:108-113 | an offset visited twice means that the pointer chain from the start never ends |
| DnsName.FollowPointer | Hw2/Hw2/Hw2.cpp:100-129 | the compression branch: its four checks in order, the target is the low 14 bits of the two octets, and the cursor is saved at the first jump |
| DnsName.TakeLabel | Hw2/Hw2/Hw2.cpp:130-154 | the label branch extends the text by exactly the label, dot included |
| DnsQuery.ConvertToDNSFormat | Hw2/Hw2/Hw2.cpp:59-71 | the two cursors write the encoding of the host name and touch nothing else |
| DnsQuery.CreateDNSQuery | Hw2/Hw2/Hw2.cpp:73-90 | the buffer holds header, name and question, and the computed size is that of the packet |
| DnsQuery.QueryReadsBack | Hw2/Hw2/Hw2.cpp:74-89 | read back in network order, the packet is one recursive question of type A or PTR and class IN under its transaction id, with the encoded name up to its first zero octet |
| DnsRoundTrip.EncodeDotted | Hw2/Hw2/Hw2.cpp:59-71 | the encoder turns a dotted host name into exactly its length-prefixed labels and a zero |
| DnsRoundTrip.ExpandWire | Hw2/Hw2/Hw2.cpp:92-166 | length-prefixed labels anywhere in a packet expand to those labels and leave the cursor behind them |
| DnsRoundTrip.CompressedExpands | Hw2/Hw2/Hw2.cpp:100-154 | any labels followed by the octets 192 + t / 256 and t % 256, where a name stands at t, expand to those labels and that name, with the cursor behind the two octets |
| DnsRoundTrip.CompressedDecodes | Hw2/Hw2/Hw2.cpp:92-166 | readDNSName returns the dotted form of all of them, when that is at most 255 octets |
| DnsRoundTrip.EncodeLabels | Hw2/Hw2/Hw2.cpp:59-71 | what the encoder makes of any text at all: each piece up to a dot behind its length modulo 256, empty pieces and long ones included |
| DnsRoundTrip.RoundTrip | Hw2/Hw2/Hw2.cpp:442-445 | decoding the query built for any host name of at most 255 octets returns that name with the cursor on the question type, and querySize is the packet's length |
| DnsRoundTrip.PtrRoundTrip | Hw2/Hw2/Hw2.cpp:46-56 | the same for the reversed dotted quad of any address under in-addr.arpa |
| DnsRoundTrip.PtrText | Hw2/Hw2/Hw2.cpp:46-56 | the name asked for is the four numbers in decimal from the last to the first, dots between them, and ".in-addr.arpa" |
| DnsRoundTrip.OneNumeral | Hw2/Hw2/Hw2.cpp:54-55 | a string of digits without leading zeros stands for an octet if and only if it is the one written |
| DnsRoundTrip.DecimalValue | Hw2/Hw2/Hw2.cpp:54-55 | the digits of an address octet stand for that octet, without leading zeros |
| DnsRoundTrip.LongestName | Hw2/Hw2/Hw2.cpp:145-150 | a host name that passes the length check and needs 256 octets |
| CrawlerRuns.AtAnyTime | Hw1/Hw1P3/Hw1P3/Hw1P3.cpp:472-551 | at every moment of every interleaving no host and no address passes its check twice, E >= H >= D >= I >= R >= C >= the sum of the classes, and the crawl is marked finished exactly when a worker has returned, the queue being empty |
| CrawlerRuns.WhenAllReturned | Hw1/Hw1P3/Hw1P3/Hw1P3.cpp:472-551 | when all workers have returned, E is the number of URLs queued, H the number of distinct hosts, I of distinct addresses, and C the sum of the classes |
| CrawlerLog.Polite | Hw1/Hw1P3/Hw1P3/Hw1P3.cpp:492-534 | at every moment of every interleaving: no host is looked up, asked for robots.txt or asked for a page twice; a page is asked for only after its host answered the robots request with 400 to 499; only located hosts are asked, and only URLs of the input |
| CrawlerLog.FinalCounts | Hw1/Hw1P3/Hw1P3/Hw1P3.cpp:492-542 | when all workers have returned every counter is the exact number of network exchanges of its kind: each host looked up once, the set of addresses is what the lookups gave, R and the page requests are the robots answers from 400 to 499, C the pages received, each class the pages with a status in its range |
| CrawlerLog.BookedStep | Hw1/Hw1P3/Hw1P3/Hw1P3.cpp:492-542 | each section keeps every counter in balance with the log and with what the workers hold |
| CrawlerRuns.TallyStep | Hw1/Hw1P3/Hw1P3/Hw1P3.cpp:33-87 | each counter and the workers between two counters stay in balance at every atomic section |
| CrawlerRuns.ClassifyByRange | Hw1/Hw1P3/Hw1P3/Hw1P3.cpp:536-542 | a page is counted in the class whose range holds its status code, and in no other |
| CrawlerRuns.ExclusiveStep | Hw1/Hw1P3/Hw1P3/Hw1P3.cpp:159-171 | hosts and addresses that passed are, with multiplicity, those in the two sets |
| CrawlerRuns.HandledStep | Hw1/Hw1P3/Hw1P3/Hw1P3.cpp:475-489 | no URL is lost between the queue and the host check |
| Crawler.Pool.IsHostUnique | Hw1/Hw1P3/Hw1P3/Hw1P3.cpp:159-164 | true exactly for the first insertion of a host |
| Crawler.Pool.IsIPUnique | Hw1/Hw1P3/Hw1P3/Hw1P3.cpp:166-171 | true exactly for the first insertion of an address |
| Crawler.Pool.Advance | Hw1/Hw1P3/Hw1P3/Hw1P3.cpp:472-551 | one atomic section of one worker is the step the interleavings are made of, and no other worker moves |
| Traceroute.Trace | Hw4/Hw4/Hw4.cpp:199-342 | the loop ends for every schedule of replies within 45,091 turns; max_ttl is the least of 30 and all echo replies, its hop has replied, each hop shows its first reply and its address and RTT never change after it; in every turn a hop is probed again exactly when it has not replied, has been probed less than three times and its timeout has passed since the last probe; and the loop ends exactly with the first turn that finds no such hop left to wait for |
| Traceroute.Probe | Hw4/Hw4/Hw4.cpp:206-342 | the loop from the state after the first probes: it ends within the bound, with no hop pending, and no hop that has replied ever changes |
| Traceroute.OneTurn | Hw4/Hw4/Hw4.cpp:206-342 | a turn that is not the last lowers the total credit by at least one, whatever arrives and however max_ttl shrinks, and changes no hop that had replied |
| Traceroute.TotalDrops | Hw4/Hw4/Hw4.cpp:317-341 | the measure of the whole table drops when some hop is pending |
| Traceroute.Scan | Hw4/Hw4/Hw4.cpp:317-341 | exactly the pending hops whose timeout has passed are probed again, and the loop is finished exactly when none was pending |
| Traceroute.ProbedByTurn | Hw4/Hw4/Hw4.cpp:206-342 | over a turn, in terms of the table before and after it: which hops are probed again, and whether there is one to wait for |
| Traceroute.Receive | Hw4/Hw4/Hw4.cpp:228-289 | a reply changes only its own hop, only if that had not replied, and only an echo reply can lower max_ttl |
| Traceroute.Timeout | Hw4/Hw4/Hw4.cpp:50-72 | the neighbour timeout lies in [100, 500] |
| Traceroute.TimeoutIsTwiceAverage | Hw4/Hw4/Hw4.cpp:50-72 | with x twice the average round-trip time of the neighbours that have answered: 100 for x below 100, x up to 500, 500 above; 500 at the ends of the path or with no answer |
| Traceroute.FirstReplyIsFirst | Hw4/Hw4/Hw4.cpp:274-280 | the reply a hop shows is the first that names it |
| Traceroute.FirstReplyStays | Hw4/Hw4/Hw4.cpp:274-280 | later turns never change which reply is the first about a hop |
| Traceroute.UnmovedByTurn | Hw4/Hw4/Hw4.cpp:258-280 | receiving and probing change nothing of a hop that has replied |
| Traceroute.NearestIsLeast | Hw4/Hw4/Hw4.cpp:246-251 | max_ttl is a lower bound of all echo replies seen and is one of them when below 30 |

## Left out

- Timer deadlines: `expireTime` and the wait durations are not modelled; a timeout can happen whenever the timer is armed, which covers every deadline.
- Statistics: `ACKbytes`, `totalRets`, `totalTimeouts`, `totalFastRetransmit` and the progress threads.
- Winsock, handles and consoles: sockets, events, thread creation, `select`, sleeping and printing; a `sendto` or `recvfrom` is an outcome.
- Open's SYN exchange: attempts and their timers; the model starts from the SYN-ACK.
- Single-worker Close after its wait loop: it returns STATUS_OK even when no FIN-ACK arrived, so no equivalence is claimed; the two-thread Close has it.
- The unexpected wait result of the worker loop (`Hw3/Hw3P3/Hw3P3/Hw3P3/SenderSocket.cpp:180-185`) and the failure results of the other waits.
- Memory before it is written: `Assumptions` treats it as undefined; nothing is said about its contents.
- Floating point and clock rounding: reals instead of `float`, integer ticks instead of `clock_t`.
- Wrap-around of sequence numbers and of `lastReleased` at 2^31, and the conversions between `int` and `DWORD` in the ACK comparison.
- The receiver program is not part of this repository; it is an environment that keeps the contract of `Hw3/Hw3P3/Hw3P3/Hw3P3/SenderSocket.h:62-68`.
- Time stamps and round-trip samples of the two-thread variant, and reordering of its memory accesses by compiler or processor.
- Traceroute.Trace: the DNS lookups and error strings inside the loop, the wait duration chosen for `select`, and the result of resending are not modelled.
- DnsName.ReadDNSName: the process exits on a rejection; the model returns the reason instead. Octets above 127 are unsigned here, so label lengths of 128 to 191 are too long rather than negative.
- DNS answers: `parseDNSResponse` and its record walk, and the second decoder in `Hw4/Hw4/dns_helper.cpp`.
- `ip_checksum` of `Hw4/Hw4/icmp_helper.cpp` and the layout of ICMP packets.
- Crawler: parsing of URLs, HTTP and HTML, link counts, byte counts, `activeThreadsCount` and the statistics thread; a lookup, an exchange and a status code are answers of the environment.
- The earlier exercises (Hw1P1, Hw1P2, Hw3P1, Hw3P2) and the HTML parser library.
