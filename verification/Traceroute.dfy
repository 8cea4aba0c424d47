/** The probe loop of Hw4.cpp: thirty hops probed in parallel, replies, and retransmission with timeouts
    derived from the neighbours. Times are milliseconds. */
module Traceroute {
  import opened Common

  const HOPS: nat := 30
  const TRIES: nat := 3

  datatype Hop = Hop(replied: bool, addr: int, rtt: real, sentAt: real)

  /** What one turn of the loop may receive: an ICMP message that names one of our probes, or nothing of use. */
  datatype Reply =
    | Nothing
    | Expired(seqNo: nat, from: int)
    | Echo(seqNo: nat, from: int)
    | Unreachable(seqNo: nat, from: int)

  type Clock = nat -> real

  /** One turn: the reply, when it was read, what the clock shows when each hop is then examined, and when the turn
      ends. */
  datatype Turn = Turn(reply: Reply, at: real, now: Clock, end: real)

  // ------------------------------------------------ the neighbour timeout

  function Clamp(t: real): real { if t < 100.0 then 100.0 else if t > 500.0 then 500.0 else t }

  /** compute_timeout_for_hop. */
  function Timeout(hops: seq<Hop>, ttl: nat): (t: real)
    requires |hops| == HOPS + 1 && 1 <= ttl <= HOPS
    ensures 100.0 <= t <= 500.0
  {
    if 1 < ttl < HOPS then
      var before := if hops[ttl - 1].replied then hops[ttl - 1].rtt else -1.0;
      var after := if hops[ttl + 1].replied then hops[ttl + 1].rtt else -1.0;
      Clamp(if before > 0.0 && after > 0.0 then before + after
            else if before > 0.0 then 2.0 * before
            else if after > 0.0 then 2.0 * after
            else 1000.0)
    else Clamp(1000.0)
  }

  /** The round-trip times the neighbours of a hop have shown. */
  function Known(hops: seq<Hop>, ttl: nat): (rtts: seq<real>)
    requires |hops| == HOPS + 1 && 1 < ttl < HOPS
  {
    Shown(hops[ttl - 1]) + Shown(hops[ttl + 1])
  }

  function Shown(h: Hop): seq<real> { if h.replied && h.rtt > 0.0 then [h.rtt] else [] }

  function Sum(xs: seq<real>): real { if xs == [] then 0.0 else xs[0] + Sum(xs[1..]) }

  /** Twice the average round-trip time of the neighbours that have answered; 100 where that is less, 500 where it is
      more, at the ends of the path and while no neighbour has answered. */
  lemma TimeoutIsTwiceAverage(hops: seq<Hop>, ttl: nat)
    requires |hops| == 31 && 1 <= ttl <= 30
    ensures 1 < ttl < 30 && Known(hops, ttl) != [] ==>
              var x := 2.0 * (Sum(Known(hops, ttl)) / |Known(hops, ttl)| as real);
              && (x < 100.0 ==> Timeout(hops, ttl) == 100.0)
              && (100.0 <= x <= 500.0 ==> Timeout(hops, ttl) == x)
              && (500.0 < x ==> Timeout(hops, ttl) == 500.0)
    ensures ttl == 1 || ttl == 30 || Known(hops, ttl) == [] ==> Timeout(hops, ttl) == 500.0
  {
    if 1 < ttl < HOPS {
      var xs := Known(hops, ttl);
      if |xs| == 2 {
        assert xs[1..] == [xs[1]] && xs[1..][1..] == [];
        assert Sum(xs[1..]) == xs[1] + Sum(xs[1..][1..]);
        assert Sum(xs) == xs[0] + xs[1];
      }
    }
  }

  /** Neither a hop's own state nor the send times of its neighbours matter to its timeout. */
  lemma TimeoutOfReplies(a: seq<Hop>, b: seq<Hop>, ttl: nat)
    requires |a| == |b| == HOPS + 1 && 1 <= ttl <= HOPS
    requires forall i :: 0 <= i <= HOPS ==> a[i].replied == b[i].replied && a[i].rtt == b[i].rtt
    ensures Timeout(a, ttl) == Timeout(b, ttl)
  {}

  // ------------------------------------------------ receiving

  /** The hop a reply is about; 0 when it is about none. */
  function SeqOf(r: Reply): nat { if r.Nothing? then 0 else r.seqNo }

  function Record(h: Hop, r: Reply, at: real): Hop
    requires !r.Nothing?
  {
    if h.replied then h else Hop(true, r.from, at - h.sentAt, h.sentAt)
  }

  method Receive(hops: array<Hop>, maxTtl: nat, r: Reply, at: real) returns (newMax: nat)
    requires hops.Length == HOPS + 1
    modifies hops
    ensures newMax == if r.Echo? && r.seqNo < maxTtl then r.seqNo else maxTtl
    ensures forall i :: 0 <= i <= HOPS ==>
              hops[i] == if 1 <= i && i == SeqOf(r) then Record(old(hops[i]), r, at) else old(hops[i])
  {
    newMax := maxTtl;
    var seqNo := 0;
    match r {
      case Nothing =>
      case Expired(s, _) => seqNo := s;
      case Echo(s, _) =>
        seqNo := s;
        newMax := if s < maxTtl then s else maxTtl;
      case Unreachable(s, from) =>
        seqNo := s;
        if 1 <= seqNo <= HOPS && !hops[seqNo].replied {
          hops[seqNo] := hops[seqNo].(addr := from, rtt := at - hops[seqNo].sentAt, replied := true);
        }
    }
    if 1 <= seqNo <= HOPS && !hops[seqNo].replied {
      hops[seqNo] := hops[seqNo].(addr := r.from, rtt := at - hops[seqNo].sentAt, replied := true);
    }
  }

  // ------------------------------------------------ retransmission

  predicate Pending(h: Hop, tries: nat) { !h.replied && tries < TRIES }

  predicate Due(hops: seq<Hop>, attempts: seq<nat>, i: nat, now: Clock)
    requires |hops| == |attempts| == HOPS + 1 && 1 <= i <= HOPS
  {
    Pending(hops[i], attempts[i]) && now(i) - hops[i].sentAt >= Timeout(hops, i)
  }

  /** The loop over the hops: a pending hop whose timeout has passed is probed again, nothing else changes, and
      the turn is the last one exactly when no hop was pending. */
  method Scan(hops: array<Hop>, attempts: array<nat>, maxTtl: nat, now: Clock) returns (finished: bool)
    requires hops.Length == attempts.Length == HOPS + 1 && maxTtl <= HOPS && attempts as object != hops
    modifies hops, attempts
    ensures forall i :: 0 <= i <= HOPS ==>
              if 1 <= i <= maxTtl && old(!hops[i].replied && attempts[i] < 3 &&
                                         now(i) - hops[i].sentAt >= Timeout(hops[..], i))
              then hops[i] == old(hops[i]).(sentAt := now(i)) && attempts[i] == old(attempts[i]) + 1
              else hops[i] == old(hops[i]) && attempts[i] == old(attempts[i])
    ensures finished <==> forall i :: 1 <= i <= maxTtl ==> old(hops[i].replied || attempts[i] >= 3)
  {
    finished := true;
    ghost var h0, a0 := hops[..], attempts[..];
    var i := 1;
    while i <= maxTtl
      invariant 1 <= i <= maxTtl + 1
      invariant forall k :: 0 <= k <= HOPS && i <= k ==> hops[k] == h0[k] && attempts[k] == a0[k]
      invariant forall k :: 0 <= k < i ==>
                  if 1 <= k && Due(h0, a0, k, now)
                  then hops[k] == h0[k].(sentAt := now(k)) && attempts[k] == a0[k] + 1
                  else hops[k] == h0[k] && attempts[k] == a0[k]
      invariant finished <==> forall k :: 1 <= k < i ==> !Pending(h0[k], a0[k])
    {
      if !hops[i].replied && attempts[i] < TRIES {
        var elapsed := now(i) - hops[i].sentAt;
        TimeoutOfReplies(hops[..], h0, i);
        var timeout := Timeout(hops[..], i);
        if elapsed >= timeout {
          hops[i] := hops[i].(sentAt := now(i));
          attempts[i] := attempts[i] + 1;
          finished := false;
        } else {
          finished := false;
        }
      }
      i := i + 1;
    }
  }

  // ------------------------------------------------ the termination measure

  function Least(x: real, y: real): real { if x < y then x else y }

  /** What a pending hop still has to give: 501 for each probe left, less the time it has waited. */
  function Credit(h: Hop, tries: nat, clock: real): real {
    if Pending(h, tries) then 501.0 * (TRIES - tries) as real - Least(clock - h.sentAt, 500.0) else 0.0
  }

  function Total(hops: seq<Hop>, attempts: seq<nat>, n: nat, clock: real): real
    requires |hops| == |attempts| == HOPS + 1 && n <= HOPS
  {
    if n == 0 then 0.0 else Total(hops, attempts, n - 1, clock) + Credit(hops[n], attempts[n], clock)
  }

  /** No probe has been sent after `clock`. */
  ghost predicate SentBy(hops: seq<Hop>, clock: real) {
    forall i :: 0 <= i < |hops| ==> hops[i].sentAt <= clock
  }

  lemma {:induction false} TotalInRange(hops: seq<Hop>, attempts: seq<nat>, n: nat, clock: real)
    requires |hops| == |attempts| == HOPS + 1 && n <= HOPS && SentBy(hops, clock)
    ensures 0.0 <= Total(hops, attempts, n, clock) <= 1503.0 * n as real
  {
    if n > 0 {
      TotalInRange(hops, attempts, n - 1, clock);
    }
  }

  /** How one hop may change in a turn that examines it at `now` and is over by `end`. */
  predicate Turned(h: Hop, a: nat, g: Hop, b: nat, clock: real, now: real, end: real) {
    && clock + 1.0 <= now <= end && h.sentAt <= clock
    && (Pending(g, b) ==> Pending(h, a))
    && if g.sentAt == now then b == a + 1 && Pending(h, a)
       else g.sentAt == h.sentAt && b == a && (Pending(g, b) ==> now - g.sentAt < 500.0)
  }

  lemma CreditDrops(h: Hop, a: nat, g: Hop, b: nat, clock: real, now: real, end: real)
    requires Turned(h, a, g, b, clock, now, end)
    ensures 0.0 <= Credit(g, b, end) <= Credit(h, a, clock)
    ensures Pending(h, a) ==> Credit(g, b, end) <= Credit(h, a, clock) - 1.0
  {}

  /** A turn in which some hop is still pending lowers the total by at least one millisecond's worth, whatever was
      received, whatever the neighbours' timeouts have become, and however far maxTtl has shrunk. */
  lemma {:induction false} TotalDrops(h: seq<Hop>, a: seq<nat>, n: nat, g: seq<Hop>, b: seq<nat>, m: nat,
                                      clock: real, t: Turn)
    requires |h| == |a| == |g| == |b| == HOPS + 1 && m <= n <= HOPS
    requires forall i :: 1 <= i <= m ==> Turned(h[i], a[i], g[i], b[i], clock, t.now(i), t.end)
    requires SentBy(h, clock)
    ensures Total(g, b, m, t.end) <= Total(h, a, n, clock)
    ensures (exists i :: 1 <= i <= m && Pending(h[i], a[i])) ==> Total(g, b, m, t.end) <= Total(h, a, n, clock) - 1.0
    decreases n
  {
    if n > 0 {
      if m < n {
        TotalDrops(h, a, n - 1, g, b, m, clock, t);
      } else {
        TotalDrops(h, a, n - 1, g, b, m - 1, clock, t);
        CreditDrops(h[n], a[n], g[n], b[n], clock, t.now(n), t.end);
      }
    }
  }

  // ------------------------------------------------ what a run has received

  type Schedule = nat -> Turn

  /** The turn examines every hop at least a millisecond after `clock`. */
  ghost predicate Follows(t: Turn, clock: real) {
    forall i :: 1 <= i <= HOPS ==> clock + 1.0 <= t.now(i) <= t.end
  }

  ghost predicate Ticks(env: Schedule, n: nat) { Follows(env(n + 1), env(n).end) }

  /** The smallest hop that answered an echo request in the first n turns, or 30. */
  function Nearest(env: Schedule, n: nat): nat {
    if n == 0 then HOPS
    else
      var r := env(n - 1).reply;
      if r.Echo? && r.seqNo < Nearest(env, n - 1) then r.seqNo else Nearest(env, n - 1)
  }

  /** The turn of the first reply about hop i. */
  function FirstReply(env: Schedule, i: nat, n: nat): Option<nat> {
    if n == 0 then None
    else if FirstReply(env, i, n - 1).Some? then FirstReply(env, i, n - 1)
    else if SeqOf(env(n - 1).reply) == i then Some(n - 1) else None
  }

  lemma {:induction false} FirstReplyIsFirst(env: Schedule, i: nat, n: nat)
    requires 1 <= i
    ensures match FirstReply(env, i, n)
      case Some(k) => k < n && SeqOf(env(k).reply) == i && forall j :: 0 <= j < k ==> SeqOf(env(j).reply) != i
      case None => forall j :: 0 <= j < n ==> SeqOf(env(j).reply) != i
  {
    if n > 0 {
      FirstReplyIsFirst(env, i, n - 1);
    }
  }

  /** Once a hop has answered, later turns do not change which reply it shows. */
  lemma {:induction false} FirstReplyStays(env: Schedule, i: nat, n: nat, m: nat)
    requires n <= m && FirstReply(env, i, n).Some?
    ensures FirstReply(env, i, m) == FirstReply(env, i, n)
    decreases m
  {
    if n < m {
      FirstReplyStays(env, i, n, m - 1);
    }
  }

  lemma {:induction false} NearestIsLeast(env: Schedule, n: nat)
    ensures Nearest(env, n) <= HOPS
    ensures forall j :: 0 <= j < n && env(j).reply.Echo? ==> Nearest(env, n) <= env(j).reply.seqNo
    ensures Nearest(env, n) < HOPS ==>
              exists j :: 0 <= j < n && env(j).reply.Echo? && env(j).reply.seqNo == Nearest(env, n)
  {
    if n > 0 {
      NearestIsLeast(env, n - 1);
    }
  }

  /** A hop shows its first reply and nothing later. */
  ghost predicate Shows(env: Schedule, h: Hop, i: nat, n: nat) {
    match FirstReply(env, i, n)
    case None => !h.replied
    case Some(k) =>
      h.replied && !env(k).reply.Nothing? && h.addr == env(k).reply.from && h.rtt == env(k).at - h.sentAt
  }

  lemma {:induction false} NearestReplied(env: Schedule, n: nat)
    requires 1 <= Nearest(env, n) < HOPS
    ensures FirstReply(env, Nearest(env, n), n).Some?
  {
    NearestIsLeast(env, n);
    FirstReplyIsFirst(env, Nearest(env, n), n);
  }

  /** The state at the head of the loop after n turns. */
  ghost predicate Running(env: Schedule, hops: seq<Hop>, attempts: seq<nat>, maxTtl: nat, n: nat, clock: real) {
    && |hops| == |attempts| == HOPS + 1
    && maxTtl == Nearest(env, n) <= HOPS
    && SentBy(hops, clock)
    && (forall i :: 1 <= i <= HOPS ==> Shows(env, hops[i], i, n))
    && (forall i :: 0 <= i <= HOPS ==> attempts[i] <= TRIES)
    && Follows(env(n), clock)
  }

  lemma ShowsReceived(env: Schedule, h: Hop, i: nat, n: nat)
    requires 1 <= i && Shows(env, h, i, n)
    ensures Shows(env, if i == SeqOf(env(n).reply) then Record(h, env(n).reply, env(n).at) else h, i, n + 1)
  {}

  /** What receiving does to the hops, and what examining them does. */
  ghost predicate Received(h: seq<Hop>, g: seq<Hop>, t: Turn) {
    && |h| == |g| == HOPS + 1
    && forall i :: 0 <= i <= HOPS ==>
                     g[i] == if 1 <= i && i == SeqOf(t.reply) then Record(h[i], t.reply, t.at) else h[i]
  }

  ghost predicate Scanned(h: seq<Hop>, a: seq<nat>, g: seq<Hop>, b: seq<nat>, m: nat, now: Clock) {
    && |h| == |a| == |g| == |b| == HOPS + 1
    && forall i :: 0 <= i <= HOPS ==>
                     if 1 <= i <= m && Due(h, a, i, now) then g[i] == h[i].(sentAt := now(i)) && b[i] == a[i] + 1
                     else g[i] == h[i] && b[i] == a[i]
  }

  /** Every hop that had replied is as it was, its address and round-trip time included. */
  ghost predicate Unmoved(h: seq<Hop>, g: seq<Hop>) {
    |h| == |g| && forall i :: 0 <= i < |h| && h[i].replied ==> g[i] == h[i]
  }

  lemma UnmovedByTurn(h: seq<Hop>, a: seq<nat>, r: seq<Hop>, g: seq<Hop>, b: seq<nat>, m: nat, t: Turn)
    requires Received(h, r, t) && Scanned(r, a, g, b, m, t.now)
    ensures Unmoved(h, g)
  {
    hide Timeout;
  }

  datatype Table = Table(hops: seq<Hop>, attempts: seq<nat>, maxTtl: nat)

  /** A hop within reach is probed again in a turn exactly when it has not answered, has been probed less than three
      times, and the time since its last probe has reached its timeout. */
  ghost predicate Probed(t: Turn, s: Table, u: Table) {
    && |s.hops| == |s.attempts| == |u.hops| == |u.attempts| == 31
    && forall i :: 0 <= i <= 30 ==>
         if 1 <= i <= u.maxTtl && !u.hops[i].replied && s.attempts[i] < 3 &&
            t.now(i) - s.hops[i].sentAt >= Timeout(u.hops, i)
         then u.attempts[i] == s.attempts[i] + 1 && u.hops[i].sentAt == t.now(i)
         else u.attempts[i] == s.attempts[i] && u.hops[i].sentAt == s.hops[i].sentAt
  }

  /** Some hop within reach has not answered and had probes left. */
  ghost predicate Waiting(s: Table, u: Table) {
    exists i :: 1 <= i <= u.maxTtl && i < |s.attempts| && i < |u.hops| && !u.hops[i].replied && s.attempts[i] < 3
  }

  lemma ProbedByTurn(h: seq<Hop>, a: seq<nat>, x: nat, r: seq<Hop>, g: seq<Hop>, b: seq<nat>, m: nat, t: Turn)
    requires m <= HOPS && Received(h, r, t) && Scanned(r, a, g, b, m, t.now)
    ensures Probed(t, Table(h, a, x), Table(g, b, m))
    ensures Waiting(Table(h, a, x), Table(g, b, m)) <==> exists i :: 1 <= i <= m && !r[i].replied && a[i] < 3
  {
    hide Timeout;
    forall i | 1 <= i <= m ensures Timeout(r, i) == Timeout(g, i) {
      TimeoutOfReplies(r, g, i);
    }
    forall i | 0 <= i <= 30 ensures r[i].sentAt == h[i].sentAt && r[i].replied == g[i].replied {}
  }

  lemma TurnedByTurn(h: seq<Hop>, a: seq<nat>, r: seq<Hop>, g: seq<Hop>, b: seq<nat>, m: nat, t: Turn, clock: real)
    requires m <= HOPS && Received(h, r, t) && Scanned(r, a, g, b, m, t.now) && SentBy(h, clock) && Follows(t, clock)
    ensures forall i :: 1 <= i <= m ==> Turned(h[i], a[i], g[i], b[i], clock, t.now(i), t.end)
    ensures SentBy(g, t.end)
  {
    hide Timeout;
    forall i | 1 <= i <= m ensures Turned(h[i], a[i], g[i], b[i], clock, t.now(i), t.end) {
      assert Due(r, a, i, t.now) || !Due(r, a, i, t.now);
    }
    assert clock + 1.0 <= t.now(1) <= t.end;
  }

  lemma ShownByTurn(env: Schedule, h: seq<Hop>, a: seq<nat>, r: seq<Hop>, g: seq<Hop>, b: seq<nat>, m: nat, n: nat)
    requires Received(h, r, env(n)) && Scanned(r, a, g, b, m, env(n).now)
    requires forall i :: 1 <= i <= HOPS ==> Shows(env, h[i], i, n)
    requires forall i :: 0 <= i <= HOPS ==> a[i] <= TRIES
    ensures forall i :: 1 <= i <= HOPS ==> Shows(env, g[i], i, n + 1)
    ensures forall i :: 0 <= i <= HOPS ==> b[i] <= TRIES
  {
    hide Timeout;
    hide FirstReply;
    forall i | 1 <= i <= HOPS ensures Shows(env, g[i], i, n + 1) {
      ShowsReceived(env, h[i], i, n);
    }
  }

  /** What a turn leads to, from the head of the loop to the head of the loop. */
  lemma TurnKept(env: Schedule, h: seq<Hop>, a: seq<nat>, x: nat, r: seq<Hop>, g: seq<Hop>, b: seq<nat>, m: nat,
                 n: nat, clock: real, finished: bool)
    requires Running(env, h, a, x, n, clock) && Ticks(env, n) && m == Nearest(env, n + 1) <= x
    requires Received(h, r, env(n)) && Scanned(r, a, g, b, m, env(n).now)
    requires finished <==> forall i :: 1 <= i <= m ==> !Pending(r[i], a[i])
    ensures Running(env, g, b, m, n + 1, env(n).end) && Unmoved(h, g)
    ensures finished ==> forall i :: 1 <= i <= m && i < |g| == |b| ==> !Pending(g[i], b[i])
    ensures Probed(env(n), Table(h, a, x), Table(g, b, m)) && (Waiting(Table(h, a, x), Table(g, b, m)) <==> !finished)
    ensures |h| == |a| == |g| == |b| == HOPS + 1 && x <= HOPS
    ensures Total(g, b, m, env(n).end) <= Total(h, a, x, clock)
    ensures !finished ==> Total(g, b, m, env(n).end) <= Total(h, a, x, clock) - 1.0
  {
    hide Shows;
    hide Timeout;
    hide Credit;
    ShownByTurn(env, h, a, r, g, b, m, n);
    TurnedByTurn(h, a, r, g, b, m, env(n), clock);
    TotalDrops(h, a, x, g, b, m, clock, env(n));
    UnmovedByTurn(h, a, r, g, b, m, env(n));
    ProbedByTurn(h, a, x, r, g, b, m, env(n));
    hide Probed;
    hide Waiting;
    hide Unmoved;
    if !finished {
      var i :| 1 <= i <= m && Pending(r[i], a[i]);
      assert Pending(h[i], a[i]);
    }
    assert Ticks(env, n);
  }

  /** One turn of the loop: receive, then examine the hops. */
  method OneTurn(env: Schedule, hops: array<Hop>, attempts: array<nat>, maxTtl: nat, n: nat, ghost clock: real)
    returns (newMax: nat, finished: bool)
    requires attempts as object != hops && Running(env, hops[..], attempts[..], maxTtl, n, clock) && Ticks(env, n)
    modifies hops, attempts
    ensures Running(env, hops[..], attempts[..], newMax, n + 1, env(n).end)
    ensures finished ==> forall i :: 1 <= i <= newMax ==> !Pending(hops[i], attempts[i])
    ensures Unmoved(old(hops[..]), hops[..])
    ensures var s, u := old(Table(hops[..], attempts[..], maxTtl)), Table(hops[..], attempts[..], newMax);
      Probed(env(n), s, u) && (Waiting(s, u) <==> !finished)
    ensures Total(hops[..], attempts[..], newMax, env(n).end) <= Total(old(hops[..]), old(attempts[..]), maxTtl, clock)
    ensures !finished ==>
              Total(hops[..], attempts[..], newMax, env(n).end) <=
              Total(old(hops[..]), old(attempts[..]), maxTtl, clock) - 1.0
  {
    hide Shows;
    hide Timeout;
    hide Total;
    hide Probed;
    hide Waiting;
    hide Unmoved;
    ghost var h, a := hops[..], attempts[..];
    newMax := Receive(hops, maxTtl, env(n).reply, env(n).at);
    ghost var r := hops[..];
    assert Received(h, r, env(n));
    finished := Scan(hops, attempts, newMax, env(n).now);
    ghost var g, b := hops[..], attempts[..];
    assert Scanned(r, a, g, b, newMax, env(n).now);
    assert finished <==> forall i :: 1 <= i <= newMax ==> !Pending(r[i], a[i]);
    hide Scanned;
    hide Received;
    hide Running;
    TurnKept(env, h, a, maxTtl, r, g, b, newMax, n, clock, finished);
  }

  lemma RunningShows(env: Schedule, hops: seq<Hop>, attempts: seq<nat>, maxTtl: nat, n: nat, clock: real)
    requires Running(env, hops, attempts, maxTtl, n, clock)
    ensures 1 <= maxTtl < HOPS ==> hops[maxTtl].replied
  {
    if 1 <= maxTtl < HOPS {
      NearestReplied(env, n);
      assert Shows(env, hops[maxTtl], maxTtl, n);
    }
  }

  lemma RunningStart(env: Schedule, hops: seq<Hop>, attempts: seq<nat>, start: real)
    requires |hops| == |attempts| == HOPS + 1 && SentBy(hops, start) && Follows(env(0), start)
    requires forall i :: 0 <= i <= HOPS ==> !hops[i].replied && attempts[i] <= 1
    ensures Running(env, hops, attempts, HOPS, 0, start)
  {}

  lemma RunningRange(env: Schedule, hops: seq<Hop>, attempts: seq<nat>, maxTtl: nat, n: nat, clock: real)
    requires Running(env, hops, attempts, maxTtl, n, clock)
    ensures |hops| == |attempts| == HOPS + 1 && maxTtl <= HOPS
    ensures 0.0 <= Total(hops, attempts, maxTtl, clock) <= 1503.0 * HOPS as real
  {
    TotalInRange(hops, attempts, maxTtl, clock);
  }

  /** No later table of a run changes a hop that has replied. */
  ghost predicate Frozen(history: seq<Table>) {
    forall n, m :: 0 <= n <= m < |history| ==> Unmoved(history[n].hops, history[m].hops)
  }

  lemma FrozenMore(history: seq<Table>, t: Table)
    requires history != [] && Frozen(history) && Unmoved(history[|history| - 1].hops, t.hops)
    ensures Frozen(history + [t])
  {
    var more := history + [t];
    forall n, m | 0 <= n <= m < |more| ensures Unmoved(more[n].hops, more[m].hops) {
      if m == |history| && n < m {
        assert Unmoved(history[n].hops, history[|history| - 1].hops);
      }
    }
  }

  lemma FrozenOne(t: Table)
    ensures Frozen([t])
  {}

  /** Each table of a run follows from the one before, and only the last turn found nothing to wait for. */
  ghost predicate Paced(env: Schedule, history: seq<Table>, finished: bool) {
    forall n :: 0 <= n < |history| - 1 ==>
      && Probed(env(n), history[n], history[n + 1])
      && (Waiting(history[n], history[n + 1]) <==> n + 2 < |history| || !finished)
  }

  lemma PacedMore(env: Schedule, history: seq<Table>, t: Table, finished: bool)
    requires history != [] && Paced(env, history, false)
    requires var last := |history| - 1;
      Probed(env(last), history[last], t) && (Waiting(history[last], t) <==> !finished)
    ensures Paced(env, history + [t], finished)
  {
    hide Probed;
    hide Waiting;
  }

  lemma PacedOne(env: Schedule, t: Table)
    ensures Paced(env, [t], false)
  {}

  /** The loop, from the state after the first probes. */
  method Probe(env: Schedule, hops: array<Hop>, attempts: array<nat>, ghost start: real)
    returns (maxTtl: nat, turns: nat, ghost clock: real, ghost history: seq<Table>)
    requires attempts as object != hops && Running(env, hops[..], attempts[..], HOPS, 0, start)
    requires forall n: nat :: Ticks(env, n)
    modifies hops, attempts
    ensures Running(env, hops[..], attempts[..], maxTtl, turns, clock)
    ensures forall i :: 1 <= i <= maxTtl && i < hops.Length == attempts.Length ==> !Pending(hops[i], attempts[i])
    ensures 1 <= turns <= 1503 * HOPS + 1
    ensures |history| == turns + 1 && history[0] == old(Table(hops[..], attempts[..], HOPS))
    ensures history[turns] == Table(hops[..], attempts[..], maxTtl) && Frozen(history) && Paced(env, history, true)
  {
    hide Running;
    hide Paced;
    hide Probed;
    hide Waiting;
    hide Total;
    hide Frozen;
    hide Unmoved;
    hide Ticks;
    hide Pending;
    maxTtl, turns, clock, history := HOPS, 0, start, [Table(hops[..], attempts[..], HOPS)];
    FrozenOne(history[0]);
    PacedOne(env, history[0]);
    RunningRange(env, hops[..], attempts[..], maxTtl, turns, clock);
    ghost var budget := Total(hops[..], attempts[..], maxTtl, clock);
    while true
      invariant Running(env, hops[..], attempts[..], maxTtl, turns, clock)
      invariant |hops[..]| == |attempts[..]| == HOPS + 1 && maxTtl <= HOPS
      invariant 0.0 <= Total(hops[..], attempts[..], maxTtl, clock) <= budget - turns as real
      invariant |history| == turns + 1 && history[0] == old(Table(hops[..], attempts[..], HOPS))
      invariant history[turns] == Table(hops[..], attempts[..], maxTtl) && Frozen(history) && Paced(env, history, false)
      decreases Total(hops[..], attempts[..], maxTtl, clock)
    {
      var finished;
      maxTtl, finished := OneTurn(env, hops, attempts, maxTtl, turns, clock);
      ghost var table := Table(hops[..], attempts[..], maxTtl);
      FrozenMore(history, table);
      PacedMore(env, history, table, finished);
      turns, clock, history := turns + 1, env(turns).end, history + [table];
      RunningRange(env, hops[..], attempts[..], maxTtl, turns, clock);
      if finished {
        break;
      }
    }
  }

  /** The table after the first probes: no hop has answered, and those whose probe went out have been tried once. */
  ghost predicate FirstProbes(t: Table, sent: seq<bool>, sentAt: seq<real>) {
    && |t.hops| == |t.attempts| == |sent| == |sentAt| == 31 && t.maxTtl == 30
    && forall i :: 1 <= i <= 30 ==>
         !t.hops[i].replied && t.hops[i].sentAt == sentAt[i] && t.attempts[i] == if sent[i] then 1 else 0
  }

  /** The main loop from the first probes on: `sent` and `sentAt` say which went out, and when, by time `start`. The
      schedule is any sequence of replies in which the clock advances at least a millisecond a turn. */
  method Trace(env: Schedule, sent: seq<bool>, sentAt: seq<real>, start: real)
    returns (hops: array<Hop>, attempts: array<nat>, maxTtl: nat, turns: nat, ghost history: seq<Table>)
    requires |sent| == |sentAt| == HOPS + 1 && forall i :: 0 <= i <= HOPS ==> sentAt[i] <= start
    requires Follows(env(0), start) && forall n: nat :: Ticks(env, n)
    ensures hops.Length == attempts.Length == 31
    ensures maxTtl == Nearest(env, turns) <= 30
    ensures 1 <= maxTtl < 30 ==> hops[maxTtl].replied
    ensures forall i :: 1 <= i <= 30 ==> Shows(env, hops[i], i, turns)
    ensures forall i :: 0 <= i <= 30 ==> attempts[i] <= 3
    ensures forall i :: 1 <= i <= maxTtl ==> hops[i].replied || attempts[i] == 3
    ensures 1 <= turns <= 45091
    ensures |history| == turns + 1 && history[turns] == Table(hops[..], attempts[..], maxTtl)
    ensures FirstProbes(history[0], sent, sentAt) && Paced(env, history, true) && Frozen(history)
  {
    hops := new Hop[HOPS + 1](i requires 0 <= i <= HOPS => Hop(false, 0, 0.0, sentAt[i]));
    attempts := new nat[HOPS + 1](i requires 0 <= i <= HOPS => if 1 <= i && sent[i] then 1 else 0);
    RunningStart(env, hops[..], attempts[..], start);
    hide Follows;
    hide Frozen;
    hide Shows;
    hide Nearest;
    hide SentBy;
    ghost var clock;
    maxTtl, turns, clock, history := Probe(env, hops, attempts, start);
    RunningShows(env, hops[..], attempts[..], maxTtl, turns, clock);
  }
}
