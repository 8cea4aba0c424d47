/** What every interleaving of the crawler's workers keeps. */
module CrawlerRuns {
  import opened Common
  import opened Crawler

  /** What a worker asked of the network, and the answer. */
  datatype Exchange =
    | Lookup(host: string, ip: Option<string>)
    | Robots(host: string, status: Option<int>)
    | Page(url: Url, status: Option<int>)

  /** The pool with its history: URLs taken from the queue, hosts and addresses that passed their check, and all
      exchanges with the network. */
  datatype Crew = Crew(m: Shared, workers: seq<Worker>, taken: seq<Url>,
                       hostPasses: multiset<string>, ipPasses: multiset<string>, log: seq<Exchange>)

  function Start(threads: nat, urls: seq<Url>): Crew {
    Crew(Shared(urls, {}, {}, false, NO_STATS), seq(threads, _ => Fetching), [], multiset{}, multiset{}, [])
  }

  predicate CanStep(c: Crew, i: nat) { i < |c.workers| && !c.workers[i].Returned? }

  /** The exchange a section makes, from where the worker stands and what the network answers. */
  function Asked(w: Worker, a: Answer): seq<Exchange> {
    match w
    case HostCounted(u) => [Lookup(u.host, a.ip)]
    case IpCounted(u) => [Robots(u.host, a.robots)]
    case RobotsCounted(u) => [Page(u, a.page)]
    case _ => []
  }

  /** Worker i runs one atomic section. */
  function Step(c: Crew, i: nat, a: Answer): Crew
    requires CanStep(c, i)
  {
    var w := c.workers[i];
    var (m, v) := Act(c.m, w, a);
    Crew(m, c.workers[i := v],
         c.taken + (if v.Popped? then [v.url] else []),
         c.hostPasses + (if v.HostFresh? then multiset{v.url.host} else multiset{}),
         c.ipPasses + (if v.IpFresh? then multiset{w.ip} else multiset{}),
         c.log + Asked(w, a))
  }

  // ------------------------------------------------ counting threads at a stage

  function Stage(w: Worker): nat {
    match w
    case Fetching => 0
    case Popped(_) => 1
    case Extracted(_) => 2
    case HostFresh(_) => 3
    case HostCounted(_) => 4
    case Resolved(_, _) => 5
    case Looked(_, _) => 6
    case IpFresh(_) => 7
    case IpCounted(_) => 8
    case RobotsPassed(_) => 9
    case RobotsCounted(_) => 10
    case Crawled(_, _) => 11
    case Classifying(_, _) => 12
    case Returned => 13
  }

  function Count(ws: seq<Worker>, stage: nat): nat
    decreases |ws|
  {
    if ws == [] then 0 else (if Stage(ws[0]) == stage then 1 else 0) + Count(ws[1..], stage)
  }

  lemma {:induction false} CountUpdate(ws: seq<Worker>, i: nat, w: Worker, stage: nat)
    requires i < |ws|
    ensures Count(ws[i := w], stage) ==
              Count(ws, stage) - (if Stage(ws[i]) == stage then 1 else 0) + (if Stage(w) == stage then 1 else 0)
    decreases |ws|
  {
    if i > 0 {
      CountUpdate(ws[1..], i - 1, w, stage);
      assert ws[i := w][1..] == ws[1..][i - 1 := w];
    } else {
      assert ws[0 := w][1..] == ws[1..];
    }
  }

  lemma {:induction false} CountNone(ws: seq<Worker>, stage: nat)
    requires forall i :: 0 <= i < |ws| ==> Stage(ws[i]) != stage
    ensures Count(ws, stage) == 0
    decreases |ws|
  {
    if ws != [] {
      CountNone(ws[1..], stage);
    }
  }

  // ------------------------------------------------ the invariants

  function Classes(s: Stats): nat { s.http2xx + s.http3xx + s.http4xx + s.http5xx + s.httpOthers }

  /** Every counter, with the threads between one counter and the next. */
  predicate Tally(c: Crew) {
    var s, ws := c.m.stats, c.workers;
    && s.extracted + Count(ws, 1) == |c.taken|
    && s.uniqueHost + Count(ws, 3) == |c.hostPasses|
    && s.uniqueIP + Count(ws, 7) == |c.ipPasses|
    && s.extracted >= s.uniqueHost + Count(ws, 2) + Count(ws, 3)
    && s.uniqueHost >= s.dnsLookups + Count(ws, 4) + Count(ws, 5)
    && s.dnsLookups >= s.uniqueIP + Count(ws, 6) + Count(ws, 7)
    && s.uniqueIP >= s.passedRobots + Count(ws, 8) + Count(ws, 9)
    && s.passedRobots >= s.crawled + Count(ws, 10) + Count(ws, 11)
    && s.crawled == Classes(s) + Count(ws, 12)
    && (c.m.finished <==> 0 < Count(ws, 13))
  }

  lemma {:induction false} CountSome(ws: seq<Worker>, stage: nat)
    requires 0 < Count(ws, stage)
    ensures exists i :: 0 <= i < |ws| && Stage(ws[i]) == stage
    decreases |ws|
  {
    if Stage(ws[0]) != stage {
      CountSome(ws[1..], stage);
      var i :| 0 <= i < |ws| - 1 && Stage(ws[1..][i]) == stage;
      assert Stage(ws[i + 1]) == stage;
    }
  }

  lemma {:induction false} CountOne(ws: seq<Worker>, i: nat)
    requires i < |ws|
    ensures 0 < Count(ws, Stage(ws[i]))
    decreases |ws|
  {
    if 0 < i {
      CountOne(ws[1..], i - 1);
    }
  }

  lemma CountStep(ws: seq<Worker>, i: nat, w: Worker)
    requires i < |ws|
    ensures forall k: nat :: Count(ws[i := w], k) ==
              Count(ws, k) - (if Stage(ws[i]) == k then 1 else 0) + (if Stage(w) == k then 1 else 0)
  {
    forall k: nat ensures Count(ws[i := w], k) ==
        Count(ws, k) - (if Stage(ws[i]) == k then 1 else 0) + (if Stage(w) == k then 1 else 0) {
      CountUpdate(ws, i, w, k);
    }
  }

  function At(p: nat, k: nat): nat { if p == k then 1 else 0 }

  function Within(status: int, low: int): nat { if low <= status < low + 100 then 1 else 0 }

  /** A page is counted in the class of its status code. */
  lemma ClassifyByRange(s: Stats, status: int)
    ensures var t := Classify(s, status);
      && t.http2xx == s.http2xx + Within(status, 200) && t.http3xx == s.http3xx + Within(status, 300)
      && t.http4xx == s.http4xx + Within(status, 400) && t.http5xx == s.http5xx + Within(status, 500)
      && t.httpOthers == s.httpOthers + (if 200 <= status < 600 then 0 else 1)
  {}

  /** The stage a section leads to, and what it counts: it goes back to the queue or one stage on. */
  lemma ActCounts(m: Shared, w: Worker, a: Answer)
    requires !w.Returned?
    ensures var (n, v) := Act(m, w, a); var p, q := Stage(w), Stage(v);
      && (q == 0 || q == p + 1 || (p == 0 && q == 13)) && (p in {1, 3, 5, 7, 9, 11} ==> q == p + 1) && p <= 12
      && n.stats.extracted == m.stats.extracted + At(p, 1)
      && n.stats.uniqueHost == m.stats.uniqueHost + At(p, 3)
      && n.stats.dnsLookups == m.stats.dnsLookups + At(p, 5)
      && n.stats.uniqueIP == m.stats.uniqueIP + At(p, 7)
      && n.stats.passedRobots == m.stats.passedRobots + At(p, 9)
      && n.stats.crawled == m.stats.crawled + At(p, 11)
      && Classes(n.stats) == Classes(m.stats) + At(p, 12)
      && (n.finished <==> m.finished || q == 13)
      && (v.Popped? <==> q == 1) && (v.HostFresh? <==> q == 3) && (v.IpFresh? <==> q == 7)
  {}

  lemma TallyStep(c: Crew, i: nat, a: Answer)
    requires Tally(c) && CanStep(c, i)
    ensures Tally(Step(c, i, a))
  {
    var w := c.workers[i];
    ActCounts(c.m, w, a);
    CountStep(c.workers, i, Act(c.m, w, a).1);
    hide Count;
    hide Act;
    hide Stage;
    hide Classes;
  }

  /** A host passed its check once for each time it was inserted, so at most once; likewise an address. */
  predicate Exclusive(c: Crew) {
    c.hostPasses == multiset(c.m.seenHosts) && c.ipPasses == multiset(c.m.seenIPs)
  }

  lemma ExclusiveStep(c: Crew, i: nat, a: Answer)
    requires Exclusive(c) && CanStep(c, i)
    ensures Exclusive(Step(c, i, a))
  {}

  predicate Holds(w: Worker, u: Url) { w == Popped(u) || w == Extracted(u) }

  /** Every URL taken has had its host seen or is with a worker that has yet to check it. */
  ghost predicate Covered(c: Crew) {
    forall u :: u in c.taken ==> u.host in c.m.seenHosts || exists i :: 0 <= i < |c.workers| && Holds(c.workers[i], u)
  }

  /** Hosts are seen only in URLs taken, and workers hold only those. */
  ghost predicate Sourced(c: Crew) {
    && (forall h :: h in c.m.seenHosts ==> exists u :: u in c.taken && u.host == h)
    && (forall i :: 0 <= i < |c.workers| ==>
                      c.workers[i].Popped? || c.workers[i].Extracted? ==> c.workers[i].url in c.taken)
  }

  /** The URLs taken and the queue make up the input, and whoever has returned found the queue empty. */
  ghost predicate Split(c: Crew, urls: seq<Url>) {
    && c.taken + c.m.queue == urls
    && (forall i :: 0 <= i < |c.workers| && c.workers[i].Returned? ==> c.m.queue == [])
  }

  ghost predicate Handled(c: Crew, urls: seq<Url>) { Covered(c) && Sourced(c) && Split(c, urls) }

  lemma CoveredStep(c: Crew, i: nat, a: Answer)
    requires Covered(c) && CanStep(c, i)
    ensures Covered(Step(c, i, a))
  {
    var d := Step(c, i, a);
    forall u | u in d.taken
      ensures u.host in d.m.seenHosts || exists j :: 0 <= j < |d.workers| && Holds(d.workers[j], u)
    {
      if u in c.taken && u.host !in c.m.seenHosts {
        var j :| 0 <= j < |c.workers| && Holds(c.workers[j], u);
        if j == i && c.workers[i].Popped? {
          assert Holds(d.workers[i], u);
        } else if j != i {
          assert Holds(d.workers[j], u);
        }
      } else if u !in c.taken {
        assert Holds(d.workers[i], u);
      }
    }
  }

  lemma SourcedStep(c: Crew, i: nat, a: Answer)
    requires Sourced(c) && CanStep(c, i)
    ensures Sourced(Step(c, i, a))
  {
    var d := Step(c, i, a);
    forall h | h in d.m.seenHosts ensures exists u :: u in d.taken && u.host == h {
      if h in c.m.seenHosts {
        var u :| u in c.taken && u.host == h;
        assert u in d.taken;
      } else {
        assert c.workers[i].url in d.taken;
      }
    }
  }

  lemma HandledStep(c: Crew, i: nat, a: Answer, urls: seq<Url>)
    requires Handled(c, urls) && CanStep(c, i)
    ensures Handled(Step(c, i, a), urls)
  {
    CoveredStep(c, i, a);
    SourcedStep(c, i, a);
    hide Covered;
    hide Sourced;
  }

  // ------------------------------------------------ over runs

  datatype Turn = Turn(thread: nat, answer: Answer)

  /** The pool after a schedule; None when it names a thread that cannot run. */
  function Run(c: Crew, schedule: seq<Turn>): Option<Crew>
    decreases |schedule|
  {
    if schedule == [] then Some(c)
    else
      var n := |schedule| - 1;
      match Run(c, schedule[..n])
      case None => None
      case Some(d) =>
        var t := schedule[n];
        if CanStep(d, t.thread) then Some(Step(d, t.thread, t.answer)) else None
  }

  lemma StartHolds(threads: nat, urls: seq<Url>)
    ensures Tally(Start(threads, urls)) && Exclusive(Start(threads, urls)) && Handled(Start(threads, urls), urls)
  {
    var ws := Start(threads, urls).workers;
    forall k: nat | 1 <= k <= 13 ensures Count(ws, k) == 0 {
      CountNone(ws, k);
    }
    hide Count;
    assert [] + urls == urls;
  }

  lemma {:induction false} RunHolds(threads: nat, urls: seq<Url>, schedule: seq<Turn>)
    requires Run(Start(threads, urls), schedule).Some?
    ensures var c := Run(Start(threads, urls), schedule).value;
      Tally(c) && Exclusive(c) && Handled(c, urls) && |c.workers| == threads
    decreases |schedule|
  {
    StartHolds(threads, urls);
    if schedule != [] {
      var n := |schedule| - 1;
      RunHolds(threads, urls, schedule[..n]);
      var c := Run(Start(threads, urls), schedule[..n]).value;
      hide Tally;
      hide Exclusive;
      hide Handled;
      TallyStep(c, schedule[n].thread, schedule[n].answer);
      ExclusiveStep(c, schedule[n].thread, schedule[n].answer);
      HandledStep(c, schedule[n].thread, schedule[n].answer, urls);
    }
  }

  /** At every moment of every interleaving: no host passes the host check twice, no address the address check, the
      counters are ordered as the pipeline is, and the crawl is marked finished exactly when some worker has returned,
      which it does only when the queue is empty. */
  lemma AtAnyTime(threads: nat, urls: seq<Url>, schedule: seq<Turn>, host: string, ip: string)
    requires Run(Start(threads, urls), schedule).Some?
    ensures var c := Run(Start(threads, urls), schedule).value;
      && c.hostPasses[host] <= 1 && c.ipPasses[ip] <= 1
      && |urls| >= c.m.stats.extracted >= c.m.stats.uniqueHost >= c.m.stats.dnsLookups >= c.m.stats.uniqueIP
      && c.m.stats.uniqueIP >= c.m.stats.passedRobots >= c.m.stats.crawled >= Classes(c.m.stats)
      && (c.m.finished <==> exists i :: 0 <= i < |c.workers| && c.workers[i].Returned?)
      && (c.m.finished ==> c.m.queue == [])
  {
    RunHolds(threads, urls, schedule);
    FinishedExactly(Run(Start(threads, urls), schedule).value);
  }

  lemma FinishedExactly(c: Crew)
    requires Tally(c)
    ensures c.m.finished <==> exists i :: 0 <= i < |c.workers| && c.workers[i].Returned?
  {
    if c.m.finished {
      CountSome(c.workers, 13);
    }
    if i :| 0 <= i < |c.workers| && c.workers[i].Returned? {
      CountOne(c.workers, i);
    }
  }

  predicate AllReturned(c: Crew) { forall i :: 0 <= i < |c.workers| ==> c.workers[i].Returned? }

  function Hosts(urls: seq<Url>): set<string> { set u | u in urls :: u.host }

  /** When every worker has returned, however they were interleaved: all URLs were extracted, each distinct host was
      counted once, each distinct address once, and every crawled page is in one status class. */
  lemma WhenAllReturned(threads: nat, urls: seq<Url>, schedule: seq<Turn>)
    requires 1 <= threads && Run(Start(threads, urls), schedule).Some?
    requires AllReturned(Run(Start(threads, urls), schedule).value)
    ensures var c := Run(Start(threads, urls), schedule).value;
      && c.m.stats.extracted == |urls|
      && c.m.seenHosts == Hosts(urls) && c.m.stats.uniqueHost == |Hosts(urls)|
      && c.m.stats.uniqueIP == |c.m.seenIPs|
      && c.m.stats.crawled == Classes(c.m.stats)
  {
    RunHolds(threads, urls, schedule);
    FinalState(Run(Start(threads, urls), schedule).value, urls);
  }

  lemma FinalState(c: Crew, urls: seq<Url>)
    requires Tally(c) && Exclusive(c) && Handled(c, urls) && AllReturned(c) && 1 <= |c.workers|
    ensures c.m.stats.extracted == |urls| && c.m.seenHosts == Hosts(urls)
    ensures c.m.stats.uniqueHost == |Hosts(urls)| && c.m.stats.uniqueIP == |c.m.seenIPs|
    ensures c.m.stats.crawled == Classes(c.m.stats)
  {
    forall k: nat | 1 <= k <= 12 ensures Count(c.workers, k) == 0 {
      CountNone(c.workers, k);
    }
    assert c.workers[0].Returned?;
    assert c.taken == urls;
    forall u | u in c.taken ensures u.host in c.m.seenHosts {
      assert forall i :: 0 <= i < |c.workers| ==> !Holds(c.workers[i], u);
    }
    hide Count;
    assert c.m.seenHosts == Hosts(urls);
  }
}
