/** What the crawler asks of the network, and what its counters say about the answers: laws over the log of all
    exchanges, for every interleaving of the workers. */
module CrawlerLog {
  import opened Common
  import opened Crawler
  import opened CrawlerRuns

  // ------------------------------------------------ counting exchanges and workers

  datatype Kind =
    | Lookups                  // a host looked up
    | LookupOf(host: string)
    | Found                    // a lookup that gave an address
    | RobotsAsked
    | RobotsOf(host: string)
    | Allowed                  // a robots answer that lets the page be fetched
    | Fetches                  // a page asked for
    | PageOf(host: string)
    | Fetched                  // a page received
    | Status(low: int)         // a page received with a status in [low, low + 100)
    | OtherStatus

  function StatusOf(x: Exchange): Option<int> { if x.Lookup? then None else x.status }

  predicate Is(x: Exchange, k: Kind) {
    match k
    case Lookups => x.Lookup?
    case LookupOf(h) => x.Lookup? && x.host == h
    case Found => x.Lookup? && x.ip.Some?
    case RobotsAsked => x.Robots?
    case RobotsOf(h) => x.Robots? && x.host == h
    case Allowed => x.Robots? && x.status.Some? && 400 <= x.status.value < 500
    case Fetches => x.Page?
    case PageOf(h) => x.Page? && x.url.host == h
    case Fetched => x.Page? && x.status.Some?
    case Status(low) => x.Page? && x.status.Some? && low <= x.status.value < low + 100
    case OtherStatus => x.Page? && x.status.Some? && !(200 <= x.status.value < 600)
  }

  /** How many exchanges of a kind the log holds. */
  function Hits(log: seq<Exchange>, k: Kind): nat
    decreases |log|
  {
    if log == [] then 0
    else Hits(log[..|log| - 1], k) + (if Is(log[|log| - 1], k) then 1 else 0)
  }

  /** A worker that has yet to make an exchange of a kind it is bound for, or to count the result of one. */
  predicate Holding(w: Worker, k: Kind) {
    match k
    case Lookups => w.HostFresh? || w.HostCounted?
    case LookupOf(h) => (w.HostFresh? || w.HostCounted?) && w.url.host == h
    case Found => w.Resolved?
    case RobotsAsked => w.IpCounted?
    case RobotsOf(h) => 3 <= Stage(w) <= 8 && w.url.host == h
    case Allowed => w.RobotsPassed?
    case Fetches => w.RobotsCounted?
    case PageOf(h) => 3 <= Stage(w) <= 10 && w.url.host == h
    case Fetched => w.Crawled?
    case _ => (w.Crawled? || w.Classifying?) && Is(Page(w.url, Some(w.status)), k)
  }

  function Holders(ws: seq<Worker>, k: Kind): nat
    decreases |ws|
  {
    if ws == [] then 0 else (if Holding(ws[0], k) then 1 else 0) + Holders(ws[1..], k)
  }

  lemma {:induction false} HoldersUpdate(ws: seq<Worker>, i: nat, w: Worker, k: Kind)
    requires i < |ws|
    ensures Holders(ws[i := w], k) ==
              Holders(ws, k) - (if Holding(ws[i], k) then 1 else 0) + (if Holding(w, k) then 1 else 0)
    decreases |ws|
  {
    hide Holding;
    if i > 0 {
      HoldersUpdate(ws[1..], i - 1, w, k);
      assert ws[i := w][1..] == ws[1..][i - 1 := w];
    } else {
      assert ws[0 := w][1..] == ws[1..];
    }
  }

  lemma {:induction false} HoldersNone(ws: seq<Worker>, k: Kind)
    requires forall i :: 0 <= i < |ws| ==> !Holding(ws[i], k)
    ensures Holders(ws, k) == 0
    decreases |ws|
  {
    if ws != [] {
      HoldersNone(ws[1..], k);
    }
  }

  lemma HitsMore(log: seq<Exchange>, more: seq<Exchange>, k: Kind)
    requires |more| <= 1
    ensures Hits(log + more, k) == Hits(log, k) + (if more != [] && Is(more[0], k) then 1 else 0)
  {
    if more == [] {
      assert log + more == log;
    } else {
      assert (log + more)[..|log|] == log;
    }
  }

  // ------------------------------------------------ every counter against the log

  /** What the counters say of the exchanges of a kind. A kind counted before the exchange has its next exchange still
      with a worker; one counted after has the uncounted result there. */
  function Counter(c: Crew, k: Kind): int {
    var s := c.m.stats;
    match k
    case Found => s.dnsLookups
    case Allowed => s.passedRobots
    case Fetched => s.crawled
    case Status(low) =>
      if low == 200 then s.http2xx else if low == 300 then s.http3xx
      else if low == 400 then s.http4xx else if low == 500 then s.http5xx else 0
    case OtherStatus => s.httpOthers
    case Lookups => |c.hostPasses|
    case LookupOf(h) => c.hostPasses[h]
    case RobotsOf(h) => c.hostPasses[h]
    case PageOf(h) => c.hostPasses[h]
    case RobotsAsked => s.uniqueIP
    case Fetches => s.passedRobots
  }

  predicate AtMost(k: Kind) { k.RobotsOf? || k.PageOf? }

  predicate Before(k: Kind) { k.Lookups? || k.LookupOf? || k.RobotsAsked? || k.Fetches? }

  predicate Known(k: Kind) { k.Status? ==> k.low in {200, 300, 400, 500} }

  predicate Balanced(c: Crew, k: Kind) {
    if AtMost(k) then Hits(c.log, k) + Holders(c.workers, k) <= Counter(c, k)
    else if Before(k) then Hits(c.log, k) + Holders(c.workers, k) == Counter(c, k)
    else Counter(c, k) + Holders(c.workers, k) == Hits(c.log, k)
  }

  ghost predicate Booked(c: Crew) { forall k :: Known(k) ==> Balanced(c, k) }

  function Bit(b: bool): int { if b then 1 else 0 }

  /** What one section changes: the counter of a kind, what the worker holds, and the log. */
  ghost predicate Kept(c: Crew, i: nat, a: Answer, k: Kind)
    requires CanStep(c, i)
  {
    var d, w, x := Step(c, i, a), c.workers[i], Asked(c.workers[i], a);
    var counted := Counter(d, k) - Counter(c, k);
    var held := Bit(Holding(d.workers[i], k)) - Bit(Holding(w, k));
    var asked := Bit(x != [] && Is(x[0], k));
    && |x| <= 1
    && if AtMost(k) then asked + held <= counted
       else if Before(k) then asked + held == counted
       else counted + held == asked
  }

  lemma ActBooksBefore(c: Crew, i: nat, a: Answer, k: Kind)
    requires CanStep(c, i) && (k.RobotsAsked? || k.Fetches?)
    ensures Kept(c, i, a, k)
  {}

  lemma ActBooksLookup(c: Crew, i: nat, a: Answer, k: Kind)
    requires CanStep(c, i) && (k.Lookups? || k.LookupOf?)
    ensures Kept(c, i, a, k)
  {}

  lemma ActBooksHost(c: Crew, i: nat, a: Answer, k: Kind)
    requires CanStep(c, i) && AtMost(k)
    ensures Kept(c, i, a, k)
  {}

  lemma ActBooksAfter(c: Crew, i: nat, a: Answer, k: Kind)
    requires CanStep(c, i) && Known(k) && !Before(k) && !AtMost(k)
    ensures Kept(c, i, a, k)
  {}

  lemma BookedStep(c: Crew, i: nat, a: Answer, k: Kind)
    requires CanStep(c, i) && Known(k) && Balanced(c, k)
    ensures Balanced(Step(c, i, a), k)
  {
    var d := Step(c, i, a);
    if AtMost(k) {
      ActBooksHost(c, i, a, k);
    } else if k.Lookups? || k.LookupOf? {
      ActBooksLookup(c, i, a, k);
    } else if Before(k) {
      ActBooksBefore(c, i, a, k);
    } else {
      ActBooksAfter(c, i, a, k);
    }
    HoldersUpdate(c.workers, i, d.workers[i], k);
    HitsMore(c.log, Asked(c.workers[i], a), k);
    hide Counter;
    hide Act;
    hide Asked;
    hide Is;
    hide Holding;
  }

  // ------------------------------------------------ where each request comes from

  /** The host has answered the request for its robots.txt with a client error, the crawler's licence to go on. */
  ghost predicate Cleared(log: seq<Exchange>, host: string) {
    exists v :: 400 <= v < 500 && Robots(host, Some(v)) in log
  }

  ghost predicate Located(log: seq<Exchange>, host: string) {
    exists ip :: Lookup(host, Some(ip)) in log
  }

  /** What a worker carries comes from the queue and from the answers it was given. */
  ghost predicate Earned(c: Crew, w: Worker) {
    && (1 <= Stage(w) <= 12 ==> w.url in c.taken)
    && (w.Resolved? || w.Looked? ==> Lookup(w.url.host, Some(w.ip)) in c.log)
    && (7 <= Stage(w) <= 8 ==> Located(c.log, w.url.host))
    && (9 <= Stage(w) <= 10 ==> Cleared(c.log, w.url.host))
    && (11 <= Stage(w) <= 12 ==> Page(w.url, Some(w.status)) in c.log)
  }

  /** So does every request made. */
  ghost predicate Justified(c: Crew, x: Exchange) {
    match x
    case Lookup(h, _) => exists u :: u in c.taken && u.host == h
    case Robots(h, _) => Located(c.log, h)
    case Page(u, _) => u in c.taken && Cleared(c.log, u.host)
  }

  /** Whoever has an address has yet to check it, or it has been checked. */
  predicate Carries(w: Worker, ip: string) { (w.Resolved? || w.Looked?) && w.ip == ip }

  ghost predicate AddressesChecked(c: Crew) {
    && (forall ip :: ip in c.m.seenIPs ==> exists h :: Lookup(h, Some(ip)) in c.log)
    && (forall h, ip :: Lookup(h, Some(ip)) in c.log ==>
          ip in c.m.seenIPs || exists i :: 0 <= i < |c.workers| && Carries(c.workers[i], ip))
  }

  ghost predicate Traced(c: Crew) {
    && (forall i :: 0 <= i < |c.workers| ==> Earned(c, c.workers[i]))
    && (forall x :: x in c.log ==> Justified(c, x))
    && AddressesChecked(c)
  }

  lemma EarnedMore(c: Crew, d: Crew, w: Worker)
    requires Earned(c, w) && c.taken <= d.taken && c.log <= d.log
    ensures Earned(d, w)
  {}

  lemma JustifiedMore(c: Crew, d: Crew, x: Exchange)
    requires Justified(c, x) && c.taken <= d.taken && c.log <= d.log
    ensures Justified(d, x)
  {}

  /** What the worker that moves carries afterwards, and what it asked. */
  lemma EarnedByAct(c: Crew, i: nat, a: Answer)
    requires CanStep(c, i) && Earned(c, c.workers[i])
    ensures var d := Step(c, i, a);
      Earned(d, d.workers[i]) && forall x :: x in Asked(c.workers[i], a) ==> Justified(d, x)
  {
    var w, d := c.workers[i], Step(c, i, a);
    var x := Asked(w, a);
    assert forall k :: 0 <= k < |x| ==> x[k] in d.log;
  }

  lemma AddressesStep(c: Crew, i: nat, a: Answer)
    requires CanStep(c, i) && AddressesChecked(c) && Earned(c, c.workers[i])
    ensures AddressesChecked(Step(c, i, a))
  {
    var w, d := c.workers[i], Step(c, i, a);
    forall h, ip | Lookup(h, Some(ip)) in d.log
      ensures ip in d.m.seenIPs || exists j :: 0 <= j < |d.workers| && Carries(d.workers[j], ip)
    {
      if Lookup(h, Some(ip)) in c.log && ip !in c.m.seenIPs {
        var j :| 0 <= j < |c.workers| && Carries(c.workers[j], ip);
        if j != i || w.Resolved? {
          assert Carries(d.workers[j], ip);
        }
      } else if ip !in c.m.seenIPs {
        assert Carries(d.workers[i], ip);
      }
    }
    if w.Looked? {
      assert Lookup(w.url.host, Some(w.ip)) in d.log;
    }
  }

  lemma TracedStep(c: Crew, i: nat, a: Answer)
    requires CanStep(c, i) && Traced(c)
    ensures Traced(Step(c, i, a))
  {
    var d := Step(c, i, a);
    EarnedByAct(c, i, a);
    AddressesStep(c, i, a);
    hide Act;
    hide Asked;
    hide Earned;
    hide Justified;
    hide AddressesChecked;
    forall j | 0 <= j < |d.workers| ensures Earned(d, d.workers[j]) {
      if j != i {
        EarnedMore(c, d, c.workers[j]);
      }
    }
    forall x | x in d.log ensures Justified(d, x) {
      if x in c.log {
        JustifiedMore(c, d, x);
      }
    }
  }

  // ------------------------------------------------ over runs

  lemma BookedAll(c: Crew, i: nat, a: Answer)
    requires CanStep(c, i) && Booked(c)
    ensures Booked(Step(c, i, a))
  {
    hide Step;
    hide Balanced;
    forall k | Known(k) ensures Balanced(Step(c, i, a), k) {
      BookedStep(c, i, a, k);
    }
  }

  lemma LogStarts(threads: nat, urls: seq<Url>)
    ensures Booked(Start(threads, urls)) && Traced(Start(threads, urls))
  {
    var c := Start(threads, urls);
    forall k ensures Holders(c.workers, k) == 0 {
      HoldersNone(c.workers, k);
    }
  }

  lemma {:induction false} RunLogs(threads: nat, urls: seq<Url>, schedule: seq<Turn>)
    requires Run(Start(threads, urls), schedule).Some?
    ensures var c := Run(Start(threads, urls), schedule).value; Booked(c) && Traced(c)
    decreases |schedule|
  {
    LogStarts(threads, urls);
    if schedule != [] {
      var n := |schedule| - 1;
      RunLogs(threads, urls, schedule[..n]);
      var c := Run(Start(threads, urls), schedule[..n]).value;
      hide Booked;
      hide Traced;
      BookedAll(c, schedule[n].thread, schedule[n].answer);
      TracedStep(c, schedule[n].thread, schedule[n].answer);
    }
  }

  /** At every moment of every interleaving: no host is looked up, asked for its robots.txt or asked for a page twice; a
      page is asked for only after its host has answered the robots request with a status from 400 to 499, which is
      asked only of hosts that have been found; and every request comes from a URL of the input. */
  lemma Polite(threads: nat, urls: seq<Url>, schedule: seq<Turn>, host: string)
    requires Run(Start(threads, urls), schedule).Some?
    ensures var log := Run(Start(threads, urls), schedule).value.log;
      && Hits(log, LookupOf(host)) <= 1 && Hits(log, RobotsOf(host)) <= 1 && Hits(log, PageOf(host)) <= 1
      && (forall u, r :: Page(u, r) in log ==>
            u in urls && exists v :: 400 <= v < 500 && Robots(u.host, Some(v)) in log)
      && (forall h, r :: Robots(h, r) in log ==> exists ip :: Lookup(h, Some(ip)) in log)
      && (forall h, r :: Lookup(h, r) in log ==> exists u :: u in urls && u.host == h)
  {
    RunLogs(threads, urls, schedule);
    RunHolds(threads, urls, schedule);
    PoliteState(Run(Start(threads, urls), schedule).value, urls, host);
  }

  lemma PoliteState(c: Crew, urls: seq<Url>, host: string)
    requires Booked(c) && Traced(c) && Exclusive(c) && Split(c, urls)
    ensures Hits(c.log, LookupOf(host)) <= 1 && Hits(c.log, RobotsOf(host)) <= 1 && Hits(c.log, PageOf(host)) <= 1
    ensures forall u, r :: Page(u, r) in c.log ==>
              u in urls && exists v :: 400 <= v < 500 && Robots(u.host, Some(v)) in c.log
    ensures forall h, r :: Robots(h, r) in c.log ==> exists ip :: Lookup(h, Some(ip)) in c.log
    ensures forall h, r :: Lookup(h, r) in c.log ==> exists u :: u in urls && u.host == h
  {
    hide Hits;
    hide Holders;
    assert Balanced(c, LookupOf(host)) && Balanced(c, RobotsOf(host)) && Balanced(c, PageOf(host));
    assert forall u :: u in c.taken ==> u in urls;
    forall u, r | Page(u, r) in c.log
      ensures u in urls && exists v :: 400 <= v < 500 && Robots(u.host, Some(v)) in c.log
    {
      assert Justified(c, Page(u, r));
    }
    forall h, r | Robots(h, r) in c.log ensures exists ip :: Lookup(h, Some(ip)) in c.log {
      assert Justified(c, Robots(h, r));
    }
    forall h, r | Lookup(h, r) in c.log ensures exists u :: u in urls && u.host == h {
      assert Justified(c, Lookup(h, r));
    }
  }

  /** The addresses the network has given. */
  ghost function Given(log: seq<Exchange>): set<string> { set x | x in log && x.Lookup? && x.ip.Some? :: x.ip.value }

  /** Once every worker has returned, each counter is the number of exchanges of its kind: each host of the input was
      looked up once, every address given was asked for its robots.txt once, exactly those that answered 400 to 499
      were asked for the page, and each page received is in the class of its status. */
  lemma FinalCounts(threads: nat, urls: seq<Url>, schedule: seq<Turn>)
    requires 1 <= threads && Run(Start(threads, urls), schedule).Some?
    requires AllReturned(Run(Start(threads, urls), schedule).value)
    ensures var c := Run(Start(threads, urls), schedule).value; var s, log := c.m.stats, c.log;
      && (forall h :: Hits(log, LookupOf(h)) == if h in Hosts(urls) then 1 else 0)
      && s.uniqueHost == Hits(log, Lookups)
      && s.dnsLookups == Hits(log, Found)
      && c.m.seenIPs == Given(log) && s.uniqueIP == |Given(log)| == Hits(log, RobotsAsked)
      && s.passedRobots == Hits(log, Allowed) == Hits(log, Fetches)
      && s.crawled == Hits(log, Fetched)
      && s.http2xx == Hits(log, Status(200)) && s.http3xx == Hits(log, Status(300))
      && s.http4xx == Hits(log, Status(400)) && s.http5xx == Hits(log, Status(500))
      && s.httpOthers == Hits(log, OtherStatus)
  {
    WhenAllReturned(threads, urls, schedule);
    RunHolds(threads, urls, schedule);
    RunLogs(threads, urls, schedule);
    hide *;
    FinalBooks(Run(Start(threads, urls), schedule).value, Hosts(urls));
  }

  lemma NoneHeld(c: Crew, k: Kind)
    requires AllReturned(c) && Known(k) && !AtMost(k) && Booked(c)
    ensures Hits(c.log, k) == Counter(c, k)
  {
    HoldersNone(c.workers, k);
    assert Balanced(c, k);
  }

  lemma FinalBooks(c: Crew, hosts: set<string>)
    requires AllReturned(c) && Booked(c) && Traced(c) && Exclusive(c)
    requires c.m.seenHosts == hosts && c.m.stats.uniqueHost == |hosts| && c.m.stats.uniqueIP == |c.m.seenIPs|
    ensures forall h :: Hits(c.log, LookupOf(h)) == if h in hosts then 1 else 0
    ensures var s, log := c.m.stats, c.log;
      && s.uniqueHost == Hits(log, Lookups) && s.dnsLookups == Hits(log, Found)
      && c.m.seenIPs == Given(log) && s.uniqueIP == |Given(log)| == Hits(log, RobotsAsked)
      && s.passedRobots == Hits(log, Allowed) == Hits(log, Fetches) && s.crawled == Hits(log, Fetched)
      && s.http2xx == Hits(log, Status(200)) && s.http3xx == Hits(log, Status(300))
      && s.http4xx == Hits(log, Status(400)) && s.http5xx == Hits(log, Status(500))
      && s.httpOthers == Hits(log, OtherStatus)
  {
    AllGiven(c);
    hide Traced;
    hide AddressesChecked;
    hide AllReturned;
    hide Given;
    hide Booked;
    hide Hits;
    forall h ensures Hits(c.log, LookupOf(h)) == if h in hosts then 1 else 0 {
      NoneHeld(c, LookupOf(h));
    }
    NoneHeld(c, Lookups);
    NoneHeld(c, Found);
    NoneHeld(c, RobotsAsked);
    NoneHeld(c, Allowed);
    NoneHeld(c, Fetches);
    NoneHeld(c, Fetched);
    NoneHeld(c, Status(200));
    NoneHeld(c, Status(300));
    NoneHeld(c, Status(400));
    NoneHeld(c, Status(500));
    NoneHeld(c, OtherStatus);
  }

  lemma AllGiven(c: Crew)
    requires AllReturned(c) && AddressesChecked(c)
    ensures c.m.seenIPs == Given(c.log)
  {
    forall x | x in c.log && x.Lookup? && x.ip.Some? ensures x.ip.value in c.m.seenIPs {
      assert Lookup(x.host, Some(x.ip.value)) in c.log;
    }
    forall ip | ip in c.m.seenIPs ensures ip in Given(c.log) {
      var h :| Lookup(h, Some(ip)) in c.log;
    }
  }
}
