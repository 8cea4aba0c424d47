/** The worker pool of Hw1P3.cpp: any number of threads over one queue, two sets behind mutexes and the atomic
    counters of CrawlerStats, interleaved one atomic section at a time. */
module Crawler {
  import opened Common

  datatype Url = Url(host: string, path: string)

  datatype Stats = Stats(extracted: nat, uniqueHost: nat, dnsLookups: nat, uniqueIP: nat, passedRobots: nat,
                         crawled: nat, http2xx: nat, http3xx: nat, http4xx: nat, http5xx: nat, httpOthers: nat)

  /** Where a thread stands in processURLs; each constructor is one atomic section to come. */
  datatype Worker =
    | Fetching                               // lock the queue
    | Popped(url: Url)                       // count an extracted URL
    | Extracted(url: Url)                    // isHostUnique
    | HostFresh(url: Url)                    // count a unique host
    | HostCounted(url: Url)                  // resolve the host
    | Resolved(url: Url, ip: string)         // count a lookup
    | Looked(url: Url, ip: string)           // isIPUnique
    | IpFresh(url: Url)                      // count a unique address
    | IpCounted(url: Url)                    // fetch robots.txt
    | RobotsPassed(url: Url)                 // count a passed robots check
    | RobotsCounted(url: Url)                // fetch the page
    | Crawled(url: Url, status: int)         // count a crawled page
    | Classifying(url: Url, status: int)     // count the status class
    | Returned

  /** What the network answers in one step: the address, and the status codes when the exchange worked. */
  datatype Answer = Answer(ip: Option<string>, robots: Option<int>, page: Option<int>)

  datatype Shared = Shared(queue: seq<Url>, seenHosts: set<string>, seenIPs: set<string>, finished: bool, stats: Stats)

  function Classify(s: Stats, status: int): Stats {
    match status / 100
    case 2 => s.(http2xx := s.http2xx + 1)
    case 3 => s.(http3xx := s.http3xx + 1)
    case 4 => s.(http4xx := s.http4xx + 1)
    case 5 => s.(http5xx := s.http5xx + 1)
    case _ => s.(httpOthers := s.httpOthers + 1)
  }

  /** One atomic section of one worker. */
  function Act(m: Shared, w: Worker, a: Answer): (Shared, Worker)
    requires !w.Returned?
  {
    var s := m.stats;
    match w
    case Fetching =>
      if m.queue == [] then (m.(finished := true), Returned) else (m.(queue := m.queue[1..]), Popped(m.queue[0]))
    case Popped(u) => (m.(stats := s.(extracted := s.extracted + 1)), Extracted(u))
    case Extracted(u) =>
      if u.host in m.seenHosts then (m, Fetching) else (m.(seenHosts := m.seenHosts + {u.host}), HostFresh(u))
    case HostFresh(u) => (m.(stats := s.(uniqueHost := s.uniqueHost + 1)), HostCounted(u))
    case HostCounted(u) => (m, if a.ip.None? then Fetching else Resolved(u, a.ip.value))
    case Resolved(u, ip) => (m.(stats := s.(dnsLookups := s.dnsLookups + 1)), Looked(u, ip))
    case Looked(u, ip) =>
      if ip in m.seenIPs then (m, Fetching) else (m.(seenIPs := m.seenIPs + {ip}), IpFresh(u))
    case IpFresh(u) => (m.(stats := s.(uniqueIP := s.uniqueIP + 1)), IpCounted(u))
    case IpCounted(u) => (m, if a.robots.Some? && 400 <= a.robots.value < 500 then RobotsPassed(u) else Fetching)
    case RobotsPassed(u) => (m.(stats := s.(passedRobots := s.passedRobots + 1)), RobotsCounted(u))
    case RobotsCounted(u) => (m, if a.page.None? then Fetching else Crawled(u, a.page.value))
    case Crawled(u, c) => (m.(stats := s.(crawled := s.crawled + 1)), Classifying(u, c))
    case Classifying(_, c) => (m.(stats := Classify(s, c)), Fetching)
  }

  // ------------------------------------------------ the pool in its own form

  class Pool {
    var urlQueue: seq<Url>
    var seenHosts: set<string>
    var seenIPs: set<string>
    var isCrawlingFinished: bool
    var stats: Stats
    const workers: array<Worker>

    ghost function View(): Shared
      reads this
    {
      Shared(urlQueue, seenHosts, seenIPs, isCrawlingFinished, stats)
    }

    constructor (numberOfThreads: nat, urls: seq<Url>)
      ensures View() == Shared(urls, {}, {}, false, NO_STATS) && fresh(workers)
      ensures workers[..] == seq(numberOfThreads, _ => Fetching)
    {
      urlQueue, seenHosts, seenIPs, isCrawlingFinished, stats := urls, {}, {}, false, NO_STATS;
      workers := new Worker[numberOfThreads](_ => Fetching);
      new;
      assert workers[..] == seq(numberOfThreads, _ => Fetching);
    }

    /** insert().second under seenHostsMutex. */
    method IsHostUnique(host: string) returns (unique: bool)
      modifies this`seenHosts
      ensures unique <==> host !in old(seenHosts)
      ensures seenHosts == old(seenHosts) + {host}
    {
      unique := host !in seenHosts;
      seenHosts := seenHosts + {host};
    }

    method IsIPUnique(ip: string) returns (unique: bool)
      modifies this`seenIPs
      ensures unique <==> ip !in old(seenIPs)
      ensures seenIPs == old(seenIPs) + {ip}
    {
      unique := ip !in seenIPs;
      seenIPs := seenIPs + {ip};
    }

    /** Thread i runs its next atomic section of processURLs. */
    method Advance(i: nat, a: Answer)
      requires i < workers.Length && !workers[i].Returned?
      modifies this, workers
      ensures (View(), workers[i]) == Act(old(View()), old(workers[i]), a)
      ensures forall j :: 0 <= j < workers.Length && j != i ==> workers[j] == old(workers[j])
    {
      match workers[i]
      case Fetching =>
        if urlQueue == [] {
          isCrawlingFinished := true;
          workers[i] := Returned;
        } else {
          var parts := urlQueue[0];
          urlQueue := urlQueue[1..];
          workers[i] := Popped(parts);
        }
      case Popped(parts) =>
        stats := stats.(extracted := stats.extracted + 1);
        workers[i] := Extracted(parts);
      case Extracted(parts) =>
        var unique := IsHostUnique(parts.host);
        workers[i] := if unique then HostFresh(parts) else Fetching;
        assert !unique ==> seenHosts == old(seenHosts);
      case HostFresh(parts) =>
        stats := stats.(uniqueHost := stats.uniqueHost + 1);
        workers[i] := HostCounted(parts);
      case HostCounted(parts) =>
        workers[i] := if a.ip.None? then Fetching else Resolved(parts, a.ip.value);
      case Resolved(parts, ip) =>
        stats := stats.(dnsLookups := stats.dnsLookups + 1);
        workers[i] := Looked(parts, ip);
      case Looked(parts, ip) =>
        var unique := IsIPUnique(ip);
        workers[i] := if unique then IpFresh(parts) else Fetching;
        assert !unique ==> seenIPs == old(seenIPs);
      case IpFresh(parts) =>
        stats := stats.(uniqueIP := stats.uniqueIP + 1);
        workers[i] := IpCounted(parts);
      case IpCounted(parts) =>
        if a.robots.Some? && a.robots.value >= 400 && a.robots.value < 500 {
          workers[i] := RobotsPassed(parts);
        } else {
          workers[i] := Fetching;
        }
      case RobotsPassed(parts) =>
        stats := stats.(passedRobots := stats.passedRobots + 1);
        workers[i] := RobotsCounted(parts);
      case RobotsCounted(parts) =>
        workers[i] := if a.page.None? then Fetching else Crawled(parts, a.page.value);
      case Crawled(parts, status) =>
        stats := stats.(crawled := stats.crawled + 1);
        workers[i] := Classifying(parts, status);
      case Classifying(_, status) =>
        stats := Classify(stats, status);
        workers[i] := Fetching;
    }
  }

  const NO_STATS: Stats := Stats(0, 0, 0, 0, 0, 0, 0, 0, 0, 0, 0)
}
