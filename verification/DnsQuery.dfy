/** The query side of Hw2.cpp: label encoding, the PTR name of an address, the query packet and its size,
    and the round trip through the decoder. */
module DnsQuery {
  import opened Common
  import opened DnsName

  /** The text before the first dot. */
  function Head(host: seq<Byte>): (l: seq<Byte>)
    ensures |l| <= |host|
    decreases |host|
  {
    if host == [] || host[0] == DOT then [] else [host[0]] + Head(host[1..])
  }

  /** A length stored in one octet. */
  function LengthOctet(n: nat): Byte { n % 256 }

  /** What convertToDNSFormat writes: each label after its length octet, then zero. Nothing is checked: an empty
      label becomes a zero octet and a length is cut to eight bits. */
  function Encode(host: seq<Byte>): (dns: seq<Byte>)
    ensures 1 <= |dns| <= |host| + 2
    decreases |host|
  {
    if host == [] then [0]
    else
      var l := Head(host);
      [LengthOctet(|l|)] + l + Encode(host[Min(|l| + 1, |host|)..])
  }

  lemma {:induction false} HeadFacts(host: seq<Byte>)
    ensures Head(host) <= host && DOT !in Head(host)
    ensures |Head(host)| < |host| ==> host[|Head(host)|] == DOT
    decreases |host|
  {
    if host != [] && host[0] != DOT {
      HeadFacts(host[1..]);
    }
  }

  lemma HeadStep(host: seq<Byte>, i: nat)
    requires i <= |host| && i <= |Head(host)|
    ensures i < |Head(host)| <==> i < |host| && host[i] != DOT
    ensures Head(host)[..i] == host[..i]
  {
    var l := Head(host);
    HeadFacts(host);
    hide Head;
    if i < |l| {
      assert host[i] == l[i] && l[i] in l;
    }
  }

  /** The inner loop: copies up to the next dot or the end. */
  method CopyLabel(dns: array<Byte>, to: nat, hostname: seq<Byte>, from: nat) returns (label_: nat, host: nat)
    requires from <= |hostname| && to + |hostname| - from <= dns.Length
    modifies dns
    ensures var l := Head(hostname[from..]);
      label_ == to + |l| && host == from + |l| && dns[to..label_] == l
    ensures forall i :: 0 <= i < dns.Length && !(to <= i < label_) ==> dns[i] == old(dns[i])
  {
    label_, host := to, from;
    ghost var rest := hostname[from..];
    HeadStep(rest, 0);
    while host < |hostname| && hostname[host] != DOT
      invariant from <= host <= |hostname| && label_ - to == host - from <= |Head(rest)|
      invariant dns[to..label_] == hostname[from..host] == Head(rest)[..host - from]
      invariant forall i :: 0 <= i < dns.Length && !(to <= i < label_) ==> dns[i] == old(dns[i])
    {
      HeadStep(rest, host - from);
      dns[label_] := hostname[host];
      label_, host := label_ + 1, host + 1;
      HeadStep(rest, host - from);
    }
    HeadStep(rest, host - from);
  }

  /** What is written and what is left always spell the whole encoding. */
  ghost predicate Encoded(dns: seq<Byte>, hostname: seq<Byte>, host: nat) {
    host <= |hostname| && dns + Encode(hostname[host..]) == Encode(hostname)
  }

  lemma EncodeEmpty()
    ensures Encode([]) == [0]
  {}

  lemma EncodedStart(hostname: seq<Byte>)
    ensures Encoded([], hostname, 0)
  {
    assert hostname[0..] == hostname;
    assert [] + Encode(hostname) == Encode(hostname);
  }

  lemma EncodedDone(dns: seq<Byte>, hostname: seq<Byte>)
    requires Encoded(dns, hostname, |hostname|)
    ensures dns + [0] == Encode(hostname)
  {
    assert hostname[|hostname|..] == [];
  }

  lemma Assoc(a: seq<Byte>, b: seq<Byte>, c: seq<Byte>)
    ensures a + (b + c) == (a + b) + c
  {}

  lemma EncodeUnfoldAt(hostname: seq<Byte>, host: nat)
    requires host < |hostname|
    ensures var l := Head(hostname[host..]);
      && host + |l| <= |hostname|
      && Encode(hostname[host..]) == [LengthOctet(|l|)] + l + Encode(hostname[Min(host + |l| + 1, |hostname|)..])
  {
    var rest := hostname[host..];
    var k := Min(|Head(rest)| + 1, |rest|);
    assert rest[k..] == hostname[host + k..];
  }

  lemma EncodeStep(dns: seq<Byte>, hostname: seq<Byte>, host: nat)
    requires Encoded(dns, hostname, host) && host < |hostname|
    ensures var l := Head(hostname[host..]);
      Encoded(dns + ([LengthOctet(|l|)] + l), hostname, Min(host + |l| + 1, |hostname|))
  {
    hide Head;
    hide Encode;
    hide LengthOctet;
    var l := Head(hostname[host..]);
    EncodeUnfoldAt(hostname, host);
    Assoc(dns, [LengthOctet(|l|)] + l, Encode(hostname[Min(host + |l| + 1, |hostname|)..]));
  }

  /** Both loops of the source; `label_` is its write cursor. */
  method ConvertToDNSFormat(dns: array<Byte>, at: nat, hostname: seq<Byte>) returns (end: nat)
    requires at + |hostname| + 2 <= dns.Length
    modifies dns
    ensures end == at + |Encode(hostname)| <= dns.Length
    ensures dns[at..end] == Encode(hostname)
    ensures forall i :: 0 <= i < dns.Length && !(at <= i < end) ==> dns[i] == old(dns[i])
  {
    var label_, host := at, 0;
    ghost var done: seq<Byte> := [];
    EncodedStart(hostname);
    hide Head;
    hide Encode;
    hide Encoded;
    hide LengthOctet;
    while host < |hostname|
      invariant host <= |hostname| && at <= label_
      invariant label_ - at == host || (host == |hostname| && label_ - at == host + 1)
      invariant dns[at..label_] == done && Encoded(done, hostname, host)
      invariant forall i :: 0 <= i < dns.Length && !(at <= i < label_) ==> dns[i] == old(dns[i])
    {
      EncodeStep(done, hostname, host);
      ghost var text := Head(hostname[host..]);
      var len := label_;
      label_, host := WriteLabel(dns, len, hostname, host, text);
      Glue(dns[..], at, len, label_, done, [LengthOctet(|text|)] + text);
      done := done + ([LengthOctet(|text|)] + text);
    }
    EncodedDone(done, hostname);
    dns[label_] := 0;
    end := label_ + 1;
    assert dns[at..end] == dns[at..label_] + [0];
  }

  lemma Glue(dns: seq<Byte>, a: nat, b: nat, c: nat, x: seq<Byte>, y: seq<Byte>)
    requires a <= b <= c <= |dns| && dns[a..b] == x && dns[b..c] == y
    ensures dns[a..c] == x + y
  {}

  /** One turn of the outer loop. */
  method WriteLabel(dns: array<Byte>, len: nat, hostname: seq<Byte>, from: nat, ghost l: seq<Byte>)
    returns (label_: nat, host: nat)
    requires from < |hostname| && l == Head(hostname[from..]) && len + 1 + |hostname| - from <= dns.Length
    modifies dns
    ensures label_ == len + 1 + |l| && host == Min(from + |l| + 1, |hostname|)
    ensures dns[len..label_] == [LengthOctet(|l|)] + l
    ensures forall i :: 0 <= i < dns.Length && !(len <= i < label_) ==> dns[i] == old(dns[i])
  {
    hide Head;
    label_, host := CopyLabel(dns, len + 1, hostname, from);
    dns[len] := LengthOctet(label_ - len - 1);
    assert dns[len..label_] == [dns[len]] + l;
    if host < |hostname| {
      host := host + 1;
    }
  }

  // ------------------------------------------------ the query packet

  type Word16 = w: int | 0 <= w < 0x10000

  function Header(txid: Word16): (h: seq<Byte>)
    ensures |h| == HEADER_SIZE
  {
    [txid / 256, txid % 256, 1, 0, 0, 1, 0, 0, 0, 0, 0, 0]
  }

  function Question(isPTR: bool): (q: seq<Byte>)
    ensures |q| == 4
  {
    [0, if isPTR then 12 else 1, 0, 1]
  }

  /** A 16-bit field in network order. */
  function WordAt(pkt: seq<Byte>, at: nat): (w: Word16)
    requires at + 2 <= |pkt|
  {
    256 * (pkt[at] as int) + pkt[at + 1] as int
  }

  /** strlen of a buffer that holds a zero octet. */
  function StrLen(s: seq<Byte>): (n: nat)
    requires 0 in s
    ensures n < |s| && s[n] == 0 && 0 !in s[..n]
    decreases |s|
  {
    if s[0] == 0 then 0
    else
      assert s == [s[0]] + s[1..];
      var n := StrLen(s[1..]) + 1;
      assert s[..n] == [s[0]] + s[1..][..n - 1];
      n
  }

  lemma StrLenUnique(s: seq<Byte>, n: nat)
    requires n < |s| && s[n] == 0 && 0 !in s[..n]
    ensures 0 in s && StrLen(s) == n
  {
    assert StrLen(s) == n;
  }

  lemma {:induction false} EncodeEndsInZero(host: seq<Byte>)
    ensures Encode(host)[|Encode(host)| - 1] == 0
    decreases |host|
  {
    if host != [] {
      hide Head;
      EncodeEndsInZero(host[Min(|Head(host)| + 1, |host|)..]);
    }
  }

  /** The encoded name up to its first zero octet; the question is written right behind it. */
  function QName(name: seq<Byte>): (q: seq<Byte>)
    ensures 1 <= |q| <= |Encode(name)|
  {
    EncodeEndsInZero(name);
    Encode(name)[..StrLen(Encode(name)) + 1]
  }

  function QueryPacket(txid: Word16, name: seq<Byte>, isPTR: bool): seq<Byte> {
    Header(txid) + QName(name) + Question(isPTR)
  }

  /** Read back in network order, the packet asks one recursive question of the class IN under its transaction id, and
      its name is the encoding up to the first zero octet. */
  lemma QueryReadsBack(txid: Word16, name: seq<Byte>, isPTR: bool)
    ensures var pkt := QueryPacket(txid, name, isPTR);
      && |pkt| == HEADER_SIZE + |QName(name)| + 4
      && WordAt(pkt, 0) == txid && WordAt(pkt, 2) == 0x0100 && WordAt(pkt, 4) == 1
      && WordAt(pkt, 6) == WordAt(pkt, 8) == WordAt(pkt, 10) == 0
      && pkt[HEADER_SIZE..|pkt| - 4] <= Encode(name)
      && pkt[|pkt| - 5] == 0 && 0 !in pkt[HEADER_SIZE..|pkt| - 5]
      && WordAt(pkt, |pkt| - 4) == (if isPTR then 12 else 1) && WordAt(pkt, |pkt| - 2) == 1
  {
    EncodeEndsInZero(name);
    var pkt, q := QueryPacket(txid, name, isPTR), QName(name);
    assert pkt[HEADER_SIZE..|pkt| - 4] == q;
    assert pkt[HEADER_SIZE..|pkt| - 5] == q[..|q| - 1] == Encode(name)[..|q| - 1];
    hide Encode;
    hide StrLen;
    hide QName;
  }

  /** createDNSQuery, with the random transaction id as a parameter, and the size sendDNSQuery computes. */
  method CreateDNSQuery(buffer: array<Byte>, formattedName: seq<Byte>, isPTR: bool, txid: Word16)
    returns (querySize: nat)
    requires HEADER_SIZE + |formattedName| + 2 + 4 <= buffer.Length
    modifies buffer
    ensures querySize <= buffer.Length && buffer[..querySize] == QueryPacket(txid, formattedName, isPTR)
  {
    ghost var h, name := Header(txid), QName(formattedName);
    EncodeEndsInZero(formattedName);
    StoreAt(buffer, 0, Header(txid));
    var end := ConvertToDNSFormat(buffer, HEADER_SIZE, formattedName);
    assert buffer[..HEADER_SIZE] == h;
    var n := StrLen(buffer[HEADER_SIZE..end]);
    hide Encode;
    hide Header;
    hide Question;
    var ptr := HEADER_SIZE + n + 1;
    assert buffer[HEADER_SIZE..ptr] == buffer[HEADER_SIZE..end][..n + 1] == name;
    hide QName;
    hide StrLen;
    Glue(buffer[..], 0, HEADER_SIZE, ptr, h, name);
    StoreAt(buffer, ptr, Question(isPTR));
    querySize := HEADER_SIZE + n + 1 + 4;
  }

  method StoreAt(buffer: array<Byte>, at: nat, bytes: seq<Byte>)
    requires at + |bytes| <= buffer.Length
    modifies buffer
    ensures buffer[..at + |bytes|] == old(buffer[..at]) + bytes
  {
    Memcpy(buffer, at, bytes);
  }
}
