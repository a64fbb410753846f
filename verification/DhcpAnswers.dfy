/** What a DHCP client gets for what it sends, in the options of both packets: the address it asks for if that is
    its to have, with the configuration of the server (RFC 2132 sections 3, 4 and 9). */
module DhcpAnswers {
  import opened Bytes
  import opened Dhcp
  import opened DhcpServer

  // What a scan finds in a packet, whatever stands behind its options

  /** The area begins with options. */
  ghost predicate Begins(area: seq<byte>, opts: seq<Opt>) {
    Sendable(opts) && Encode(opts) <= area
  }

  lemma FirstBegins(area: seq<byte>, opts: seq<Opt>)
    requires Begins(area, opts) && opts != []
    ensures var o, n := opts[0], |Bytes1(opts[0])|;
            && n <= |area| && n == 2 + |o.payload| && area[0] == o.code && area[1] == |o.payload| && area[2..n] == o.payload
            && Begins(area[n..], opts[1..])
  {
    var first, rest := Bytes1(opts[0]), Encode(opts[1..]);
    assert Encode(opts) == first + rest;
    hide Encode;
    var n := |first|;
    assert area[..n + |rest|] == first + rest;
    assert area[..n] == first && area[n..n + |rest|] == rest;
    assert area[n..][..|rest|] == rest;
    assert area[2..n] == first[2..];
  }

  /** An option that was written is found, and the first one of several. */
  lemma {:induction false} ScanBegins(area: seq<byte>, opts: seq<Opt>, code: byte)
    requires Begins(area, opts) && Lookup(opts, code).0
    ensures Finds(area, Scan(area, 0, code), code, Lookup(opts, code))
    decreases |opts|
  {
    hide Scan, Encode;
    var n := |Bytes1(opts[0])|;
    hide Begins;
    FirstBegins(area, opts);
    ScanFirst(area, code);
    if opts[0].code != code {
      ScanBegins(area[n..], opts[1..], code);
      ScanShift(area, n, 0, code);
      hide Lookup, Finds;
      FindsShift(area, n, Scan(area[n..], 0, code), code, Lookup(opts[1..], code));
    }
  }

  /** The address asked for is the payload of the first option 50, if that has four bytes. */
  lemma RequestedIpIs(area: seq<byte>, opts: seq<Opt>)
    requires Begins(area, opts) && Lookup(opts, 50).0
    ensures var payload := Lookup(opts, 50).1;
            RequestedIp(area) == if |payload| == 4 then (true, payload) else (false, NO_IP)
  {
    hide Scan, Lookup;
    ScanBegins(area, opts, 50);
  }

  /** In an area with nothing behind the end mark there is none if none was written. */
  lemma RequestedIpOf(opts: seq<Opt>, size: nat)
    requires Sendable(opts) && |Encode(opts)| < size
    ensures var (some, payload) := Lookup(opts, 50);
            RequestedIp(Area(opts, size)) == if some && |payload| == 4 then (true, payload) else (false, NO_IP)
  {
    hide Scan, Lookup, Area;
    ScanFinds(opts, size, 50);
  }

  /** The type of a message is the first byte of its first option 53. */
  lemma TypeIs(area: seq<byte>, opts: seq<Opt>, behind: byte)
    requires Begins(area, opts) && Lookup(opts, 53).0 && |Lookup(opts, 53).1| >= 1
    ensures TypeOf(area, behind) == Lookup(opts, 53).1[0]
  {
    hide Scan, Lookup;
    ScanBegins(area, opts, 53);
    var r, payload := Scan(area, 0, 53), Lookup(opts, 53).1;
    assert area[r + 2..r + 2 + |payload|][0] == area[r + 2];
  }

  lemma TypeOfOptions(opts: seq<Opt>, size: nat, behind: byte)
    requires Sendable(opts) && |Encode(opts)| < size && !Lookup(opts, 53).0
    ensures TypeOf(Area(opts, size), behind) == 0
  {
    hide Scan, Lookup, Area;
    ScanFinds(opts, size, 53);
  }

  // What a client finds in a reply

  /** The payload of the first option with a code, as a client reads it. */
  function Read(area: seq<byte>, code: byte): (bool, seq<byte>) {
    var r := Scan(area, 0, code);
    if r == -1 then (false, []) else (true, area[r + 2..r + 2 + area[r + 1]])
  }

  /** The configuration of the server and the lease time, in the options of RFC 2132. */
  ghost predicate Configured(c: Config, area: seq<byte>, msgType: byte, lease: nat) {
    && Read(area, 53) == (true, [msgType])
    && Read(area, 54) == (true, c.server)
    && Read(area, 1) == (true, c.netmask)
    && Read(area, 3) == (if c.router == [0, 0, 0, 0] then (false, []) else (true, c.router))
    && Read(area, 6) == (if c.dns == [0, 0, 0, 0] then (false, []) else (true, c.dns))
    && Read(area, 15) == (if c.hasDomain then (true, c.domain) else (false, []))
    && Read(area, 51).0 && |Read(area, 51).1| == 4
    && var t := Read(area, 51).1;
       t[0] * 0x100_0000 + t[1] * 0x1_0000 + t[2] * 0x100 + (t[3] as int) == lease % 0x1_0000_0000
  }

  lemma ReadIs(area: seq<byte>, code: byte, want: (bool, seq<byte>))
    requires Finds(area, Scan(area, 0, code), code, want) && (!want.0 ==> want.1 == [])
    ensures Read(area, code) == want
  {
    hide Scan;
  }

  lemma WantedRead(c: Config, msgType: byte, lease: nat, size: nat, code: byte)
    requires Fits(c, size) && code != PAD && code != END
    ensures Read(ReplyArea(c, msgType, lease, size), code) == Wanted(c, msgType, lease, code)
  {
    ClientReads(c, msgType, lease, size, code, 0);
    hide Scan, ReplyArea, Finds, Read;
    ReadIs(ReplyArea(c, msgType, lease, size), code, Wanted(c, msgType, lease, code));
  }

  lemma Shifts(n: nat)
    ensures n / 0x1_0000 == n / 0x100 / 0x100 && n / 0x100_0000 == n / 0x100 / 0x100 / 0x100
  {
  }

  lemma LeaseBytes(n: nat)
    ensures var t := Network32(n);
            t[0] * 0x100_0000 + t[1] * 0x1_0000 + t[2] * 0x100 + (t[3] as int) == n % 0x1_0000_0000
  {
    var a := n / 0x100;
    var b := a / 0x100;
    var c := b / 0x100;
    Shifts(n);
    var r := 0x100_0000 * (c % 0x100) + 0x1_0000 * (b % 0x100) + 0x100 * (a % 0x100) + n % 0x100;
    ModUnique(n, 0x1_0000_0000, c / 0x100, r);
  }

  lemma ReplyConfigured(c: Config, msgType: byte, lease: nat, size: nat)
    requires Fits(c, size)
    ensures Configured(c, ReplyArea(c, msgType, lease, size), msgType, lease)
  {
    hide ReplyArea, Read, Network32, Scan, Fits;
    LeaseBytes(lease);
    WantedRead(c, msgType, lease, size, 53);
    WantedRead(c, msgType, lease, size, 54);
    WantedRead(c, msgType, lease, size, 1);
    WantedRead(c, msgType, lease, size, 3);
    WantedRead(c, msgType, lease, size, 6);
    WantedRead(c, msgType, lease, size, 15);
    WantedRead(c, msgType, lease, size, 51);
  }

  // What a packet is answered with

  /** A packet whose options fit the area. */
  ghost predicate Tells(s: State, p: Packet, opts: seq<Opt>) {
    Begins(p.options, opts) && |Encode(opts)| <= |s.area|
  }

  lemma ReceivedBegins(s: State, p: Packet, opts: seq<Opt>)
    requires Tells(s, p, opts)
    ensures Begins(Received(s.area, p.options), opts)
  {
  }

  /** The first option 53 of a packet has this value. */
  ghost predicate IsOfType(opts: seq<Opt>, msgType: byte) {
    Lookup(opts, 53).0 && |Lookup(opts, 53).1| >= 1 && Lookup(opts, 53).1[0] == msgType
  }

  /** An address of the table that is not another client's. */
  ghost predicate Free(t: seq<Lease>, mac: nat, ip: Ip) {
    NotAnothers(t, mac, ip) && exists i :: 0 <= i < |t| && t[i].addr == ip
  }

  /** A table in which a client holds this address and no other, or none; the rest is as before. */
  ghost predicate Holds(t: seq<Lease>, r: seq<Lease>, mac: nat, ip: Option<Ip>) {
    && |r| == |t|
    && forall i :: 0 <= i < |t| ==>
         r[i] == if ip == Some(t[i].addr) then t[i].(mac := mac)
                 else if t[i].mac == mac then t[i].(mac := 0)
                 else t[i]
  }

  /** After any packets at all: a request (type 3) for an address of the table that is not another client's is
      answered with an acknowledgement (type 5) of that address, and the client holds it and no other
      afterwards. Any other request, and one without memory for the reply, is not answered and leaves the client
      without a lease. */
  lemma RequestAnswered(c: Config, s0: State, packets: seq<Packet>, p: Packet, opts: seq<Opt>, ip: Ip)
    requires Sound(c, s0) && Tells(DhcpServer.After(c, s0, packets), p, opts)
    requires IsOfType(opts, 3) && Lookup(opts, 50) == (true, ip)
    ensures var s := DhcpServer.After(c, s0, packets);
            var t, r, reply := s.leases, Handled(c, s, p).leases, Answer(c, s, p);
            if Free(t, p.mac, ip) && p.buffer then
              && reply.Reply? && reply.yiaddr == ip && Holds(t, r, p.mac, Some(ip))
              && forall i :: 0 <= i < |t| && t[i].addr == ip ==> Configured(c, reply.options, 5, t[i].lease)
            else reply == Silence && Holds(t, r, p.mac, None)
  {
    AfterSound(c, s0, packets);
    var s := DhcpServer.After(c, s0, packets);
    hide DhcpServer.After;
    Requests(c, s, p, opts, ip);
  }

  lemma Requests(c: Config, s: State, p: Packet, opts: seq<Opt>, ip: Ip)
    requires Sound(c, s) && Tells(s, p, opts) && IsOfType(opts, 3) && Lookup(opts, 50) == (true, ip)
    ensures var t, r, reply := s.leases, Handled(c, s, p).leases, Answer(c, s, p);
            if Free(t, p.mac, ip) && p.buffer then
              && reply.Reply? && reply.yiaddr == ip && Holds(t, r, p.mac, Some(ip))
              && forall i :: 0 <= i < |t| && t[i].addr == ip ==> Configured(c, reply.options, 5, t[i].lease)
            else reply == Silence && Holds(t, r, p.mac, None)
  {
    var area, t := Received(s.area, p.options), s.leases;
    ReceivedBegins(s, p, opts);
    TypeIs(area, opts, p.behind);
    RequestedIpIs(area, opts);
    HandledCases(c, s, p);
    GrantedIff(t, p.mac, ip);
    var won := Granted(t, p.mac, ip) && p.buffer;
    TableAfter(t, p.mac, ip, p.buffer);
    assert Free(t, p.mac, ip) == Granted(t, p.mac, ip);
    if won {
      GrantedThere(t, p.mac, ip);
      ReplyConfigured(c, 5, t[ByIp(t, ip)].lease, |area|);
      assert forall i :: 0 <= i < |t| && t[i].addr == ip ==> i == ByIp(t, ip);
    }
    hide Handled, Answer, Received, Scan, Lookup, ReplyArea, Configured, Tells, Begins, Requested, Granted, Free, Holds;
  }

  lemma TableAfter(t: seq<Lease>, mac: nat, ip: Ip, buffer: bool)
    requires DistinctAddresses(t) && OneLeaseEach(t)
    ensures Holds(t, Requested(t, mac, ip, buffer), mac, if Granted(t, mac, ip) && buffer then Some(ip) else None)
  {
    FreedKeeps(t, mac);
    forall i | 0 <= i < |t|
      ensures Freed(t, mac)[i] == if t[i].mac == mac then t[i].(mac := 0) else t[i]
    {
      assert mac != 0 ==> Freed(t, mac)[i].mac != mac;
    }
    hide Freed;
    if Granted(t, mac, ip) {
      assert forall i :: 0 <= i < |t| && t[i].addr == ip ==> i == ByIp(t, ip);
    }
  }

  /** After any packets at all: a discovery (type 1) changes no lease and is answered with an offer (type 2) of the
      client's own address, or without one of the first vacant address; without either, or without memory for the
      reply, it is not answered. */
  lemma DiscoveryAnswered(c: Config, s0: State, packets: seq<Packet>, p: Packet, opts: seq<Opt>)
    requires Sound(c, s0) && Tells(DhcpServer.After(c, s0, packets), p, opts) && IsOfType(opts, 1)
    ensures var s := DhcpServer.After(c, s0, packets);
            var t, reply := s.leases, Answer(c, s, p);
            && Handled(c, s, p).leases == t
            && (forall i :: 0 <= i < |t| && FirstOf(t, p.mac, i) && p.buffer ==>
                  reply.Reply? && reply.yiaddr == t[i].addr && Configured(c, reply.options, 2, t[i].lease))
            && (forall i :: 0 <= i < |t| && HasNone(t, p.mac) && FirstOf(t, 0, i) && p.buffer ==>
                  reply.Reply? && reply.yiaddr == t[i].addr && Configured(c, reply.options, 2, t[i].lease))
            && ((HasNone(t, p.mac) && HasNone(t, 0)) || !p.buffer ==> reply == Silence)
  {
    AfterSound(c, s0, packets);
    var s := DhcpServer.After(c, s0, packets);
    hide DhcpServer.After;
    Discoveries(c, s, p, opts);
  }

  /** The first entry of a hardware address. */
  ghost predicate FirstOf(t: seq<Lease>, mac: nat, i: nat) {
    i < |t| && t[i].mac == mac && forall j :: 0 <= j < i ==> t[j].mac != mac
  }

  ghost predicate HasNone(t: seq<Lease>, mac: nat) {
    forall j :: 0 <= j < |t| ==> t[j].mac != mac
  }

  lemma ByMacIs(t: seq<Lease>, mac: nat)
    ensures forall i: nat :: FirstOf(t, mac, i) ==> ByMac(t, mac) == i
    ensures HasNone(t, mac) <==> ByMac(t, mac) == |t|
  {
    hide ByMac;
    var k := ByMac(t, mac);
    assert k < |t| ==> t[k].mac == mac;
    assert forall j :: 0 <= j < k ==> t[j].mac != mac;
  }

  lemma Discoveries(c: Config, s: State, p: Packet, opts: seq<Opt>)
    requires Sound(c, s) && Tells(s, p, opts) && IsOfType(opts, 1)
    ensures var t, reply := s.leases, Answer(c, s, p);
            && Handled(c, s, p).leases == t
            && (forall i :: 0 <= i < |t| && FirstOf(t, p.mac, i) && p.buffer ==>
                  reply.Reply? && reply.yiaddr == t[i].addr && Configured(c, reply.options, 2, t[i].lease))
            && (forall i :: 0 <= i < |t| && HasNone(t, p.mac) && FirstOf(t, 0, i) && p.buffer ==>
                  reply.Reply? && reply.yiaddr == t[i].addr && Configured(c, reply.options, 2, t[i].lease))
            && ((HasNone(t, p.mac) && HasNone(t, 0)) || !p.buffer ==> reply == Silence)
  {
    var area, t := Received(s.area, p.options), s.leases;
    ReceivedBegins(s, p, opts);
    TypeIs(area, opts, p.behind);
    HandledCases(c, s, p);
    ByMacIs(t, p.mac);
    ByMacIs(t, 0);
    var k := Offered(t, p.mac);
    if k < |t| {
      ReplyConfigured(c, 2, t[k].lease, |area|);
    }
    hide Handled, Answer, Received, Scan, Lookup, ReplyArea, Configured, Tells, Begins, ByMac, FirstOf, HasNone;
  }

  /** A packet of any other type changes no lease and is not answered. */
  lemma OthersIgnored(c: Config, s: State, p: Packet, opts: seq<Opt>, msgType: byte)
    requires Sound(c, s) && Tells(s, p, opts) && IsOfType(opts, msgType) && msgType != 1 && msgType != 3
    ensures Handled(c, s, p).leases == s.leases && Answer(c, s, p) == Silence
  {
    var area := Received(s.area, p.options);
    ReceivedBegins(s, p, opts);
    TypeIs(area, opts, p.behind);
    HandledCases(c, s, p);
    hide Handled, Answer, Received, Scan, Lookup, ReplyArea, Tells, Begins, Granted;
  }

  /** A request without an address, in an area with nothing behind its end mark, or with one that has not four
      bytes, changes no lease and is not answered. */
  lemma NoAddressIgnored(c: Config, s: State, p: Packet, opts: seq<Opt>)
    requires Sound(c, s) && Tells(s, p, opts) && IsOfType(opts, 3)
    requires if Lookup(opts, 50).0 then |Lookup(opts, 50).1| != 4
             else |Encode(opts)| < |s.area| && Received(s.area, p.options) == Area(opts, |s.area|)
    ensures Handled(c, s, p).leases == s.leases && Answer(c, s, p) == Silence
  {
    var area := Received(s.area, p.options);
    ReceivedBegins(s, p, opts);
    TypeIs(area, opts, p.behind);
    if Lookup(opts, 50).0 {
      RequestedIpIs(area, opts);
    } else {
      RequestedIpOf(opts, |s.area|);
    }
    HandledCases(c, s, p);
    hide Handled, Answer, Received, Scan, Lookup, ReplyArea, Tells, Begins, Granted, Area;
  }
}
