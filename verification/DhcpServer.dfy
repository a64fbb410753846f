/** The DHCP server: a lease table and one packet buffer, both overwritten in place. */
module DhcpServer {
  import opened Bytes
  import opened Dhcp

  /** What is sent: the address it is for, the address it names, and its options. */
  datatype Reply = Silence | Reply(yiaddr: Ip, options: seq<byte>)

  /** The options area after a packet was copied over it; a short packet leaves the rest. */
  function Received(area: seq<byte>, packet: seq<byte>): (r: seq<byte>)
    ensures |r| == |area|
  {
    var n := Min(|packet|, |area|);
    packet[..n] + area[n..]
  }

  /** The type of a message, 0 if the option is missing; an empty option at the end of the area takes
      the byte behind the area. */
  function TypeOf(area: seq<byte>, behind: byte): nat {
    var r := Scan(area, 0, MESSAGETYPE);
    if r == -1 then 0 else if r + 2 >= |area| then behind else area[r + 2]
  }

  /** The address a request is for. */
  function RequestedIp(area: seq<byte>): (r: (bool, Ip)) {
    var r := Scan(area, 0, IPADDRESS);
    if r == -1 || area[r + 1] != 4 then (false, NO_IP) else (true, area[r + 2..r + 6])
  }

  lemma RequestedIpAt(area: seq<byte>)
    ensures var k := Scan(area, 0, 50);
            var some := k >= 0 && area[k + 1] == 4;
            RequestedIp(area) == (some, if some then area[k + 2..k + 6] else NO_IP)
  {
    hide Scan;
  }

  function ReplyArea(c: Config, msgType: byte, lease: nat, size: nat): (r: seq<byte>)
    requires Fits(c, size)
    ensures |r| == size
  {
    ReplySize(c, msgType, lease);
    Area(ReplyOptions(c, msgType, lease), size)
  }

  /** A packet: its options, the client's hardware address, whether there is memory for a reply, and
      the byte behind the options area. */
  datatype Packet = Packet(options: seq<byte>, mac: nat, buffer: bool, behind: byte)

  /** The lease table, and the options area with what the last packet left in it. */
  datatype State = State(leases: seq<Lease>, area: seq<byte>)

  predicate Sound(c: Config, s: State) {
    Fits(c, |s.area|) && DistinctAddresses(s.leases) && OneLeaseEach(s.leases)
  }

  /** The entry a packet offers, the table's length if it offers none. */
  function OfferOf(s: State, p: Packet): nat {
    if TypeOf(Received(s.area, p.options), p.behind) == DISCOVER then Offered(s.leases, p.mac) else |s.leases|
  }

  predicate IsRequest(s: State, p: Packet) {
    var area := Received(s.area, p.options);
    TypeOf(area, p.behind) == REQUEST && RequestedIp(area).0
  }

  /** The address a request asks for. */
  function WantedIp(s: State, p: Packet): Ip {
    RequestedIp(Received(s.area, p.options)).1
  }

  predicate Grants(s: State, p: Packet) {
    IsRequest(s, p) && Granted(s.leases, p.mac, WantedIp(s, p))
  }

  /** What a packet leaves: a table changed by a request only, and the options of the reply. */
  function Handled(c: Config, s: State, p: Packet): (r: State)
    requires Fits(c, |s.area|)
    ensures |r.area| == |s.area| && |r.leases| == |s.leases|
  {
    State(if IsRequest(s, p) then Requested(s.leases, p.mac, WantedIp(s, p), p.buffer) else s.leases,
          if OfferOf(s, p) < |s.leases| then ReplyArea(c, OFFER, s.leases[OfferOf(s, p)].lease, |s.area|)
          else if Grants(s, p) then ReplyArea(c, ACK, s.leases[ByIp(s.leases, WantedIp(s, p))].lease, |s.area|)
          else Received(s.area, p.options))
  }

  /** What a packet is answered with. */
  function Answer(c: Config, s: State, p: Packet): Reply
    requires Fits(c, |s.area|)
  {
    if !p.buffer then Silence
    else if OfferOf(s, p) < |s.leases| then Reply(s.leases[OfferOf(s, p)].addr, Handled(c, s, p).area)
    else if Grants(s, p) then Reply(WantedIp(s, p), Handled(c, s, p).area)
    else Silence
  }

  class Server {
    const config: Config
    const leases: array<Lease>
    const options: array<byte>

    ghost function Value(): State
      reads leases, options
    {
      State(leases[..], options[..])
    }

    ghost predicate Valid()
      reads leases, options
    {
      Sound(config, Value())
    }

    constructor (config: Config, leases: array<Lease>, size: nat)
      requires Sound(config, State(leases[..], Zeros(size)))
      ensures Valid() && fresh(options) && this.leases == leases && this.config == config
      ensures Value() == State(leases[..], Zeros(size))
    {
      this.config, this.leases := config, leases;
      options := new byte[size](_ => 0);
      new;
      assert options[..] == Zeros(size);
    }

    method EntryByIp(ip: Ip) returns (k: nat)
      ensures k == ByIp(leases[..], ip)
    {
      k := 0;
      while k < leases.Length
        invariant k <= leases.Length
        invariant ByIp(leases[..], ip) == k + ByIp(leases[k..], ip)
      {
        if leases[k].addr == ip {
          return;
        }
        assert leases[k..][1..] == leases[k + 1..];
        k := k + 1;
      }
    }

    /** With `mac` 0 this is the first vacant entry. */
    method EntryByMac(mac: nat) returns (k: nat)
      ensures k == ByMac(leases[..], mac)
    {
      k := 0;
      while k < leases.Length
        invariant k <= leases.Length
        invariant ByMac(leases[..], mac) == k + ByMac(leases[k..], mac)
      {
        if leases[k].mac == mac {
          return;
        }
        assert leases[k..][1..] == leases[k + 1..];
        k := k + 1;
      }
    }

    method FindOption(code: byte) returns (r: int)
      ensures r == Scan(options[..], 0, code)
    {
      var i := 0;
      while i + 1 < options.Length
        invariant 0 <= i <= options.Length
        invariant Scan(options[..], 0, code) == Scan(options[..], i, code)
        decreases options.Length - i
      {
        var next := i + options[i + 1] + 2;
        if next > options.Length {
          return -1;
        }
        if options[i] == code {
          return i;
        }
        i := next;
      }
      return -1;
    }

    /** The options so far are written, and zeros follow. */
    ghost predicate Written(ptr: nat, opts: seq<Opt>)
      reads options
    {
      ptr <= options.Length && Sendable(opts) && options[..] == Encode(opts) + Zeros(options.Length - ptr) && ptr == |Encode(opts)|
    }

    /** Writes one option at `ptr`. */
    method Put(ptr: nat, code: byte, payload: seq<byte>, ghost opts: seq<Opt>) returns (end: nat)
      requires |payload| < 256 && code != PAD && code != END
      requires Written(ptr, opts) && ptr + 2 + |payload| <= options.Length
      modifies options
      ensures end == ptr + 2 + |payload| && Written(end, opts + [Opt(code, payload)])
    {
      ghost var before := options[..];
      options[ptr], options[ptr + 1] := code, |payload|;
      forall k | 0 <= k < |payload| {
        options[ptr + 2 + k] := payload[k];
      }
      end := ptr + 2 + |payload|;
      Spliced(before, options[..], ptr, Bytes1(Opt(code, payload)));
      PutArea(before, options[..], opts, Opt(code, payload), end);
    }

    /** The options every reply has. */
    method FillBasics(msgType: byte, lease: nat) returns (ptr: nat)
      requires options[..] == Zeros(options.Length) && options.Length >= 21
      modifies options
      ensures ptr == 21 && Written(ptr, Basics(config, msgType, lease))
    {
      EncodeNothing();
      assert options[..] == Encode([]) + Zeros(options.Length);
      hide Written;
      assert Written(0, []) by { NothingWritten(); }
      ghost var a, b := Opt(MESSAGETYPE, [msgType]), Opt(SERVERID, config.server);
      ghost var c, d := Opt(LEASETIME, Network32(lease)), Opt(SUBNETMASK, config.netmask);
      ptr := Put(0, MESSAGETYPE, [msgType], []);
      ptr := Put(ptr, SERVERID, config.server, [] + [a]);
      ptr := Put(ptr, LEASETIME, Network32(lease), [] + [a] + [b]);
      ptr := Put(ptr, SUBNETMASK, config.netmask, [] + [a] + [b] + [c]);
      assert [] + [a] + [b] + [c] + [d] == Basics(config, msgType, lease);
    }

    lemma NothingWritten()
      requires options[..] == Zeros(options.Length)
      ensures Written(0, [])
    {
      assert Encode([]) + Zeros(options.Length) == Zeros(options.Length);
    }

    /** Fills the cleared area with the options of a reply. */
    method FillOptions(msgType: byte, lease: nat) returns (length: nat)
      requires Fits(config, options.Length) && options[..] == Zeros(options.Length)
      modifies options
      ensures options[..] == ReplyArea(config, msgType, lease, options.Length)
    {
      hide Written, Zeros, Encode;
      var ptr := FillBasics(msgType, lease);
      ghost var opts := Basics(config, msgType, lease);
      if config.router != NO_IP {
        ptr := Put(ptr, ROUTER, config.router, opts);
        opts := opts + [Opt(ROUTER, config.router)];
      }
      if config.hasDomain {
        ptr := Put(ptr, DNSDOMAIN, config.domain, opts);
        opts := opts + [Opt(DNSDOMAIN, config.domain)];
      }
      if config.dns != NO_IP {
        ptr := Put(ptr, DNSSERVER, config.dns, opts);
        opts := opts + [Opt(DNSSERVER, config.dns)];
      }
      assert opts == ReplyOptions(config, msgType, lease);
      Terminate(ptr, opts);
      length := ptr + 1;
    }

    method Terminate(ptr: nat, ghost opts: seq<Opt>)
      requires Written(ptr, opts) && ptr < options.Length
      modifies options
      ensures Sendable(opts) && |Encode(opts)| < options.Length && options[..] == Area(opts, options.Length)
    {
      ghost var before := options[..];
      options[ptr] := END;
      assert options[..] == before[..ptr] + [END] + before[ptr + 1..];
      hide Encode;
      assert before[..ptr] == Encode(opts);
      ZerosTail(before, Encode(opts), ptr + 1);
    }

    /** Clears the area and fills in a reply. */
    method Prepare(msgType: byte, lease: nat)
      requires Fits(config, options.Length)
      modifies options
      ensures options[..] == ReplyArea(config, msgType, lease, options.Length)
    {
      hide ReplyArea;
      for k := 0 to options.Length
        invariant forall j :: 0 <= j < k ==> options[j] == 0
      {
        options[k] := 0;
      }
      assert options[..] == Zeros(options.Length);
      var n := FillOptions(msgType, lease);
    }

    /** Offers an address, if there is one to offer. */
    method HandleDiscover(mac: nat, buffer: bool) returns (reply: Reply)
      requires Valid()
      modifies options
      ensures Valid()
      ensures var k := Offered(leases[..], mac);
              && options[..] == (if k < leases.Length then ReplyArea(config, OFFER, leases[k].lease, options.Length)
                                 else old(options[..]))
              && reply == if k < leases.Length && buffer then Reply(leases[k].addr, options[..]) else Silence
      ensures reply.Reply? ==> NotAnothers(leases[..], mac, reply.yiaddr)
    {
      hide ReplyArea, ByMac, ByIp, NotAnothers, DistinctAddresses, OneLeaseEach;
      var k := EntryByMac(mac);
      if k == leases.Length {
        k := EntryByMac(0);
      }
      if k == leases.Length {
        return Silence;
      }
      OfferSound(leases[..], mac);
      Prepare(OFFER, leases[k].lease);
      if !buffer {
        return Silence;
      }
      return Reply(leases[k].addr, options[..]);
    }

    /** Frees the client's lease, and grants the one it requests if that is vacant. */
    method HandleRequest(mac: nat, buffer: bool) returns (reply: Reply)
      requires Valid()
      modifies leases, options
      ensures Valid()
      ensures var area := old(options[..]);
              var k := Scan(area, 0, 50);
              var some := k >= 0 && area[k + 1] == 4;
              var ip := if some then area[k + 2..k + 6] else NO_IP;
              var won := some && Granted(old(leases[..]), mac, ip);
              && leases[..] == (if some then Requested(old(leases[..]), mac, ip, buffer) else old(leases[..]))
              && (won ==> ByIp(leases[..], ip) < leases.Length)
              && options[..] == (if won then ReplyArea(config, ACK, leases[ByIp(leases[..], ip)].lease, options.Length)
                                 else old(options[..]))
              && reply == if won && buffer then Reply(ip, options[..]) else Silence
    {
      hide ReplyArea, NotAnothers, DistinctAddresses, OneLeaseEach, ByMac, ByIp, Scan, Freed, Requested, Granted, Fits;
      ghost var t := leases[..];
      var r := FindOption(IPADDRESS);
      if r == -1 {
        return Silence;
      }
      if options[r + 1] != 4 {
        return Silence;
      }
      var ip: Ip := options[r + 2..r + 6];
      RequestKeeps(t, mac, ip, buffer);
      Free(mac);
      reply := Grant(mac, ip, buffer, t);
    }

    /** Grants an address to a client without a lease. */
    method Grant(mac: nat, ip: Ip, buffer: bool, ghost t: seq<Lease>) returns (reply: Reply)
      requires Fits(config, options.Length) && leases[..] == Freed(t, mac)
      modifies leases, options
      ensures leases[..] == Requested(t, mac, ip, buffer)
      ensures Granted(t, mac, ip) ==> ByIp(leases[..], ip) < leases.Length
      ensures options[..] == if Granted(t, mac, ip) then ReplyArea(config, ACK, leases[ByIp(leases[..], ip)].lease, options.Length)
                             else old(options[..])
      ensures reply == if Granted(t, mac, ip) && buffer then Reply(ip, options[..]) else Silence
    {
      hide ReplyArea, ByIp, ByMac, Freed;
      GrantedThere(t, mac, ip);
      SameAddresses(t, leases[..], ip);
      SameAddresses(leases[..], Requested(t, mac, ip, buffer), ip);
      var k := EntryByIp(ip);
      if k == leases.Length || leases[k].mac != 0 {
        return Silence;
      }
      Prepare(ACK, leases[k].lease);
      if !buffer {
        return Silence;
      }
      ghost var freed := leases[..];
      leases[k] := leases[k].(mac := mac);
      assert leases[..] == freed[k := freed[k].(mac := mac)];
      return Reply(ip, options[..]);
    }

    method Free(mac: nat)
      modifies leases
      ensures leases[..] == Freed(old(leases[..]), mac)
    {
      var k := EntryByMac(mac);
      if k < leases.Length {
        leases[k] := leases[k].(mac := 0);
      }
    }

    method MessageType(behind: byte) returns (kind: nat)
      ensures kind == TypeOf(options[..], behind)
    {
      hide Scan;
      var r := FindOption(MESSAGETYPE);
      if r == -1 {
        return 0;
      }
      return if r + 2 < options.Length then options[r + 2] else behind;
    }

    /** Handles a packet. */
    method Receive(p: Packet) returns (reply: Reply)
      requires Valid()
      modifies leases, options
      ensures Valid()
      ensures Value() == Handled(config, old(Value()), p) && reply == Answer(config, old(Value()), p)
    {
      hide ReplyArea, Scan, ByIp, ByMac, Offered, Granted, Requested, Handled, Answer, RequestedIp, Received, Fits;
      hide TypeOf, DistinctAddresses, OneLeaseEach, NotAnothers;
      ghost var s := Value();
      Store(p.options);
      var msgType := MessageType(p.behind);
      if msgType == DISCOVER {
        reply := HandleDiscover(p.mac, p.buffer);
        DiscoverHandled(config, s, p, Value(), reply);
      } else if msgType == REQUEST {
        ghost var area := options[..];
        reply := HandleRequest(p.mac, p.buffer);
        ghost var k := Scan(area, 0, 50);
        ghost var some := k >= 0 && area[k + 1] == 4;
        ghost var ip := if some then area[k + 2..k + 6] else NO_IP;
        assert RequestedIp(area) == (some, ip) by { RequestedIpAt(area); }
        RequestHandled(config, s, p, some, ip, Value(), reply);
      } else {
        reply := Silence;
        OtherHandled(config, s, p);
      }
    }

    /** Copies a packet over the one received before. */
    method Store(packet: seq<byte>)
      modifies options
      ensures options[..] == Received(old(options[..]), packet)
    {
      for k := 0 to Min(|packet|, options.Length)
        invariant forall j :: 0 <= j < options.Length ==> options[j] == if j < k then packet[j] else old(options[j])
      {
        options[k] := packet[k];
      }
    }
  }

  lemma HandledCases(c: Config, s: State, p: Packet)
    requires Fits(c, |s.area|)
    ensures var area, t := Received(s.area, p.options), s.leases;
            var kind, k, some, ip := TypeOf(area, p.behind), Offered(t, p.mac), RequestedIp(area).0, RequestedIp(area).1;
            && (kind == DISCOVER ==>
                  && Handled(c, s, p) == State(t, if k < |t| then ReplyArea(c, OFFER, t[k].lease, |area|) else area)
                  && Answer(c, s, p) == if k < |t| && p.buffer then Reply(t[k].addr, Handled(c, s, p).area) else Silence)
            && (kind == REQUEST && some ==>
                  && Handled(c, s, p) == State(Requested(t, p.mac, ip, p.buffer),
                       if Granted(t, p.mac, ip) then ReplyArea(c, ACK, t[ByIp(t, ip)].lease, |area|) else area)
                  && Answer(c, s, p) == if Granted(t, p.mac, ip) && p.buffer then Reply(ip, Handled(c, s, p).area) else Silence)
            && (kind != DISCOVER && (kind != REQUEST || !some) ==>
                  Handled(c, s, p) == State(t, area) && Answer(c, s, p) == Silence)
  {
    hide ReplyArea, Scan, ByMac, DistinctAddresses, OneLeaseEach, Requested;
    OfferedInside(s.leases, p.mac);
  }

  lemma DiscoverHandled(c: Config, s: State, p: Packet, s': State, reply: Reply)
    requires Fits(c, |s.area|) && TypeOf(Received(s.area, p.options), p.behind) == DISCOVER
    requires var area, k := Received(s.area, p.options), Offered(s.leases, p.mac);
             && s' == State(s.leases, if k < |s.leases| then ReplyArea(c, OFFER, s.leases[k].lease, |area|) else area)
             && reply == if k < |s.leases| && p.buffer then Reply(s.leases[k].addr, s'.area) else Silence
    ensures s' == Handled(c, s, p) && reply == Answer(c, s, p)
  {
    hide ReplyArea, Scan, ByIp, ByMac, Offered, Granted, Requested, Handled, Answer, Received, Fits, TypeOf;
    HandledCases(c, s, p);
  }

  lemma RequestHandled(c: Config, s: State, p: Packet, some: bool, ip: Ip, s': State, reply: Reply)
    requires Fits(c, |s.area|) && TypeOf(Received(s.area, p.options), p.behind) == REQUEST
    requires RequestedIp(Received(s.area, p.options)) == (some, ip)
    requires var area, won := Received(s.area, p.options), some && Granted(s.leases, p.mac, ip);
             && s'.leases == (if some then Requested(s.leases, p.mac, ip, p.buffer) else s.leases)
             && (won ==> ByIp(s'.leases, ip) < |s'.leases|)
             && s'.area == (if won then ReplyArea(c, ACK, s'.leases[ByIp(s'.leases, ip)].lease, |area|) else area)
             && reply == if won && p.buffer then Reply(ip, s'.area) else Silence
    ensures s' == Handled(c, s, p) && reply == Answer(c, s, p)
  {
    hide ReplyArea, Scan, ByIp, ByMac, Offered, Granted, Requested, Handled, Answer, Received, Fits, TypeOf, RequestedIp;
    HandledCases(c, s, p);
    if some {
      SameLeases(s.leases, p.mac, ip, p.buffer);
      SameAddresses(s.leases, Requested(s.leases, p.mac, ip, p.buffer), ip);
      GrantedThere(s.leases, p.mac, ip);
    }
  }

  lemma SameLeases(t: seq<Lease>, mac: nat, ip: Ip, buffer: bool)
    ensures var r := Requested(t, mac, ip, buffer);
            |r| == |t| && forall i :: 0 <= i < |t| ==> r[i].addr == t[i].addr && r[i].lease == t[i].lease
  {
    hide ByMac, ByIp;
  }

  lemma OtherHandled(c: Config, s: State, p: Packet)
    requires Fits(c, |s.area|) && TypeOf(Received(s.area, p.options), p.behind) !in {DISCOVER, REQUEST}
    ensures State(s.leases, Received(s.area, p.options)) == Handled(c, s, p) && Silence == Answer(c, s, p)
  {
    hide ReplyArea, Scan, ByIp, ByMac, Offered, Granted, Requested, Handled, Answer, Received, Fits, TypeOf;
    HandledCases(c, s, p);
  }

  lemma OfferedInside(t: seq<Lease>, mac: nat)
    ensures Offered(t, mac) <= |t|
  {
  }

  lemma Spliced(before: seq<byte>, after: seq<byte>, from: nat, mid: seq<byte>)
    requires |after| == |before| && from + |mid| <= |before|
    requires forall k :: 0 <= k < from || from + |mid| <= k < |before| ==> after[k] == before[k]
    requires forall k :: 0 <= k < |mid| ==> after[from + k] == mid[k]
    ensures after == before[..from] + mid + before[from + |mid|..]
  {
  }

  lemma PutArea(before: seq<byte>, after: seq<byte>, opts: seq<Opt>, o: Opt, end: nat)
    requires Sendable(opts) && |o.payload| < 256 && o.code != PAD && o.code != END
    requires end == |Encode(opts)| + |Bytes1(o)| <= |before|
    requires before == Encode(opts) + Zeros(|before| - |Encode(opts)|)
    requires after == before[..|Encode(opts)|] + Bytes1(o) + before[end..]
    ensures Sendable(opts + [o]) && |Encode(opts + [o])| == end && after == Encode(opts + [o]) + Zeros(|after| - end)
  {
    hide Zeros, Bytes1;
    EncodeOne(o);
    EncodeAppend(opts, [o]);
    hide Encode;
    assert before[..|Encode(opts)|] == Encode(opts);
    ZerosTail(before, Encode(opts), end);
  }

  lemma ZerosTail(area: seq<byte>, head: seq<byte>, end: nat)
    requires |head| <= end <= |area| && area == head + Zeros(|area| - |head|)
    ensures area[end..] == Zeros(|area| - end)
  {
  }

  lemma {:induction false} SameAddresses(t: seq<Lease>, r: seq<Lease>, ip: Ip)
    requires |t| == |r| && forall i :: 0 <= i < |t| ==> t[i].addr == r[i].addr
    ensures ByIp(t, ip) == ByIp(r, ip)
  {
    if t != [] {
      SameAddresses(t[1..], r[1..], ip);
    }
  }

  lemma GrantedThere(t: seq<Lease>, mac: nat, ip: Ip)
    ensures Granted(t, mac, ip) ==> ByIp(t, ip) < |t|
  {
  }

  /** A client finds in a reply what it was sent: every option with its payload, and no other. */
  lemma ClientReads(c: Config, msgType: byte, lease: nat, size: nat, code: byte, behind: byte)
    requires Fits(c, size) && code != PAD && code != END
    ensures var area := ReplyArea(c, msgType, lease, size);
            && Finds(area, Scan(area, 0, code), code, Wanted(c, msgType, lease, code))
            && TypeOf(area, behind) == msgType
  {
    hide Scan, Area, ReplyOptions, Wanted;
    ReplyReadBack(c, msgType, lease, size, code);
    ReplyReadBack(c, msgType, lease, size, MESSAGETYPE);
    TypeWanted(c, msgType, lease);
  }

  lemma TypeWanted(c: Config, msgType: byte, lease: nat)
    ensures Wanted(c, msgType, lease, MESSAGETYPE) == (true, [msgType])
  {
  }

  // Whole runs

  function After(c: Config, s: State, packets: seq<Packet>): (r: State)
    requires Fits(c, |s.area|)
    ensures |r.area| == |s.area|
  {
    if packets == [] then s
    else Handled(c, After(c, s, packets[..|packets| - 1]), packets[|packets| - 1])
  }

  lemma HandledSound(c: Config, s: State, p: Packet)
    requires Sound(c, s)
    ensures Sound(c, Handled(c, s, p))
  {
    hide DistinctAddresses, OneLeaseEach, ReplyArea, Requested;
    RequestKeeps(s.leases, p.mac, WantedIp(s, p), p.buffer);
  }

  lemma {:induction false} AfterSound(c: Config, s: State, packets: seq<Packet>)
    requires Sound(c, s)
    ensures Sound(c, After(c, s, packets))
  {
    if packets != [] {
      AfterSound(c, s, packets[..|packets| - 1]);
      HandledSound(c, After(c, s, packets[..|packets| - 1]), packets[|packets| - 1]);
    }
  }

  /** After any packets at all, whatever is in them: an answer never names an address another client
      holds, a client whose request is answered holds the address it asked for, and the client finds
      in the answer exactly the options configured. */
  lemma AnswersSound(c: Config, s0: State, packets: seq<Packet>, p: Packet, code: byte)
    requires Sound(c, s0) && code != PAD && code != END
    ensures var s := After(c, s0, packets);
            var reply := Answer(c, s, p);
            && Sound(c, s)
            && (reply.Reply? ==>
                  && NotAnothers(s.leases, p.mac, reply.yiaddr)
                  && Finds(reply.options, Scan(reply.options, 0, code), code,
                           Wanted(c, TypeOfAnswer(s, p), LeaseOf(s, reply.yiaddr), code)))
            && (reply.Reply? && IsRequest(s, p) ==>
                  Lease(p.mac, reply.yiaddr, LeaseOf(s, reply.yiaddr)) in Handled(c, s, p).leases)
  {
    AfterSound(c, s0, packets);
    hide After;
    AnswerSound(c, After(c, s0, packets), p, code);
  }

  function TypeOfAnswer(s: State, p: Packet): byte {
    if OfferOf(s, p) < |s.leases| then OFFER else ACK
  }

  function LeaseOf(s: State, ip: Ip): nat {
    if ByIp(s.leases, ip) < |s.leases| then s.leases[ByIp(s.leases, ip)].lease else 0
  }

  lemma AnswerSound(c: Config, s: State, p: Packet, code: byte)
    requires Sound(c, s) && code != PAD && code != END
    ensures var reply := Answer(c, s, p);
            && (reply.Reply? ==>
                  && NotAnothers(s.leases, p.mac, reply.yiaddr)
                  && Finds(reply.options, Scan(reply.options, 0, code), code,
                           Wanted(c, TypeOfAnswer(s, p), LeaseOf(s, reply.yiaddr), code)))
            && (reply.Reply? && IsRequest(s, p) ==>
                  Lease(p.mac, reply.yiaddr, LeaseOf(s, reply.yiaddr)) in Handled(c, s, p).leases)
  {
    hide Scan, Finds, Wanted, ReplyArea, NotAnothers, Granted, ByMac, Requested;
    if p.buffer && OfferOf(s, p) < |s.leases| {
      OfferSound(s.leases, p.mac);
      assert ByIp(s.leases, s.leases[OfferOf(s, p)].addr) == OfferOf(s, p);
      ClientReads(c, OFFER, s.leases[OfferOf(s, p)].lease, |s.area|, code, 0);
    } else if p.buffer && Grants(s, p) {
      var ip := WantedIp(s, p);
      GrantedIff(s.leases, p.mac, ip);
      GrantedThere(s.leases, p.mac, ip);
      GrantHeld(s.leases, p.mac, ip);
      ClientReads(c, ACK, s.leases[ByIp(s.leases, ip)].lease, |s.area|, code, 0);
    }
  }

  lemma GrantHeld(t: seq<Lease>, mac: nat, ip: Ip)
    requires Granted(t, mac, ip)
    ensures ByIp(t, ip) < |t| && Requested(t, mac, ip, true)[ByIp(t, ip)] == Lease(mac, ip, t[ByIp(t, ip)].lease)
  {
  }

  /** The answers to a run of packets. */
  function Answers(c: Config, s: State, packets: seq<Packet>): (r: seq<Reply>)
    requires Fits(c, |s.area|)
    ensures |r| == |packets|
  {
    if packets == [] then []
    else
      var before := packets[..|packets| - 1];
      Answers(c, s, before) + [Answer(c, After(c, s, before), packets[|packets| - 1])]
  }

  lemma AfterNext(c: Config, s: State, packets: seq<Packet>, k: nat)
    requires Fits(c, |s.area|) && k < |packets|
    ensures After(c, s, packets[..k + 1]) == Handled(c, After(c, s, packets[..k]), packets[k])
    ensures Answers(c, s, packets[..k + 1])
            == Answers(c, s, packets[..k]) + [Answer(c, After(c, s, packets[..k]), packets[k])]
  {
    hide Handled, Answer, Fits;
    assert packets[..k + 1][..k] == packets[..k];
  }

  /** A server fed with any packets answers each as the run says. */
  method Serve(c: Config, leases: array<Lease>, size: nat, packets: seq<Packet>) returns (replies: seq<Reply>)
    requires Sound(c, State(leases[..], Zeros(size)))
    modifies leases
    ensures var s := State(old(leases[..]), Zeros(size));
            leases[..] == After(c, s, packets).leases && replies == Answers(c, s, packets)
  {
    ghost var s := State(leases[..], Zeros(size));
    var server := new Server(c, leases, size);
    replies := [];
    hide Handled, Answer, DistinctAddresses, OneLeaseEach, Server.Valid, Zeros, Answers, Fits;
    for k := 0 to |packets|
      invariant fresh(server) && fresh(server.options) && server.Valid() && server.config == c && server.leases == leases
      invariant server.Value() == After(c, s, packets[..k]) && replies == Answers(c, s, packets[..k])
    {
      AfterNext(c, s, packets, k);
      var reply := server.Receive(packets[k]);
      replies := replies + [reply];
    }
    assert packets[..|packets|] == packets;
  }
}
