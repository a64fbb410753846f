/** DHCP options and leases (RFC 2132 section 2, RFC 2131 sections 4.3.1 and 4.3.2). */
module Dhcp {
  import opened Bytes

  const PAD := 0
  const SUBNETMASK := 1
  const ROUTER := 3
  const DNSSERVER := 6
  const DNSDOMAIN := 15
  const IPADDRESS := 50
  const LEASETIME := 51
  const MESSAGETYPE := 53
  const SERVERID := 54
  const END := 255

  const DISCOVER := 1
  const OFFER := 2
  const REQUEST := 3
  const ACK := 5

  /** Four bytes in network order. */
  type Ip = s: seq<byte> | |s| == 4 witness [0, 0, 0, 0]

  const NO_IP: Ip := [0, 0, 0, 0]

  // Options

  datatype Opt = Opt(code: byte, payload: seq<byte>)

  predicate Sendable(opts: seq<Opt>) {
    forall i :: 0 <= i < |opts| ==> |opts[i].payload| < 256 && opts[i].code != PAD && opts[i].code != END
  }

  /** One option: code, length, payload. */
  function Bytes1(o: Opt): (r: seq<byte>)
    requires |o.payload| < 256
    ensures |r| == 2 + |o.payload|
  {
    [o.code, |o.payload|] + o.payload
  }

  function Encode(opts: seq<Opt>): seq<byte>
    requires Sendable(opts)
  {
    if opts == [] then [] else Bytes1(opts[0]) + Encode(opts[1..])
  }

  /** What a scan from index `i` finds: the index of the first option with a code. Every code is
      taken to be followed by a length, PAD and END too. */
  function Scan(area: seq<byte>, i: nat, code: byte): (r: int)
    ensures r == -1 || (i <= r && r + 1 < |area| && r + 2 + area[r + 1] <= |area| && area[r] == code)
    decreases |area| - i
  {
    if i + 1 >= |area| then -1
    else
      var next := i + area[i + 1] + 2;
      if next > |area| then -1
      else if area[i] == code then i
      else Scan(area, next, code)
  }

  function Zeros(n: nat): (r: seq<byte>)
    ensures |r| == n
  {
    seq(n, _ => 0)
  }

  /** An options area: the options, the end mark, and zeros. */
  function Area(opts: seq<Opt>, size: nat): (r: seq<byte>)
    requires Sendable(opts) && |Encode(opts)| < size
    ensures |r| == size
  {
    Encode(opts) + [END] + Zeros(size - |Encode(opts)| - 1)
  }

  /** The payload of the first option with a code. */
  function Lookup(opts: seq<Opt>, code: byte): (r: (bool, seq<byte>)) {
    if opts == [] then (false, [])
    else if opts[0].code == code then (true, opts[0].payload)
    else Lookup(opts[1..], code)
  }

  /** What a scan result says about a code. */
  predicate Finds(area: seq<byte>, r: int, code: byte, want: (bool, seq<byte>)) {
    if want.0 then
      && 0 <= r && r + 2 + |want.1| <= |area|
      && area[r] == code && area[r + 1] == |want.1| && area[r + 2..r + 2 + |want.1|] == want.1
    else r == -1
  }

  /** Scanning the tail of an area gives what scanning the area gives. */
  lemma {:induction false} ScanShift(area: seq<byte>, k: nat, i: nat, code: byte)
    requires k <= |area|
    ensures Scan(area, k + i, code) == var r := Scan(area[k..], i, code); if r == -1 then -1 else k + r
    decreases |area| - k - i
  {
    var tail := area[k..];
    if i + 1 < |tail| {
      assert tail[i] == area[k + i] && tail[i + 1] == area[k + i + 1];
      if i + tail[i + 1] + 2 <= |tail| && tail[i] != code {
        ScanShift(area, k, i + tail[i + 1] + 2, code);
      }
    }
  }

  /** Behind the options there is nothing but END and PAD. */
  lemma {:induction false} ScanZeros(area: seq<byte>, i: nat, code: byte)
    requires forall k :: i <= k < |area| ==> area[k] == 0
    requires code != PAD
    ensures Scan(area, i, code) == -1
    decreases |area| - i
  {
    if i + 1 < |area| {
      ScanZeros(area, i + 2, code);
    }
  }

  /** The main result on options: a scan of any options area finds each option written with exactly
      its payload, and no option that was not written. */
  lemma {:induction false} ScanFinds(opts: seq<Opt>, size: nat, code: byte)
    requires Sendable(opts) && |Encode(opts)| < size && code != PAD && code != END
    ensures Finds(Area(opts, size), Scan(Area(opts, size), 0, code), code, Lookup(opts, code))
    decreases |opts|
  {
    hide Scan, Area, Encode;
    if opts == [] {
      ScanNothing(size, code);
    } else {
      var area, o, n := Area(opts, size), opts[0], |Bytes1(opts[0])|;
      FirstOption(opts, size);
      ScanFirst(area, code);
      if o.code != code {
        ScanFinds(opts[1..], size - n, code);
        ScanShift(area, n, 0, code);
        hide Lookup, Finds;
        FindsShift(area, n, Scan(area[n..], 0, code), code, Lookup(opts[1..], code));
      }
    }
  }

  lemma ScanNothing(size: nat, code: byte)
    requires size > 0 && code != PAD && code != END
    ensures |Encode([])| == 0 && Scan(Area([], size), 0, code) == -1
  {
    var area := Area([], size);
    assert area[0] == END;
    if size > 1 {
      assert area[1] == 0;
      ScanZeros(area, 2, code);
    }
  }

  /** The first option is found, or passed over. */
  lemma ScanFirst(area: seq<byte>, code: byte)
    requires |area| >= 2 && 2 + area[1] <= |area|
    ensures Scan(area, 0, code) == if area[0] == code then 0 else Scan(area, 2 + (area[1] as int), code)
  {
  }

  lemma FirstOption(opts: seq<Opt>, size: nat)
    requires Sendable(opts) && opts != [] && |Encode(opts)| < size
    ensures var area, o, n := Area(opts, size), opts[0], |Bytes1(opts[0])|;
            && n <= size && Sendable(opts[1..]) && |Encode(opts[1..])| < size - n
            && area[0] == o.code && area[1] == |o.payload| && area[2..n] == o.payload
            && area[n..] == Area(opts[1..], size - n)
  {
    AreaSplit(opts, size);
    hide Area, Encode;
    Joined(Bytes1(opts[0]), Area(opts[1..], size - |Bytes1(opts[0])|));
  }

  lemma AreaSplit(opts: seq<Opt>, size: nat)
    requires Sendable(opts) && opts != [] && |Encode(opts)| < size
    ensures Sendable(opts[1..]) && |Bytes1(opts[0])| <= size && |Encode(opts[1..])| < size - |Bytes1(opts[0])|
    ensures Area(opts, size) == Bytes1(opts[0]) + Area(opts[1..], size - |Bytes1(opts[0])|)
  {
    hide Bytes1, Zeros;
    var first, rest := Bytes1(opts[0]), Encode(opts[1..]);
    assert Encode(opts) == first + rest;
    hide Encode;
    Regroup(first, rest, [END], Zeros(size - |first| - |rest| - 1));
  }

  lemma Regroup(a: seq<byte>, b: seq<byte>, c: seq<byte>, d: seq<byte>)
    ensures a + b + c + d == a + (b + c + d)
  {
  }

  lemma Joined(a: seq<byte>, b: seq<byte>)
    requires |a| >= 2
    ensures (a + b)[0] == a[0] && (a + b)[1] == a[1] && (a + b)[2..|a|] == a[2..] && (a + b)[|a|..] == b
  {
  }

  lemma FindsShift(area: seq<byte>, n: nat, r: int, code: byte, want: (bool, seq<byte>))
    requires n <= |area| && r >= -1 && Finds(area[n..], r, code, want)
    ensures Finds(area, if r == -1 then -1 else n + r, code, want)
  {
    if want.0 {
      assert area[n..][r + 2..r + 2 + |want.1|] == area[n + r + 2..n + r + 2 + |want.1|];
    }
  }

  // What a reply contains

  /** `hasDomain` is false when no domain name is configured. */
  datatype Config = Config(router: Ip, dns: Ip, hasDomain: bool, domain: seq<byte>, server: Ip, netmask: Ip)

  function Network32(n: nat): (r: seq<byte>)
    ensures |r| == 4
  {
    [n / 0x100_0000 % 256, n / 0x1_0000 % 256, n / 0x100 % 256, n % 256]
  }

  /** The options of a reply, in order. */
  function ReplyOptions(c: Config, msgType: byte, lease: nat): seq<Opt> {
    [Opt(MESSAGETYPE, [msgType]), Opt(SERVERID, c.server), Opt(LEASETIME, Network32(lease)), Opt(SUBNETMASK, c.netmask)]
    + (if c.router != NO_IP then [Opt(ROUTER, c.router)] else [])
    + (if c.hasDomain then [Opt(DNSDOMAIN, c.domain)] else [])
    + (if c.dns != NO_IP then [Opt(DNSSERVER, c.dns)] else [])
  }

  /** The configuration fits an options area. */
  predicate Fits(c: Config, size: nat) {
    && (c.hasDomain ==> |c.domain| < 256)
    && 22 + (if c.router != NO_IP then 6 else 0) + (if c.hasDomain then 2 + |c.domain| else 0)
          + (if c.dns != NO_IP then 6 else 0) <= size
  }

  /** What a client should find in a reply. */
  function Wanted(c: Config, msgType: byte, lease: nat, code: byte): (bool, seq<byte>) {
    if code == MESSAGETYPE then (true, [msgType])
    else if code == SERVERID then (true, c.server)
    else if code == LEASETIME then (true, Network32(lease))
    else if code == SUBNETMASK then (true, c.netmask)
    else if code == ROUTER && c.router != NO_IP then (true, c.router)
    else if code == DNSDOMAIN && c.hasDomain then (true, c.domain)
    else if code == DNSSERVER && c.dns != NO_IP then (true, c.dns)
    else (false, [])
  }

  lemma {:induction false} LookupAppend(a: seq<Opt>, b: seq<Opt>, code: byte)
    ensures Lookup(a + b, code) == if Lookup(a, code).0 then Lookup(a, code) else Lookup(b, code)
  {
    if a == [] {
      assert a + b == b;
    } else {
      assert (a + b)[1..] == a[1..] + b;
      LookupAppend(a[1..], b, code);
    }
  }

  lemma {:induction false} EncodeAppend(a: seq<Opt>, b: seq<Opt>)
    requires Sendable(a) && Sendable(b)
    ensures Sendable(a + b) && Encode(a + b) == Encode(a) + Encode(b)
  {
    if a == [] {
      assert a + b == b;
    } else {
      assert (a + b)[1..] == a[1..] + b;
      EncodeAppend(a[1..], b);
      assert Bytes1(a[0]) + (Encode(a[1..]) + Encode(b)) == Bytes1(a[0]) + Encode(a[1..]) + Encode(b);
    }
  }

  lemma LookupOne(o: Opt, code: byte)
    ensures Lookup([o], code) == if o.code == code then (true, o.payload) else (false, [])
  {
    assert [o][1..] == [];
  }

  lemma EncodeOne(o: Opt)
    requires |o.payload| < 256 && o.code != PAD && o.code != END
    ensures Sendable([o]) && Encode([o]) == Bytes1(o)
  {
    assert [o][1..] == [];
    assert Encode([o]) == Bytes1(o) + [];
  }

  function Basics(c: Config, msgType: byte, lease: nat): seq<Opt> {
    [Opt(MESSAGETYPE, [msgType]), Opt(SERVERID, c.server), Opt(LEASETIME, Network32(lease)), Opt(SUBNETMASK, c.netmask)]
  }

  function Extras(c: Config): seq<Opt> {
    (if c.router != NO_IP then [Opt(ROUTER, c.router)] else [])
    + (if c.hasDomain then [Opt(DNSDOMAIN, c.domain)] else [])
    + (if c.dns != NO_IP then [Opt(DNSSERVER, c.dns)] else [])
  }

  lemma LookupBasics(c: Config, msgType: byte, lease: nat, code: byte)
    ensures Lookup(Basics(c, msgType, lease), code)
            == if code in {MESSAGETYPE, SERVERID, LEASETIME, SUBNETMASK} then Wanted(c, msgType, lease, code) else (false, [])
  {
    hide Lookup;
    var b := Basics(c, msgType, lease);
    assert b == [b[0]] + [b[1]] + [b[2]] + [b[3]];
    LookupOne(b[0], code);
    LookupOne(b[1], code);
    LookupOne(b[2], code);
    LookupOne(b[3], code);
    LookupAppend([b[0]], [b[1]], code);
    LookupAppend([b[0]] + [b[1]], [b[2]], code);
    LookupAppend([b[0]] + [b[1]] + [b[2]], [b[3]], code);
  }

  lemma LookupExtras(c: Config, msgType: byte, lease: nat, code: byte)
    ensures Lookup(Extras(c), code)
            == if code in {ROUTER, DNSDOMAIN, DNSSERVER} then Wanted(c, msgType, lease, code) else (false, [])
  {
    var r := if c.router != NO_IP then [Opt(ROUTER, c.router)] else [];
    var d := if c.hasDomain then [Opt(DNSDOMAIN, c.domain)] else [];
    var n := if c.dns != NO_IP then [Opt(DNSSERVER, c.dns)] else [];
    LookupAppend(r + d, n, code);
    LookupAppend(r, d, code);
    LookupOne(Opt(ROUTER, c.router), code);
    LookupOne(Opt(DNSDOMAIN, c.domain), code);
    LookupOne(Opt(DNSSERVER, c.dns), code);
  }

  lemma LookupReply(c: Config, msgType: byte, lease: nat, code: byte)
    ensures Lookup(ReplyOptions(c, msgType, lease), code) == Wanted(c, msgType, lease, code)
  {
    hide Lookup;
    assert ReplyOptions(c, msgType, lease) == Basics(c, msgType, lease) + Extras(c);
    LookupAppend(Basics(c, msgType, lease), Extras(c), code);
    LookupBasics(c, msgType, lease, code);
    LookupExtras(c, msgType, lease, code);
  }

  lemma ReplySize(c: Config, msgType: byte, lease: nat)
    requires c.hasDomain ==> |c.domain| < 256
    ensures Sendable(ReplyOptions(c, msgType, lease))
    ensures |Encode(ReplyOptions(c, msgType, lease))|
            == 21 + (if c.router != NO_IP then 6 else 0) + (if c.hasDomain then 2 + |c.domain| else 0)
                  + (if c.dns != NO_IP then 6 else 0)
  {
    hide Encode, Bytes1;
    assert Encode([]) == [] by { EncodeNothing(); }
    var b := Basics(c, msgType, lease);
    var r := if c.router != NO_IP then [Opt(ROUTER, c.router)] else [];
    var d := if c.hasDomain then [Opt(DNSDOMAIN, c.domain)] else [];
    var n := if c.dns != NO_IP then [Opt(DNSSERVER, c.dns)] else [];
    BasicsSize(c, msgType, lease);
    EncodeOne(Opt(ROUTER, c.router));
    if c.hasDomain {
      EncodeOne(Opt(DNSDOMAIN, c.domain));
    }
    EncodeOne(Opt(DNSSERVER, c.dns));
    EncodeAppend(b, r);
    EncodeAppend(b + r, d);
    EncodeAppend(b + r + d, n);
  }

  lemma EncodeNothing()
    ensures Encode([]) == []
  {
  }

  lemma BasicsSize(c: Config, msgType: byte, lease: nat)
    ensures Sendable(Basics(c, msgType, lease)) && |Encode(Basics(c, msgType, lease))| == 21
  {
    hide Encode;
    var b := Basics(c, msgType, lease);
    assert b == [b[0]] + [b[1]] + [b[2]] + [b[3]];
    EncodeOne(b[0]);
    EncodeOne(b[1]);
    EncodeOne(b[2]);
    EncodeOne(b[3]);
    EncodeAppend([b[0]], [b[1]]);
    EncodeAppend([b[0]] + [b[1]], [b[2]]);
    EncodeAppend([b[0]] + [b[1]] + [b[2]], [b[3]]);
  }

  /** Every option of a reply is found with its payload, and none that was left out. */
  lemma ReplyReadBack(c: Config, msgType: byte, lease: nat, size: nat, code: byte)
    requires Fits(c, size) && code != PAD && code != END
    ensures Sendable(ReplyOptions(c, msgType, lease)) && |Encode(ReplyOptions(c, msgType, lease))| < size
    ensures var area := Area(ReplyOptions(c, msgType, lease), size);
            Finds(area, Scan(area, 0, code), code, Wanted(c, msgType, lease, code))
  {
    hide Lookup, Scan, Area, Encode, ReplyOptions, Finds, Wanted;
    ReplySize(c, msgType, lease);
    LookupReply(c, msgType, lease, code);
    ScanFinds(ReplyOptions(c, msgType, lease), size, code);
  }

  // Leases

  /** An entry of the lease table. The hardware address is a number, 0 for none. */
  datatype Lease = Lease(mac: nat, addr: Ip, lease: nat)

  predicate DistinctAddresses(t: seq<Lease>) {
    forall i, j :: 0 <= i < j < |t| ==> t[i].addr != t[j].addr
  }

  predicate OneLeaseEach(t: seq<Lease>) {
    forall i, j :: 0 <= i < j < |t| && t[i].mac == t[j].mac ==> t[i].mac == 0
  }

  /** The first entry of a hardware address, the table's length if there is none. */
  function ByMac(t: seq<Lease>, mac: nat): (i: nat)
    ensures i <= |t| && (i < |t| ==> t[i].mac == mac) && forall k :: 0 <= k < i ==> t[k].mac != mac
  {
    if t == [] || t[0].mac == mac then 0 else 1 + ByMac(t[1..], mac)
  }

  function ByIp(t: seq<Lease>, ip: Ip): (i: nat)
    ensures i <= |t| && (i < |t| ==> t[i].addr == ip) && forall k :: 0 <= k < i ==> t[k].addr != ip
  {
    if t == [] || t[0].addr == ip then 0 else 1 + ByIp(t[1..], ip)
  }

  /** The entry offered to a client: its own, else the first vacant one. */
  function Offered(t: seq<Lease>, mac: nat): nat {
    if ByMac(t, mac) < |t| then ByMac(t, mac) else ByMac(t, 0)
  }

  /** A request gives back the client's lease before anything else. */
  function Freed(t: seq<Lease>, mac: nat): (r: seq<Lease>)
    ensures |r| == |t|
    ensures forall i :: 0 <= i < |t| ==> r[i].addr == t[i].addr && r[i].lease == t[i].lease
    ensures forall i :: 0 <= i < |t| ==> r[i].mac == if i == ByMac(t, mac) then 0 else t[i].mac
  {
    var i := ByMac(t, mac);
    if i < |t| then t[i := t[i].(mac := 0)] else t
  }

  /** A request is granted if the address is in the table and, the client's own lease apart, vacant. */
  predicate Granted(t: seq<Lease>, mac: nat, ip: Ip) {
    var f, k := Freed(t, mac), ByIp(t, ip);
    k < |t| && f[k].mac == 0
  }

  /** The table after a request; `buffer` says whether there is memory for the reply. */
  function Requested(t: seq<Lease>, mac: nat, ip: Ip, buffer: bool): (r: seq<Lease>)
    ensures |r| == |t| && forall i :: 0 <= i < |t| ==> r[i].addr == t[i].addr && r[i].lease == t[i].lease
  {
    var f := Freed(t, mac);
    if Granted(t, mac, ip) && buffer then f[ByIp(t, ip) := f[ByIp(t, ip)].(mac := mac)] else f
  }

  /** No address held by another client. */
  predicate NotAnothers(t: seq<Lease>, mac: nat, ip: Ip) {
    forall i :: 0 <= i < |t| && t[i].addr == ip ==> t[i].mac == 0 || t[i].mac == mac
  }

  /** An offer never names an address held by another client. */
  lemma OfferSound(t: seq<Lease>, mac: nat)
    requires DistinctAddresses(t) && Offered(t, mac) < |t|
    ensures NotAnothers(t, mac, t[Offered(t, mac)].addr)
  {
    var k := Offered(t, mac);
    assert forall i :: 0 <= i < |t| && t[i].addr == t[k].addr ==> i == k;
  }

  /** A client's own lease is offered again, and no offer is made only when there is neither that
      nor a vacant one. */
  lemma OfferComplete(t: seq<Lease>, mac: nat)
    ensures Offered(t, mac) == |t| <==> forall i :: 0 <= i < |t| ==> t[i].mac != mac && t[i].mac != 0
    ensures forall i :: 0 <= i < |t| && t[i].mac == mac && mac != 0 && OneLeaseEach(t) ==> Offered(t, mac) == i
  {
    forall i | 0 <= i < |t| && t[i].mac == mac && mac != 0 && OneLeaseEach(t)
      ensures Offered(t, mac) == i
    {
      assert ByMac(t, mac) <= i;
    }
  }

  /** A request keeps leases apart. */
  lemma RequestKeeps(t: seq<Lease>, mac: nat, ip: Ip, buffer: bool)
    requires DistinctAddresses(t) && OneLeaseEach(t)
    ensures var r := Requested(t, mac, ip, buffer); DistinctAddresses(r) && OneLeaseEach(r)
  {
    FreedKeeps(t, mac);
    hide Freed;
  }

  lemma FreedKeeps(t: seq<Lease>, mac: nat)
    requires OneLeaseEach(t)
    ensures OneLeaseEach(Freed(t, mac))
    ensures mac != 0 ==> forall i :: 0 <= i < |t| ==> Freed(t, mac)[i].mac != mac
  {
  }

  /** It is granted exactly for an address in the table that nobody else holds. */
  lemma GrantedIff(t: seq<Lease>, mac: nat, ip: Ip)
    requires DistinctAddresses(t)
    ensures Granted(t, mac, ip) ==> NotAnothers(t, mac, ip)
    ensures OneLeaseEach(t) ==>
              (Granted(t, mac, ip) <==> NotAnothers(t, mac, ip) && exists i :: 0 <= i < |t| && t[i].addr == ip)
  {
    var k := ByIp(t, ip);
    assert forall i :: 0 <= i < |t| && t[i].addr == ip ==> i == k;
    if OneLeaseEach(t) && k < |t| && t[k].mac == mac != 0 {
      assert ByMac(t, mac) == k;
    }
  }

  /** Granted, the client holds that address and no other; refused, the client is left without any.
      Other clients' leases stay. A client without an address of its own, which is what a vacant entry
      looks like, changes nothing. */
  lemma RequestLeaves(t: seq<Lease>, mac: nat, ip: Ip, buffer: bool, i: nat)
    requires DistinctAddresses(t) && OneLeaseEach(t) && i < |t|
    ensures var r, won := Requested(t, mac, ip, buffer), Granted(t, mac, ip) && buffer && t[i].addr == ip;
            && (mac != 0 ==> (r[i].mac == mac <==> won))
            && (t[i].mac != mac && !won ==> r[i] == t[i])
            && (mac == 0 ==> r == t)
  {
    FreedKeeps(t, mac);
    if t[i].addr == ip {
      assert i == ByIp(t, ip);
    }
  }

  /** Renewing a lease leaves the table as it is, unless there is no memory for the reply: then the
      lease is lost. */
  lemma Renewal(t: seq<Lease>, mac: nat, k: nat, buffer: bool)
    requires DistinctAddresses(t) && OneLeaseEach(t) && k < |t| && t[k].mac == mac
    ensures Requested(t, mac, t[k].addr, buffer) == if buffer then t else t[k := t[k].(mac := 0)]
  {
    assert ByIp(t, t[k].addr) == k;
    assert mac != 0 ==> ByMac(t, mac) == k;
  }

  // Whole runs

  datatype Message = Discover(mac: nat) | Request(mac: nat, ip: Ip, buffer: bool)

  function After(t: seq<Lease>, m: Message): seq<Lease> {
    match m
    case Discover(_) => t
    case Request(mac, ip, buffer) => Requested(t, mac, ip, buffer)
  }

  function Run(t: seq<Lease>, ms: seq<Message>): seq<Lease>
    decreases |ms|
  {
    if ms == [] then t else Run(After(t, ms[0]), ms[1..])
  }

  /** Over any run no client holds two leases, and no offer or grant is for an address that another
      client holds at that moment. */
  lemma {:induction false} RunSound(t: seq<Lease>, ms: seq<Message>, k: nat)
    requires DistinctAddresses(t) && OneLeaseEach(t) && k <= |ms|
    ensures var now := Run(t, ms[..k]);
            && DistinctAddresses(now) && OneLeaseEach(now)
            && (k < |ms| && ms[k].Discover? && Offered(now, ms[k].mac) < |now| ==>
                  NotAnothers(now, ms[k].mac, now[Offered(now, ms[k].mac)].addr))
            && (k < |ms| && ms[k].Request? && Granted(now, ms[k].mac, ms[k].ip) ==>
                  NotAnothers(now, ms[k].mac, ms[k].ip))
    decreases k
  {
    hide DistinctAddresses, OneLeaseEach, NotAnothers, Offered, Granted, Requested;
    if k == 0 {
      assert ms[..0] == [];
      if |ms| > 0 {
        SoundAt(t, ms[0]);
      }
    } else {
      if ms[0].Request? {
        RequestKeeps(t, ms[0].mac, ms[0].ip, ms[0].buffer);
      }
      RunSound(After(t, ms[0]), ms[1..], k - 1);
      assert ms[..k][1..] == ms[1..][..k - 1];
    }
  }

  lemma SoundAt(t: seq<Lease>, m: Message)
    requires DistinctAddresses(t) && OneLeaseEach(t)
    ensures m.Discover? && Offered(t, m.mac) < |t| ==> NotAnothers(t, m.mac, t[Offered(t, m.mac)].addr)
    ensures m.Request? && Granted(t, m.mac, m.ip) ==> NotAnothers(t, m.mac, m.ip)
  {
    hide DistinctAddresses, OneLeaseEach, NotAnothers, Offered, Granted, Requested;
    if m.Discover? && Offered(t, m.mac) < |t| {
      OfferSound(t, m.mac);
    } else if m.Request? {
      GrantedIff(t, m.mac, m.ip);
    }
  }
}
