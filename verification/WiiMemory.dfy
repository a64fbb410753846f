/** Memory reads of the emulated Wii remote: responses of 16 bytes, and the extension's cipher. */
module WiiMemory {

  const CHUNK := 16
  const W16 := 0x1_0000

  /** A memory response, or any other report with its type. The size is sent less 1, the data has
      room for 16 bytes. */
  datatype Report = MemResp(sizeLess1: nat, error: nat, addr: nat, data: seq<bv8>) | Other(kind: nat)

  /** The extension's tables. */
  datatype Crypto = Plain | Keys(ft: seq<bv8>, sb: seq<bv8>)

  predicate WfCrypto(c: Crypto) {
    c.Keys? ==> |c.ft| == 8 && |c.sb| == 8
  }

  function Xor(a: bv8, b: bv8): bv8 {
    a ^ b
  }

  function Sub(a: bv8, b: bv8): bv8 {
    a - b
  }

  function Sum(a: bv8, b: bv8): bv8 {
    a + b
  }

  function Mix(x: bv8, ft: bv8, sb: bv8): bv8 {
    Xor(Sub(x, ft), sb)
  }

  function Unmix(x: bv8, ft: bv8, sb: bv8): bv8 {
    Sum(Xor(x, sb), ft)
  }

  /** The cipher: a byte less an entry of the first table, xor one of the second. */
  predicate Enciphers(y: bv8, x: bv8, ft: bv8, sb: bv8) {
    y == (x - ft) ^ sb
  }

  /** The cipher of a byte whose address has the remainder `j` modulo 8. */
  function EncryptAt(c: Crypto, x: bv8, j: nat): bv8
    requires WfCrypto(c) && j < 8
  {
    if c.Plain? then x else Mix(x, c.ft[j], c.sb[j])
  }

  function DecryptAt(c: Crypto, x: bv8, j: nat): bv8
    requires WfCrypto(c) && j < 8
  {
    if c.Plain? then x else Unmix(x, c.ft[j], c.sb[j])
  }

  function EncryptByte(c: Crypto, x: bv8, addr: nat): bv8
    requires WfCrypto(c)
  {
    EncryptAt(c, x, addr % 8)
  }

  function DecryptByte(c: Crypto, x: bv8, addr: nat): bv8
    requires WfCrypto(c)
  {
    DecryptAt(c, x, addr % 8)
  }

  lemma ByteRoundTrip(c: Crypto, x: bv8, addr: nat)
    requires WfCrypto(c)
    ensures DecryptByte(c, EncryptByte(c, x, addr), addr) == x
  {
    hide Mix, Unmix;
    if c.Keys? {
      Undone(x, c.ft[addr % 8], c.sb[addr % 8]);
    }
  }

  lemma Undone(x: bv8, ft: bv8, sb: bv8)
    ensures Unmix(Mix(x, ft, sb), ft, sb) == x
  {
    hide Xor, Sub, Sum;
    XorTwice(Sub(x, ft), sb);
    AddBack(x, ft);
  }

  lemma XorTwice(a: bv8, b: bv8)
    ensures Xor(Xor(a, b), b) == a
  {
  }

  lemma AddBack(a: bv8, b: bv8)
    ensures Sum(Sub(a, b), b) == a
  {
  }

  /** Every byte at its own address. */
  function Encrypt(c: Crypto, s: seq<bv8>, addr: nat): (r: seq<bv8>)
    requires WfCrypto(c)
    ensures |r| == |s|
  {
    seq(|s|, k requires 0 <= k < |s| => EncryptByte(c, s[k], addr + k))
  }

  function Decrypt(c: Crypto, s: seq<bv8>, addr: nat): (r: seq<bv8>)
    requires WfCrypto(c)
    ensures |r| == |s|
  {
    seq(|s|, k requires 0 <= k < |s| => DecryptByte(c, s[k], addr + k))
  }

  /** Less the entry of the first table, xor that of the second. */
  lemma EncryptedIs(c: Crypto, s: seq<bv8>, addr: nat, k: nat)
    requires WfCrypto(c) && k < |s|
    ensures var j, y := (addr + k) % 8, Encrypt(c, s, addr)[k];
            if c.Plain? then y == s[k] else Enciphers(y, s[k], c.ft[j], c.sb[j])
  {
  }

  lemma DecryptEncrypt(c: Crypto, s: seq<bv8>, addr: nat)
    requires WfCrypto(c)
    ensures Decrypt(c, Encrypt(c, s, addr), addr) == s
  {
    hide EncryptByte, DecryptByte;
    forall k | 0 <= k < |s|
      ensures Decrypt(c, Encrypt(c, s, addr), addr)[k] == s[k]
    {
      ByteRoundTrip(c, s[k], addr + k);
    }
  }

  /** Number of responses: the size in chunks, rounded up. */
  function Packets(size: nat): nat {
    (size + CHUNK - 1) / CHUNK
  }

  function PacketSize(size: nat, i: nat): nat
    requires i < Packets(size)
  {
    if i == Packets(size) - 1 then size - i * CHUNK else CHUNK
  }

  /** One response's data: the bytes, encrypted from the low bits of their address on, and zeros. */
  function Payload(c: Crypto, bytes: seq<bv8>, addr: nat): (r: seq<bv8>)
    requires WfCrypto(c) && |bytes| <= CHUNK
    ensures |r| == CHUNK
  {
    Encrypt(c, bytes, addr % W16 % 8) + seq(CHUNK - |bytes|, _ => 0)
  }

  function Response(c: Crypto, content: seq<bv8>, addr: nat, i: nat): Report
    requires WfCrypto(c) && i < Packets(|content|)
  {
    var bytes := content[i * CHUNK..i * CHUNK + PacketSize(|content|, i)];
    MemResp(PacketSize(|content|, i) - 1, 0, (addr + i * CHUNK) % W16, Payload(c, bytes, addr + i * CHUNK))
  }

  /** The responses to a read of some memory at an address. */
  function Responses(c: Crypto, content: seq<bv8>, addr: nat): (r: seq<Report>)
    requires WfCrypto(c)
    ensures |r| == Packets(|content|)
  {
    seq(Packets(|content|), i requires 0 <= i < Packets(|content|) => Response(c, content, addr, i))
  }

  /** The bytes that some responses carry. */
  function Carried(rs: seq<Report>): seq<bv8> {
    if rs == [] then []
    else
      var r := rs[|rs| - 1];
      Carried(rs[..|rs| - 1]) + if r.MemResp? && r.sizeLess1 < |r.data| then r.data[..r.sizeLess1 + 1] else []
  }

  /** Addresses only matter modulo 8 to the cipher, and chunks are multiples of that. */
  lemma SamePhase(c: Crypto, s: seq<bv8>, addr: nat)
    requires WfCrypto(c)
    ensures Encrypt(c, s, addr % W16 % 8) == Encrypt(c, s, addr)
  {
    hide EncryptByte;
    forall k | 0 <= k < |s|
      ensures EncryptByte(c, s[k], addr % W16 % 8 + k) == EncryptByte(c, s[k], addr + k)
    {
      PhaseOf(addr, k);
      SameByte(c, s[k], addr % W16 % 8 + k, addr + k);
    }
  }

  lemma PhaseOf(addr: nat, k: nat)
    ensures (addr % W16 % 8 + k) % 8 == (addr + k) % 8
  {
    var q, r := addr / W16, addr % W16;
    EightsApart(r % 8 + k, 8192 * q + r / 8);
  }

  lemma EightsApart(x: nat, m: nat)
    ensures (x + 8 * m) % 8 == x % 8
  {
  }

  lemma SameByte(c: Crypto, x: bv8, a: nat, b: nat)
    requires WfCrypto(c) && a % 8 == b % 8
    ensures EncryptByte(c, x, a) == EncryptByte(c, x, b)
  {
    hide EncryptAt;
  }

  lemma EncryptSlice(c: Crypto, s: seq<bv8>, addr: nat, from: nat, to: nat)
    requires WfCrypto(c) && from <= to <= |s|
    ensures Encrypt(c, s[from..to], addr + from) == Encrypt(c, s, addr)[from..to]
  {
    hide EncryptByte;
    forall k | 0 <= k < to - from
      ensures Encrypt(c, s[from..to], addr + from)[k] == Encrypt(c, s, addr)[from..to][k]
    {
      assert s[from..to][k] == s[from + k];
    }
  }

  /** What a chunk starts and ends with. */
  lemma Chunks(size: nat, i: nat)
    requires i < Packets(size)
    ensures 0 < PacketSize(size, i) <= CHUNK
    ensures i * CHUNK + PacketSize(size, i) == if i + 1 < Packets(size) then (i + 1) * CHUNK else size
    ensures i * CHUNK + PacketSize(size, i) <= size
  {
  }

  /** The main result: a read in chunks carries exactly the whole range, encrypted as a whole, so
      decrypting every byte at its own address gives the memory. */
  lemma ReadsBack(c: Crypto, content: seq<bv8>, addr: nat)
    requires WfCrypto(c)
    ensures Carried(Responses(c, content, addr)) == Encrypt(c, content, addr)
    ensures Decrypt(c, Carried(Responses(c, content, addr)), addr) == content
    ensures |Responses(c, content, addr)| == Packets(|content|)
    ensures Packets(|content|) * CHUNK >= |content| && (Packets(|content|) - 1) * CHUNK < |content|
  {
    var n := Packets(|content|);
    CarriedUpto(c, content, addr, n);
    var rs := Responses(c, content, addr);
    assert rs[..n] == rs;
    assert Encrypt(c, content, addr)[..|content|] == Encrypt(c, content, addr);
    DecryptEncrypt(c, content, addr);
  }

  function Reach(size: nat, i: nat): nat
    requires i <= Packets(size)
  {
    if i < Packets(size) then i * CHUNK else size
  }

  lemma {:induction false} CarriedUpto(c: Crypto, content: seq<bv8>, addr: nat, i: nat)
    requires WfCrypto(c) && i <= Packets(|content|)
    ensures Reach(|content|, i) <= |content|
    ensures Carried(Responses(c, content, addr)[..i]) == Encrypt(c, content, addr)[..Reach(|content|, i)]
    decreases i
  {
    hide Encrypt, Payload, Carried;
    var size, rs, all := |content|, Responses(c, content, addr), Encrypt(c, content, addr);
    if i == 0 {
      assert Carried([]) == [] by { NothingCarried(); }
    } else {
      CarriedUpto(c, content, addr, i - 1);
      Chunks(size, i - 1);
      var from, to := (i - 1) * CHUNK, Reach(size, i);
      ResponseCarries(c, content, addr, i - 1);
      CarriedMore(rs, i - 1);
      hide Response, PacketSize;
      assert all[..from] + all[from..to] == all[..to];
    }
  }

  lemma NothingCarried()
    ensures Carried([]) == []
  {
  }

  lemma CarriedMore(rs: seq<Report>, i: nat)
    requires i < |rs| && rs[i].MemResp? && rs[i].sizeLess1 < |rs[i].data|
    ensures Carried(rs[..i + 1]) == Carried(rs[..i]) + rs[i].data[..rs[i].sizeLess1 + 1]
  {
    assert rs[..i + 1][..i] == rs[..i];
  }

  lemma ResponseCarries(c: Crypto, content: seq<bv8>, addr: nat, i: nat)
    requires WfCrypto(c) && i < Packets(|content|)
    ensures var r := Response(c, content, addr, i);
            && r.sizeLess1 < |r.data|
            && i * CHUNK + PacketSize(|content|, i) <= |content|
            && r.data[..r.sizeLess1 + 1] == Encrypt(c, content, addr)[i * CHUNK..i * CHUNK + PacketSize(|content|, i)]
  {
    hide EncryptByte;
    Chunks(|content|, i);
    var from, to := i * CHUNK, i * CHUNK + PacketSize(|content|, i);
    EncryptSlice(c, content, addr, from, to);
    SamePhase(c, content[from..to], addr + from);
  }

  lemma ChunkPhase(addr: nat, i: nat, k: nat)
    ensures ((addr + i * CHUNK) % W16 % 8 + k) % 8 == (addr + k) % 8
  {
    PhaseOf(addr + i * CHUNK, k);
    EightsApart(addr + k, 2 * i);
  }

  lemma PayloadAt(c: Crypto, bytes: seq<bv8>, addr: nat, k: nat)
    requires WfCrypto(c) && |bytes| <= CHUNK && k < CHUNK
    ensures Payload(c, bytes, addr)[k] == if k < |bytes| then EncryptByte(c, bytes[k], addr % W16 % 8 + k) else 0
  {
    hide EncryptByte;
  }

  lemma ResponseShape(c: Crypto, content: seq<bv8>, addr: nat, i: nat)
    requires WfCrypto(c) && i < Packets(|content|)
    ensures var size := if 16 * i + 16 <= |content| then 16 else |content| - 16 * i;
            && 0 < size && 16 * i + size <= |content|
            && Responses(c, content, addr)[i]
               == MemResp(size - 1, 0, (addr + 16 * i) % 0x1_0000, Payload(c, content[16 * i..16 * i + size], addr + 16 * i))
  {
    hide Payload;
    Chunks(|content|, i);
  }

  lemma ResponseAt(c: Crypto, content: seq<bv8>, addr: nat, i: nat, k: nat)
    requires WfCrypto(c) && i < Packets(|content|) && k < 16
    ensures var r := Responses(c, content, addr)[i];
            && r.MemResp? && |r.data| == 16
            && r.data[k] == if 16 * i + k < |content| then EncryptByte(c, content[16 * i + k], addr + k) else 0
  {
    hide EncryptByte, Payload, Responses, Packets;
    var size := if 16 * i + 16 <= |content| then 16 else |content| - 16 * i;
    ResponseShape(c, content, addr, i);
    var bytes := content[16 * i..16 * i + size];
    PayloadAt(c, bytes, addr + 16 * i, k);
    if k < size {
      assert bytes[k] == content[16 * i + k];
      ChunkPhase(addr, i, k);
      SameByte(c, bytes[k], (addr + 16 * i) % W16 % 8 + k, addr + k);
    }
  }

  lemma ByteIs(c: Crypto, x: bv8, addr: nat)
    requires WfCrypto(c)
    ensures var y := EncryptByte(c, x, addr); if c.Plain? then y == x else Enciphers(y, x, c.ft[addr % 8], c.sb[addr % 8])
  {
  }

  function Min(a: int, b: int): int {
    if a <= b then a else b
  }

  /** A response, byte by byte: 16 bytes of the memory from 16 times its number on, or fewer and zeros. */
  lemma ResponseBytes(c: Crypto, content: seq<bv8>, addr: nat, i: nat, k: nat)
    requires WfCrypto(c) && i < Packets(|content|) && k < 16
    ensures var r := Responses(c, content, addr)[i];
            r.MemResp? && |r.data| == 16 && r.error == 0 && r.addr == (addr + 16 * i) % 0x1_0000
    ensures Responses(c, content, addr)[i].sizeLess1 == Min(16, |content| - 16 * i) - 1
    ensures 16 * i + k >= |content| ==> Responses(c, content, addr)[i].data[k] == 0
    ensures 16 * i + k < |content| ==>
              var j := (addr + k) % 8;
              var sent := Responses(c, content, addr)[i].data[k];
              if c.Plain? then sent == content[16 * i + k] else Enciphers(sent, content[16 * i + k], c.ft[j], c.sb[j])
  {
    hide EncryptByte, Payload, Responses, Packets, Enciphers;
    ResponseShape(c, content, addr, i);
    ResponseAt(c, content, addr, i, k);
    if 16 * i + k < |content| {
      ByteIs(c, content[16 * i + k], addr + k);
    }
  }
}
