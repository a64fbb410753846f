/** The emulated Wii remote: its queue of reports, a linked list, and reads of its memories. */
module Wiimote {
  import opened WiiMemory

  const EEPROM_LIMIT := 0x16FF
  const EEPROM_SIZE := 0x1700

  /** The memories of a remote, with the state of its motion plus and the count of polls. */
  datatype Memories = Memories(
    eeprom: seq<bv8>, speaker: seq<bv8>, extension: seq<bv8>, motionPlus: seq<bv8>, irCamera: seq<bv8>,
    state: nat, connected: bool, tries: nat)

  datatype Request = Eeprom(offset: nat, size: nat) | Register(offset: nat, size: nat)

  datatype Reply = Data(bytes: seq<bv8>) | Failed(error: nat)

  function Select(offset: nat): nat {
    offset / 0x1_0000 % 256 / 2 * 2
  }

  predicate IsExtension(offset: nat) {
    Select(offset) == 0xa4
  }

  /** The motion plus is not there, or is active at the extension's address. */
  predicate Refused(state: nat, connected: bool, offset: nat) {
    Select(offset) == 0xa6 && (!connected || state == 1)
  }

  /** A read of the extension's state while the motion plus is active. */
  predicate Polls(state: nat, offset: nat) {
    IsExtension(offset) && state == 1 && (offset % 256 == 0xf6 || offset % 256 == 0xf7)
  }

  class QueuedReport {
    var next: QueuedReport?
    var rpt: Report

    constructor ()
      ensures next == null && rpt == Other(0)
    {
      next, rpt := null, Other(0);
    }
  }

  /** The node behind another in a list. */
  function Successor(nodes: seq<QueuedReport>, i: nat): QueuedReport? {
    if i + 1 < |nodes| then nodes[i + 1] else null
  }

  /** Reports waiting to be sent. */
  class ReportQueue {
    var queue: QueuedReport?
    var queueEnd: QueuedReport?
    ghost var nodes: seq<QueuedReport>

    ghost predicate Valid()
      reads this, nodes
    {
      && (forall i, j :: 0 <= i < j < |nodes| ==> nodes[i] != nodes[j])
      && (forall i :: 0 <= i < |nodes| ==> nodes[i].next == Successor(nodes, i))
      && queue == (if nodes == [] then null else nodes[0])
      && queueEnd == (if nodes == [] then null else nodes[|nodes| - 1])
    }

    /** The reports, in the order they are sent. */
    ghost function Contents(): (s: seq<Report>)
      reads this, nodes
      ensures |s| == |nodes|
    {
      seq(|nodes|, i requires 0 <= i < |nodes| reads this, nodes => nodes[i].rpt)
    }

    constructor ()
      ensures Valid() && nodes == []
    {
      queue, queueEnd, nodes := null, null, [];
    }

    /** Appends an empty report, to be filled in by the caller. */
    method Push() returns (node: QueuedReport)
      requires Valid()
      modifies this, nodes
      ensures Valid() && nodes == old(nodes) + [node] && fresh(node)
      ensures Contents() == old(Contents()) + [Other(0)]
    {
      hide Successor;
      node := new QueuedReport();
      LastSuccessor(nodes);
      if queueEnd != null {
        queueEnd.next := node;
      } else {
        queue := node;
      }
      queueEnd := node;
      SuccessorMore(nodes, node);
      nodes := nodes + [node];
    }

    static lemma LastSuccessor(nodes: seq<QueuedReport>)
      ensures nodes != [] ==> Successor(nodes, |nodes| - 1) == null
    {
    }

    static lemma SuccessorMore(nodes: seq<QueuedReport>, node: QueuedReport)
      ensures forall i :: 0 <= i <= |nodes| ==>
                Successor(nodes + [node], i) ==
                  if i == |nodes| then null else if i + 1 == |nodes| then node else Successor(nodes, i)
    {
    }

    /** Fills in the report pushed last. */
    method Fill(node: QueuedReport, rpt: Report)
      requires Valid() && nodes != [] && node == nodes[|nodes| - 1]
      modifies node
      ensures Valid() && nodes == old(nodes)
      ensures Contents() == old(Contents())[..|nodes| - 1] + [rpt]
    {
      node.rpt := rpt;
    }

    method Peek() returns (r: QueuedReport?)
      requires Valid()
      ensures r == if nodes == [] then null else nodes[0]
      ensures nodes != [] ==> r.rpt == Contents()[0]
    {
      r := queue;
    }

    method Pop()
      requires Valid()
      modifies this
      ensures Valid()
      ensures Contents() == if old(nodes) == [] then [] else old(Contents())[1..]
      ensures nodes == if old(nodes) == [] then [] else old(nodes)[1..]
    {
      if queue == null {
        return;
      }
      var rpt := queue;
      if queueEnd == rpt {
        queueEnd := null;
      }
      queue := rpt.next;
      nodes := nodes[1..];
      assert forall i :: 0 <= i < |nodes| ==> Successor(nodes, i) == Successor(old(nodes), i + 1);
    }
  }

  class Remote {
    const reports: ReportQueue
    const eeprom: array<bv8>
    const speaker: array<bv8>
    const extension: array<bv8>
    const motionPlus: array<bv8>
    const irCamera: array<bv8>
    var motionPlusState: nat
    var motionPlusConnected: bool
    var encrypted: bool
    var crypto: Crypto
    var tries: nat

    ghost predicate Valid()
      reads this, reports, reports.nodes
    {
      && reports.Valid() && crypto.Keys? && WfCrypto(crypto) && eeprom.Length == EEPROM_SIZE
      && motionPlus.Length > 0xf7 && motionPlus !in {eeprom, speaker, extension, irCamera}
    }

    ghost function Value(): Memories
      reads this, eeprom, speaker, extension, motionPlus, irCamera
    {
      Memories(eeprom[..], speaker[..], extension[..], motionPlus[..], irCamera[..],
               motionPlusState, motionPlusConnected, tries)
    }

    constructor (e: array<bv8>, a2: array<bv8>, a4: array<bv8>, a6: array<bv8>, b0: array<bv8>, keys: Crypto)
      requires e.Length == EEPROM_SIZE && keys.Keys? && WfCrypto(keys)
      requires a6.Length > 0xf7 && a6 !in {e, a2, a4, b0}
      ensures Valid() && fresh(reports) && reports.nodes == [] && tries == 0 && !encrypted && crypto == keys
      ensures eeprom == e && speaker == a2 && extension == a4 && motionPlus == a6 && irCamera == b0
      ensures motionPlusState == 0 && !motionPlusConnected
    {
      reports := new ReportQueue();
      eeprom, speaker, extension, motionPlus, irCamera := e, a2, a4, a6, b0;
      motionPlusState, motionPlusConnected, encrypted, crypto, tries := 0, false, false, keys, 0;
    }

    /** Pushes a response that reports an error. */
    method PushError(error: nat, addr: nat)
      requires Valid()
      modifies reports, reports.nodes
      ensures Valid()
      ensures forall i :: 0 <= i < |reports.nodes| ==> reports.nodes[i] in old(reports.nodes) || fresh(reports.nodes[i])
      ensures reports.Contents() == old(reports.Contents()) + [MemResp(CHUNK - 1, error, addr % W16, Zeros(CHUNK))]
    {
      var node := reports.Push();
      reports.Fill(node, MemResp(CHUNK - 1, error, addr % W16, Zeros(CHUNK)));
    }

    /** Pushes the responses to a read, 16 bytes each. */
    method PushChunks(content: seq<bv8>, addr: nat, c: Crypto)
      requires Valid() && WfCrypto(c)
      modifies reports, reports.nodes
      ensures Valid()
      ensures forall i :: 0 <= i < |reports.nodes| ==> reports.nodes[i] in old(reports.nodes) || fresh(reports.nodes[i])
      ensures reports.Contents() == old(reports.Contents()) + Responses(c, content, addr)
    {
      hide Response, ReportQueue.Valid, ReportQueue.Contents;
      ghost var before := reports.Contents();
      ghost var all := Responses(c, content, addr);
      var n := Packets(|content|);
      assert before + all[..0] == before;
      for i := 0 to n
        invariant Valid()
        invariant forall i :: 0 <= i < |reports.nodes| ==> reports.nodes[i] in old(reports.nodes) || fresh(reports.nodes[i])
        invariant reports.Contents() == before + all[..i]
      {
        PushChunk(content, addr, c, i);
        assert all[..i + 1] == all[..i] + [all[i]];
      }
      assert all[..n] == all;
    }

    /** Pushes one of them. */
    method PushChunk(content: seq<bv8>, addr: nat, c: Crypto, i: nat)
      requires Valid() && WfCrypto(c) && i < Packets(|content|)
      modifies reports, reports.nodes
      ensures Valid()
      ensures forall i :: 0 <= i < |reports.nodes| ==> reports.nodes[i] in old(reports.nodes) || fresh(reports.nodes[i])
      ensures reports.Contents() == old(reports.Contents()) + [Responses(c, content, addr)[i]]
    {
      hide Response, ReportQueue.Valid, ReportQueue.Contents;
      ResponseIs(c, content, addr, i);
      var size := PacketSize(|content|, i);
      hide PacketSize, Packets;
      var node := reports.Push();
      var bytes := EncryptBytes(c, content[i * CHUNK..i * CHUNK + size], (addr + i * CHUNK) % W16 % 8);
      reports.Fill(node, MemResp(size - 1, 0, (addr + i * CHUNK) % W16, bytes + Zeros(CHUNK - size)));
    }

    /** Reads EEPROM. The last byte, at 0x16FF, is refused with everything behind it. */
    method ReadEeprom(offset: nat, size: nat)
      requires Valid() && size < W16
      modifies reports, reports.nodes
      ensures Valid()
      ensures forall i :: 0 <= i < |reports.nodes| ==> reports.nodes[i] in old(reports.nodes) || fresh(reports.nodes[i])
      ensures var o := offset % 0x1_0000;
              reports.Contents() == old(reports.Contents()) +
                if o + size <= 0x16FF then Responses(Plain, eeprom[o..o + size], o)
                else [MemResp(CHUNK - 1, 8, o, Zeros(CHUNK))]
    {
      hide ReportQueue.Valid, ReportQueue.Contents, Responses;
      var o := offset % W16;
      if o + size > EEPROM_LIMIT {
        PushError(8, o);
      } else {
        PushChunks(eeprom[o..o + size], o, Plain);
      }
    }

    /** The memory a register address selects; none for an unknown one. */
    function Selected(offset: nat): array?<bv8>
      reads this
    {
      var select := Select(offset);
      if select == 0xa2 then speaker
      else if select == 0xa4 then if motionPlusState == 1 then motionPlus else extension
      else if select == 0xa6 then motionPlus
      else if select == 0xb0 then irCamera
      else null
    }

    /** By the register's number: speaker, extension or motion plus in its place, motion plus, camera. */
    lemma SelectedIs(offset: nat)
      ensures var select := offset / 0x1_0000 % 256;
              Selected(offset) ==
                if select in {0xa2, 0xa3} then speaker
                else if select in {0xa4, 0xa5} && motionPlusState != 1 then extension
                else if select in {0xa4, 0xa5, 0xa6, 0xa7} then motionPlus
                else if select in {0xb0, 0xb1} then irCamera
                else null
    {
    }

    /** The fifth poll of an active motion plus makes it ready. */
    method CountTries(offset: nat)
      requires Polls(motionPlusState, offset) && motionPlus.Length > 0xf7
      modifies this`tries, motionPlus
      ensures tries == old(tries) + 1 && motionPlus[..] == Polled(old(motionPlus[..]), tries)
    {
      tries := tries + 1;
      if tries == 5 {
        motionPlus[0xf7] := 0x0e;
      }
    }

    /** What a read needs: a known register's range lies in its memory; an unknown register yields
        no data, for one response at most. */
    predicate Readable(offset: nat, size: nat)
      reads this
    {
      Refused(motionPlusState, motionPlusConnected, offset) ||
      if Selected(offset) == null then size <= CHUNK else offset % 256 + size <= Selected(offset).Length
    }

    /** Reads a register range. The fifth poll of an active motion plus changes its state byte before
        it is read; no other read changes anything but the queue and the count of polls. */
    method ReadRegister(offset: nat, size: nat)
      requires Valid() && size < W16 && Readable(offset, size)
      modifies this`tries, motionPlus, reports, reports.nodes
      ensures Valid()
      ensures forall i :: 0 <= i < |reports.nodes| ==> reports.nodes[i] in old(reports.nodes) || fresh(reports.nodes[i])
      ensures var select := offset / 0x1_0000 % 256 / 2;
              var polls := select == 0x52 && motionPlusState == 1 && offset % 256 in {0xf6, 0xf7};
              && tries == old(tries) + (if polls then 1 else 0)
              && motionPlus[..] == if polls && tries == 5 then old(motionPlus[..])[0xf7 := 0x0e] else old(motionPlus[..])
      ensures var select := offset / 0x1_0000 % 256 / 2;
              reports.Contents() == old(reports.Contents()) +
                if select == 0x53 && (!motionPlusConnected || motionPlusState == 1) then
                  [MemResp(15, 7, offset % 0x1_0000, Zeros(16))]
                else if Selected(offset) == null then Responses(Plain, Zeros(size), offset)
                else
                  Responses(if select == 0x52 && encrypted then crypto else Plain,
                            Selected(offset)[offset % 256..offset % 256 + size], offset)
    {
      hide ReportQueue.Valid, ReportQueue.Contents, Responses;
      if Refused(motionPlusState, motionPlusConnected, offset) {
        PushError(7, offset);
        return;
      }
      if Polls(motionPlusState, offset) {
        CountTries(offset);
      }
      var memory := Selected(offset);
      if memory == null {
        PushChunks(Zeros(size), offset, Plain);
      } else {
        PushChunks(memory[offset % 256..offset % 256 + size], offset, CipherFor(offset));
      }
    }

    function CipherFor(offset: nat): Crypto
      reads this
    {
      if IsExtension(offset) && encrypted then crypto else Plain
    }

    /** Takes the next report to send from the queue; none if it is empty. */
    method NextReport() returns (sent: bool, rpt: Report)
      requires Valid()
      modifies reports
      ensures Valid() && sent == (old(reports.Contents()) != [])
      ensures forall i :: 0 <= i < |reports.nodes| ==> reports.nodes[i] in old(reports.nodes)
      ensures sent ==> rpt == old(reports.Contents())[0] && reports.Contents() == old(reports.Contents())[1..]
      ensures !sent ==> reports.Contents() == []
    {
      var node := reports.Peek();
      if node == null {
        return false, Other(0);
      }
      sent, rpt := true, node.rpt;
      reports.Pop();
    }

    /** Sends the next `n` reports, in order. */
    method Drain(n: nat) returns (sent: seq<Report>)
      requires Valid() && n <= |reports.Contents()|
      modifies reports
      ensures Valid() && sent == old(reports.Contents())[..n] && reports.Contents() == old(reports.Contents())[n..]
      ensures forall i :: 0 <= i < |reports.nodes| ==> reports.nodes[i] in old(reports.nodes)
    {
      hide ReportQueue.Valid, ReportQueue.Contents;
      sent := [];
      ghost var all := reports.Contents();
      for i := 0 to n
        invariant Valid() && sent == all[..i] && reports.Contents() == all[i..]
        invariant forall i :: 0 <= i < |reports.nodes| ==> reports.nodes[i] in old(reports.nodes)
      {
        var some, rpt := NextReport();
        sent := sent + [rpt];
      }
    }
  }

  /** The motion plus after a poll: the fifth one makes it ready. */
  function Polled(memory: seq<bv8>, tries: nat): seq<bv8>
    requires |memory| > 0xf7
  {
    if tries == 5 then memory[0xf7 := 0x0e] else memory
  }

  function Zeros(n: nat): (r: seq<bv8>)
    ensures |r| == n
  {
    seq(n, _ => 0)
  }

  /** Encrypts a buffer in place from a phase of the tables on. */
  method EncryptBytes(c: Crypto, buffer: seq<bv8>, phase: nat) returns (r: seq<bv8>)
    requires WfCrypto(c)
    ensures r == Encrypt(c, buffer, phase)
    ensures c.Keys? ==> forall k :: 0 <= k < |buffer| ==>
              Enciphers(r[k], buffer[k], c.ft[(phase + k) % 8], c.sb[(phase + k) % 8])
  {
    hide EncryptAt, Enciphers;
    r := buffer;
    for i := 0 to |buffer|
      invariant |r| == |buffer|
      invariant forall k :: 0 <= k < |buffer| ==> r[k] == if k < i then EncryptByte(c, buffer[k], phase + k) else buffer[k]
    {
      r := r[i := EncryptAt(c, r[i], (i + phase) % 8)];
    }
    assert r == Encrypt(c, buffer, phase);
    forall k | c.Keys? && 0 <= k < |buffer|
      ensures Enciphers(r[k], buffer[k], c.ft[(phase + k) % 8], c.sb[(phase + k) % 8])
    {
      EncryptedIs(c, buffer, phase, k);
    }
  }

  lemma ResponseIs(c: Crypto, content: seq<bv8>, addr: nat, i: nat)
    requires WfCrypto(c) && i < Packets(|content|)
    ensures 0 < PacketSize(|content|, i) <= CHUNK && i * CHUNK + PacketSize(|content|, i) <= |content|
    ensures var size := PacketSize(|content|, i);
            Response(c, content, addr, i)
            == MemResp(size - 1, 0, (addr + i * CHUNK) % W16,
                       Encrypt(c, content[i * CHUNK..i * CHUNK + size], (addr + i * CHUNK) % W16 % 8) + Zeros(CHUNK - size))
  {
    Chunks(|content|, i);
  }

  // Sessions

  /** The memory that a register address selects, if any. */
  function MemoryOf(m: Memories, offset: nat): seq<bv8> {
    var select := Select(offset);
    if select == 0xa2 then m.speaker
    else if select == 0xa4 then if m.state == 1 then m.motionPlus else m.extension
    else if select == 0xa6 then m.motionPlus
    else if select == 0xb0 then m.irCamera
    else []
  }

  predicate Known(offset: nat) {
    Select(offset) in {0xa2, 0xa4, 0xa6, 0xb0}
  }

  predicate WfMemories(m: Memories) {
    |m.eeprom| == EEPROM_SIZE && |m.motionPlus| > 0xf7
  }

  /** A register's range lies in its memory; an unknown register is read in one response at most. */
  predicate Inside(m: Memories, q: Request) {
    && q.size < W16
    && (q.Register? && !Refused(m.state, m.connected, q.offset) ==>
          if Known(q.offset) then q.offset % 256 + q.size <= |MemoryOf(m, q.offset)| else q.size <= CHUNK)
  }

  /** A read changes the motion plus if it is the fifth poll. */
  function Next(m: Memories, q: Request): (m': Memories)
    requires WfMemories(m)
    ensures WfMemories(m') && (forall p :: Inside(m', p) == Inside(m, p))
  {
    if q.Register? && Polls(m.state, q.offset) then
      m.(tries := m.tries + 1, motionPlus := Polled(m.motionPlus, m.tries + 1))
    else m
  }

  /** What a host learns from a read of given memories. */
  function ReplyOf(m: Memories, q: Request): Reply
    requires WfMemories(m) && Inside(m, q)
  {
    if q.Eeprom? then
      var o := q.offset % W16;
      if o + q.size <= EEPROM_LIMIT then Data(m.eeprom[o..o + q.size]) else Failed(8)
    else if Refused(m.state, m.connected, q.offset) then Failed(7)
    else if !Known(q.offset) then Data(Zeros(q.size))
    else Data(MemoryOf(m, q.offset)[q.offset % 256..q.offset % 256 + q.size])
  }

  /** A host takes the responses to a read from the queue: an error, or all the data, decrypted. */
  method Hear(r: Remote, size: nat, c: Crypto, addr: nat, ghost reply: Reply) returns (heard: Reply)
    requires r.Valid() && WfCrypto(c)
    requires reply.Data? ==> |reply.bytes| == size && r.reports.Contents() == Responses(c, reply.bytes, addr)
    requires var rs := r.reports.Contents();
             reply.Failed? ==> |rs| == 1 && rs[0].MemResp? && rs[0].error == reply.error > 0
    modifies r.reports
    ensures r.Valid() && r.reports.Contents() == [] && heard == reply
    ensures forall i :: 0 <= i < |r.reports.nodes| ==> r.reports.nodes[i] in old(r.reports.nodes)
  {
    hide ReportQueue.Valid, ReportQueue.Contents, Carried, Decrypt, Response;
    ghost var all := r.reports.Contents();
    if reply.Data? {
      NoErrors(c, reply.bytes, addr);
    }
    var some, first := r.NextReport();
    if !some {
      return Data([]);
    }
    if first.MemResp? && first.error > 0 {
      return Failed(first.error);
    }
    var sent := r.Drain(Packets(size) - 1);
    ReadsBack(c, reply.bytes, addr);
    assert [first] + sent == all;
    return Data(Decrypt(c, Carried([first] + sent), addr));
  }

  /** What a host takes to be the cipher of a response: the keys it has set, for the extension's addresses, once
      it has set them. */
  function HostCipher(keys: Crypto, keysSet: bool, q: Request): Crypto {
    if q.Register? && keysSet && q.offset / 0x1_0000 % 256 in {0xa4, 0xa5} then keys else Plain
  }

  method HostReadRegister(r: Remote, q: Request, keys: Crypto, keysSet: bool) returns (reply: Reply)
    requires r.Valid() && r.reports.Contents() == [] && WfMemories(r.Value()) && Inside(r.Value(), q) && q.Register?
    requires WfCrypto(keys) && r.crypto == keys && r.encrypted == keysSet
    modifies r`tries, r.motionPlus, r.reports, r.reports.nodes
    ensures r.Valid() && r.reports.Contents() == []
    ensures r.Value() == Next(old(r.Value()), q)
    ensures reply == ReplyOf(Next(old(r.Value()), q), q)
  {
    hide ReportQueue.Valid, ReportQueue.Contents, Responses;
    r.ReadRegister(q.offset, q.size);
    reply := Hear(r, q.size, HostCipher(keys, keysSet, q), q.offset, ReplyOf(r.Value(), q));
  }

  /** A host reads EEPROM or registers with the keys that it knows, and learns what the memory holds or why it is
      refused. */
  method HostRead(r: Remote, q: Request, keys: Crypto, keysSet: bool) returns (reply: Reply)
    requires r.Valid() && r.reports.Contents() == [] && WfMemories(r.Value()) && Inside(r.Value(), q)
    requires WfCrypto(keys) && r.crypto == keys && r.encrypted == keysSet
    modifies r`tries, r.motionPlus, r.reports, r.reports.nodes
    ensures r.Valid() && r.reports.Contents() == []
    ensures r.Value() == Next(old(r.Value()), q)
    ensures reply == ReplyOf(Next(old(r.Value()), q), q)
  {
    hide ReportQueue.Valid, ReportQueue.Contents, Responses, Polled;
    match q
    case Eeprom(offset, size) =>
      r.ReadEeprom(offset, size);
      reply := Hear(r, size, HostCipher(keys, keysSet, q), offset % W16, ReplyOf(r.Value(), q));
    case Register(offset, size) =>
      reply := HostReadRegister(r, q, keys, keysSet);
  }

  lemma NoErrors(c: Crypto, content: seq<bv8>, addr: nat)
    requires WfCrypto(c)
    ensures forall i :: 0 <= i < Packets(|content|) ==>
              Responses(c, content, addr)[i].MemResp? && Responses(c, content, addr)[i].error == 0
  {
    hide PacketSize, Payload;
  }

  /** The memories after some reads. */
  function After(m: Memories, qs: seq<Request>): (m': Memories)
    requires WfMemories(m)
    ensures WfMemories(m') && (forall p :: Inside(m', p) == Inside(m, p))
  {
    if qs == [] then m else Next(After(m, qs[..|qs| - 1]), qs[|qs| - 1])
  }

  /** What a host learns from them. */
  function Replies(m: Memories, qs: seq<Request>): (r: seq<Reply>)
    requires WfMemories(m) && forall i :: 0 <= i < |qs| ==> Inside(m, qs[i])
    ensures |r| == |qs|
  {
    if qs == [] then []
    else
      var n := |qs| - 1;
      Replies(m, qs[..n]) + [ReplyOf(After(m, qs), qs[n])]
  }

  function CountPolls(state: nat, qs: seq<Request>): nat {
    if qs == [] then 0
    else
      var n := |qs| - 1;
      CountPolls(state, qs[..n]) + if qs[n].Register? && Polls(state, qs[n].offset) then 1 else 0
  }

  /** The memories once `n` more polls have been counted: reads change nothing but the state byte of
      the motion plus, and that with the fifth poll. */
  function Counted(m: Memories, n: nat): (m': Memories)
    requires WfMemories(m)
    ensures WfMemories(m') && (forall p :: Inside(m', p) == Inside(m, p))
  {
    m.(tries := m.tries + n,
       motionPlus := if m.tries < 5 <= m.tries + n then m.motionPlus[0xf7 := 0x0e] else m.motionPlus)
  }

  lemma {:induction false} AfterCounted(m: Memories, qs: seq<Request>)
    requires WfMemories(m)
    ensures After(m, qs) == Counted(m, CountPolls(m.state, qs))
  {
    if qs != [] {
      AfterCounted(m, qs[..|qs| - 1]);
    }
  }

  /** Every reply of a session is what the first memories hold, except that the motion plus shows that it
      is ready from the fifth poll on. */
  lemma {:induction false} RepliesAre(m: Memories, qs: seq<Request>, i: nat)
    requires WfMemories(m) && (forall i :: 0 <= i < |qs| ==> Inside(m, qs[i])) && i < |qs|
    ensures Replies(m, qs)[i] == ReplyOf(Counted(m, CountPolls(m.state, qs[..i + 1])), qs[i])
    decreases |qs|
  {
    hide ReplyOf, Counted, CountPolls, Inside;
    var n := |qs| - 1;
    if i < n {
      RepliesAre(m, qs[..n], i);
      assert qs[..n][..i + 1] == qs[..i + 1];
    } else {
      assert qs[..i + 1] == qs;
      AfterCounted(m, qs);
    }
  }

  lemma AfterNext(m: Memories, qs: seq<Request>, k: nat)
    requires WfMemories(m) && (forall i :: 0 <= i < |qs| ==> Inside(m, qs[i])) && k < |qs|
    ensures After(m, qs[..k + 1]) == Next(After(m, qs[..k]), qs[k])
    ensures Replies(m, qs[..k + 1]) == Replies(m, qs[..k]) + [ReplyOf(After(m, qs[..k + 1]), qs[k])]
  {
    hide ReplyOf, Next, Inside;
    assert qs[..k + 1][..k] == qs[..k];
  }

  /** A session with a new remote, its motion plus in any state, connected or not: the replies to any reads
      are those of the run, and its memories are left as the run says. */
  method Session(e: array<bv8>, a2: array<bv8>, a4: array<bv8>, a6: array<bv8>, b0: array<bv8>, keys: Crypto,
                 encrypted: bool, state: nat, connected: bool, qs: seq<Request>) returns (replies: seq<Reply>)
    requires e.Length == EEPROM_SIZE && keys.Keys? && WfCrypto(keys)
    requires a6.Length > 0xf7 && a6 !in {e, a2, a4, b0}
    requires var m := Memories(e[..], a2[..], a4[..], a6[..], b0[..], state, connected, 0);
             forall i :: 0 <= i < |qs| ==> Inside(m, qs[i])
    modifies a6
    ensures var m := Memories(old(e[..]), old(a2[..]), old(a4[..]), old(a6[..]), old(b0[..]), state, connected, 0);
            && (forall i :: 0 <= i < |qs| ==> Inside(m, qs[i]))
            && replies == Replies(m, qs) && a6[..] == After(m, qs).motionPlus
  {
    var r := new Remote(e, a2, a4, a6, b0, keys);
    r.encrypted, r.motionPlusState, r.motionPlusConnected := encrypted, state, connected;
    replies := [];
    ghost var m := r.Value();
    assert qs[..0] == [];
    hide ReportQueue.Valid, ReportQueue.Contents, Remote.Value, WfCrypto, WfMemories, Inside, Next, ReplyOf, Replies, After;
    assert After(m, []) == m && Replies(m, []) == [] by { NothingRead(m); }
    for k := 0 to |qs|
      invariant fresh(r) && fresh(r.reports) && r.Valid() && r.reports.Contents() == []
      invariant fresh(r.reports.nodes) && r.motionPlus == a6 && r.crypto == keys && r.encrypted == encrypted
      invariant WfMemories(m) && forall i :: 0 <= i < |qs| ==> Inside(m, qs[i])
      invariant r.Value() == After(m, qs[..k]) && replies == Replies(m, qs[..k])
    {
      AfterNext(m, qs, k);
      var reply := HostRead(r, qs[k], keys, encrypted);
      replies := replies + [reply];
    }
    assert qs[..|qs|] == qs;
    assert a6[..] == r.Value().motionPlus by { MotionPlusIs(r); }
  }

  lemma MotionPlusIs(r: Remote)
    ensures r.Value().motionPlus == r.motionPlus[..]
  {
  }

  lemma NothingRead(m: Memories)
    requires WfMemories(m)
    ensures After(m, []) == m && Replies(m, []) == []
  {
  }
}
