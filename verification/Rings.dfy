/** The byte ring buffer of lib/ring_buffer_lib and the fixed-size records the BLE-MIDI
    codec stores in it. */
module Rings {
  import opened Bytes

  /** The `n` bytes of the storage `a` that start at index `out`, wrapping at the end. */
  function View(a: seq<byte>, out: nat, n: nat): (s: seq<byte>)
    requires out < |a| && n <= |a|
    ensures |s| == n
  {
    if out + n <= |a| then a[out..out + n] else a[out..] + a[..out + n - |a|]
  }

  /** The index `n` places behind `out`. */
  function Wrap(out: nat, n: nat, size: nat): (r: nat)
    requires out < size && n <= size
    ensures r < size
  {
    if out + n < size then out + n else out + n - size
  }

  lemma ViewPush(a: seq<byte>, out: nat, n: nat, v: byte)
    requires out < |a| && n < |a|
    ensures View(a[Wrap(out, n, |a|) := v], out, n + 1) == View(a, out, n) + [v]
  {
    var a' := a[Wrap(out, n, |a|) := v];
    forall k | 0 <= k < n + 1
      ensures View(a', out, n + 1)[k] == (View(a, out, n) + [v])[k]
    {
    }
  }

  lemma ViewPop(a: seq<byte>, out: nat, n: nat)
    requires out < |a| && 0 < n <= |a|
    ensures View(a, out, n) == [a[out]] + View(a, Wrap(out, 1, |a|), n - 1)
  {
    WrapNext(out, |a|);
    hide View, Wrap;
    if out + 1 == |a| {
      PopAtEnd(a, n);
    } else if out + n <= |a| {
      PopInside(a, out, n);
    } else {
      PopBeforeEnd(a, out, n);
    }
  }

  lemma SliceHead(a: seq<byte>, from: nat, to: nat)
    requires from < to <= |a|
    ensures a[from..to] == [a[from]] + a[from + 1..to]
  {
  }

  lemma WrapNext(out: nat, size: nat)
    requires out < size
    ensures Wrap(out, 1, size) == if out + 1 < size then out + 1 else 0
  {
  }

  /** The bytes do not reach over the end. */
  lemma PopInside(a: seq<byte>, out: nat, n: nat)
    requires out + 1 < |a| && 0 < n && out + n <= |a|
    ensures View(a, out, n) == [a[out]] + View(a, out + 1, n - 1)
  {
    SliceHead(a, out, out + n);
  }

  /** The byte taken is the storage's last one. */
  lemma PopAtEnd(a: seq<byte>, n: nat)
    requires 0 < n <= |a|
    ensures View(a, |a| - 1, n) == [a[|a| - 1]] + View(a, 0, n - 1)
  {
    SliceHead(a, |a| - 1, |a|);
    if n == 1 {
      assert a[|a| - 1..|a| - 1 + n] == a[|a| - 1..];
      assert a[..0] == [];
    } else {
      assert View(a, |a| - 1, n) == a[|a| - 1..] + a[..n - 1];
    }
  }

  /** The bytes reach over the end, but do not start there. */
  lemma PopBeforeEnd(a: seq<byte>, out: nat, n: nat)
    requires out + 1 < |a| && n <= |a| < out + n
    ensures View(a, out, n) == [a[out]] + View(a, out + 1, n - 1)
  {
    SliceHead(a, out, |a|);
    var wrapped := a[..out + n - |a|];
    assert a[out..] + wrapped == [a[out]] + (a[out + 1..] + wrapped);
  }

  /** The ring: `buf` is the storage, the three counters are the source's fields. */
  class RingBuffer {
    const buf: array<byte>
    var inIdx: nat
    var outIdx: nat
    var numBuffered: nat

    ghost predicate Valid()
      reads this, buf
    {
      && outIdx < buf.Length
      && numBuffered <= buf.Length
      && inIdx == Wrap(outIdx, numBuffered, buf.Length)
    }

    /** The buffered bytes, least recently pushed first. */
    ghost function Contents(): (s: seq<byte>)
      requires Valid()
      reads this, buf
      ensures |s| == numBuffered
    {
      View(buf[..], outIdx, numBuffered)
    }

    constructor (size: nat)
      requires size > 0
      ensures Valid() && fresh(this) && fresh(buf)
      ensures buf.Length == size && Contents() == []
    {
      buf := new byte[size](_ => 0);
      inIdx, outIdx, numBuffered := 0, 0, 0;
    }

    /** Pushes as many of `vals` as fit. */
    method Push(vals: seq<byte>) returns (npushed: nat)
      requires Valid()
      modifies this, buf
      ensures Valid()
      ensures npushed == Min(|vals|, buf.Length - |old(Contents())|)
      ensures Contents() == old(Contents()) + vals[..npushed]
    {
      hide Contents;
      npushed := 0;
      var idx := 0;
      while numBuffered < buf.Length && idx < |vals|
        invariant Valid()
        invariant npushed == idx <= |vals|
        invariant numBuffered == old(numBuffered) + npushed
        invariant Contents() == old(Contents()) + vals[..npushed]
      {
        PushByte(vals[idx]);
        npushed := npushed + 1;
        assert vals[..idx + 1] == vals[..idx] + [vals[idx]];
        idx := idx + 1;
      }
    }

    /** One turn of the push loop. */
    method PushByte(v: byte)
      requires Valid() && numBuffered < buf.Length
      modifies this, buf
      ensures Valid() && numBuffered == old(numBuffered) + 1
      ensures Contents() == old(Contents()) + [v]
    {
      ViewPush(buf[..], outIdx, numBuffered, v);
      ghost var after := buf[..][inIdx := v];
      buf[inIdx] := v;
      assert buf[..] == after;
      SuccessorWraps(outIdx, numBuffered, inIdx, buf.Length);
      inIdx := (inIdx + 1) % buf.Length;
      numBuffered := numBuffered + 1;
    }

    /** Removes up to `maxvals` bytes from the front. */
    method Pop(maxvals: nat) returns (vals: seq<byte>)
      requires Valid()
      modifies this
      ensures Valid()
      ensures |vals| == Min(maxvals, |old(Contents())|)
      ensures old(Contents()) == vals + Contents()
    {
      hide Contents;
      vals := [];
      while numBuffered > 0 && |vals| < maxvals
        invariant Valid()
        invariant |vals| <= maxvals
        invariant numBuffered + |vals| == old(numBuffered)
        invariant old(Contents()) == vals + Contents()
        decreases numBuffered
      {
        var v := PopByte();
        assert vals + ([v] + Contents()) == (vals + [v]) + Contents();
        vals := vals + [v];
      }
    }

    /** One turn of the pop loop. */
    method PopByte() returns (v: byte)
      requires Valid() && numBuffered > 0
      modifies this
      ensures Valid() && numBuffered == old(numBuffered) - 1
      ensures old(Contents()) == [v] + Contents()
    {
      ViewPop(buf[..], outIdx, numBuffered);
      v := buf[outIdx];
      SuccessorWraps(outIdx, 0, outIdx, buf.Length);
      outIdx := (outIdx + 1) % buf.Length;
      numBuffered := numBuffered - 1;
    }
  }

  /** The source's `% bufsize` moves an index one place on. */
  lemma SuccessorWraps(out: nat, n: nat, i: nat, size: nat)
    requires out < size && n < size && i == Wrap(out, n, size)
    ensures (i + 1) % size == Wrap(out, n + 1, size)
  {
    if i + 1 == size {
      assert (i + 1) % size == 0;
    } else {
      assert (i + 1) % size == i + 1;
    }
  }

  /** Cuts a byte string into consecutive records of `k` bytes. */
  ghost function Frames(s: seq<byte>, k: nat): (r: seq<seq<byte>>)
    requires k > 0
    decreases |s|
  {
    if |s| < k then [] else [s[..k]] + Frames(s[k..], k)
  }

  /** Only whole records are buffered. */
  ghost predicate WholeRecords(s: seq<byte>, k: nat)
    requires k > 0
  {
    |s| == Times(k, |Frames(s, k)|)
  }

  /** `n` records of `k` bytes. */
  function Times(k: nat, n: nat): nat {
    k * n
  }

  lemma TimesNext(k: nat, n: nat)
    ensures Times(k, 0) == 0 && Times(k, n + 1) == Times(k, n) + k
  {
  }

  lemma {:induction false} FramesAppend(s: seq<byte>, rec: seq<byte>, k: nat)
    requires k > 0 && WholeRecords(s, k) && |rec| == k
    ensures WholeRecords(s + rec, k)
    ensures Frames(s + rec, k) == Frames(s, k) + [rec]
    decreases |s|
  {
    hide Times;
    TimesNext(k, 0);
    TimesNext(k, |Frames(s, k)|);
    if |s| < k {
      assert Frames(s, k) == [];
      assert s + rec == rec;
      assert rec[k..] == [];
      assert rec[..k] == rec;
      assert Frames(rec, k) == [rec] + Frames([], k);
    } else {
      FramesTail(s, k);
      FramesAppend(s[k..], rec, k);
      assert (s + rec)[..k] == s[..k];
      assert (s + rec)[k..] == s[k..] + rec;
      assert Frames(s + rec, k) == [s[..k]] + (Frames(s[k..], k) + [rec]);
    }
  }

  lemma FramesTail(s: seq<byte>, k: nat)
    requires k > 0 && WholeRecords(s, k) && |s| >= k
    ensures Frames(s, k)[0] == s[..k]
    ensures WholeRecords(s[k..], k)
    ensures Frames(s[k..], k) == Frames(s, k)[1..]
  {
    hide Times;
    TimesNext(k, |Frames(s[k..], k)|);
  }

  /** Records never straddle the end of the capacity: below `cap` records there is room for one. */
  lemma {:induction false} RoomForRecord(n: nat, cap: nat, k: nat)
    requires k > 0 && n <= cap
    ensures n < cap ==> Times(k, n) + k <= Times(k, cap)
    decreases cap
  {
    hide Times;
    if n < cap {
      TimesNext(k, cap - 1);
      RoomForRecord(n, cap - 1, k);
    }
  }

  /** `ring` holds whole `k`-byte records only and its storage is a whole number of them. */
  ghost predicate RecordRing(ring: RingBuffer, k: nat, cap: nat)
    reads ring, ring.buf
  {
    && k > 0 && cap > 0
    && ring.Valid()
    && ring.buf.Length == Times(k, cap)
    && WholeRecords(ring.Contents(), k)
    && |Frames(ring.Contents(), k)| <= cap
  }

  /** Pushing one record is all-or-nothing. */
  method PushRecord(ring: RingBuffer, rec: seq<byte>, ghost k: nat, ghost cap: nat) returns (n: nat)
    requires RecordRing(ring, k, cap) && |rec| == k
    modifies ring, ring.buf
    ensures RecordRing(ring, k, cap)
    ensures |old(Frames(ring.Contents(), k))| < cap ==>
              n == k && Frames(ring.Contents(), k) == old(Frames(ring.Contents(), k)) + [rec]
    ensures |old(Frames(ring.Contents(), k))| == cap ==>
              n == 0 && ring.Contents() == old(ring.Contents())
  {
    hide Times;
    ghost var before := ring.Contents();
    RoomForRecord(|Frames(before, k)|, cap, k);
    n := ring.Push(rec);
    if n > 0 {
      assert rec[..n] == rec;
      FramesAppend(before, rec, k);
    } else {
      assert ring.Contents() == before;
    }
  }

  /** Popping from a non-empty ring returns the oldest record, intact. */
  method PopRecord(ring: RingBuffer, k: nat, ghost cap: nat) returns (rec: seq<byte>)
    requires RecordRing(ring, k, cap)
    modifies ring
    ensures RecordRing(ring, k, cap)
    ensures old(Frames(ring.Contents(), k)) == [] ==> rec == [] && Frames(ring.Contents(), k) == []
    ensures old(Frames(ring.Contents(), k)) != [] ==>
              |rec| == k && old(Frames(ring.Contents(), k)) == [rec] + Frames(ring.Contents(), k)
  {
    hide Times;
    ghost var before := ring.Contents();
    ghost var frames := Frames(before, k);
    TimesNext(k, 0);
    if frames != [] {
      TimesNext(k, |frames| - 1);
    }
    if |before| >= k {
      FramesTail(before, k);
    }
    rec := ring.Pop(k);
    if frames == [] {
      assert |before| == 0;
    } else {
      assert before[..k] == rec && before[k..] == ring.Contents();
    }
  }
}
