/** Reading the fields of a report: numbers in ranges of bits. */
module HidValues {
  import opened Bytes
  import opened HidSpec
  import opened HidLayout

  const WIDTH := 32

  function Digit(b: bool): nat {
    if b then 1 else 0
  }

  /** Bit `k` of a number. */
  predicate Bit(n: nat, k: nat) {
    n / Pow2(k) % 2 == 1
  }

  /** The bits of a report, from the lowest bit of its first byte. */
  function Bits(data: seq<byte>): (r: seq<bool>)
    ensures |r| == 8 * |data|
  {
    seq(8 * |data|, k requires 0 <= k < 8 * |data| => Bit(data[k / 8], k % 8))
  }

  /** The number whose binary digits these are, lowest first. */
  function Val(bits: seq<bool>): nat {
    if bits == [] then 0 else Digit(bits[0]) + 2 * Val(bits[1..])
  }

  /** The lowest `n` digits of a number. */
  function Digits(v: nat, n: nat): (r: seq<bool>)
    ensures |r| == n
  {
    if n == 0 then [] else [v % 2 == 1] + Digits(v / 2, n - 1)
  }

  lemma {:induction false} ValDigits(v: nat, n: nat)
    ensures Val(Digits(v, n)) == v % Pow2(n)
  {
    if n > 0 {
      ValDigits(v / 2, n - 1);
      assert Digits(v, n)[1..] == Digits(v / 2, n - 1);
      ModTwice(v, Pow2(n - 1));
    }
  }

  lemma ModTwice(v: nat, p: nat)
    requires p > 0
    ensures v % (2 * p) == v % 2 + 2 * (v / 2 % p)
  {
    var q, r := v / 2 / p, v / 2 % p;
    assert v / 2 == q * p + r;
    assert v == (2 * p) * q + (v % 2 + 2 * r);
    ModUnique(v, 2 * p, q, v % 2 + 2 * r);
  }

  /** One more digit at the top. */
  lemma {:induction false} ValSnoc(bits: seq<bool>, b: bool)
    ensures Val(bits + [b]) == Val(bits) + if b then Pow2(|bits|) else 0
  {
    if bits == [] {
      assert bits + [b] == [b];
      assert [b][1..] == [];
    } else {
      assert (bits + [b])[1..] == bits[1..] + [b];
      ValSnoc(bits[1..], b);
    }
  }

  lemma {:induction false} ValBound(bits: seq<bool>)
    ensures Val(bits) < Pow2(|bits|)
  {
    if bits != [] {
      ValBound(bits[1..]);
    }
  }

  lemma {:induction false} ValDrop(bits: seq<bool>, k: nat)
    requires k <= |bits|
    ensures Val(bits) / Pow2(k) == Val(bits[k..])
    decreases k
  {
    if k == 0 {
      assert bits[0..] == bits;
    } else {
      ValDrop(bits[1..], k - 1);
      assert bits[1..][k - 1..] == bits[k..];
      assert Val(bits) / 2 == Val(bits[1..]);
      DivDiv(Val(bits), 2, Pow2(k - 1));
    }
  }

  lemma DivDiv(v: nat, a: nat, b: nat)
    requires a > 0 && b > 0
    ensures a * b > 0 && v / (a * b) == v / a / b
  {
    var q, r := v / a, v % a;
    var q2, r2 := q / b, q % b;
    Nest(v, a, b, q, r, q2, r2);
    ModUnique(v, a * b, q2, a * r2 + r);
  }

  lemma Nest(v: nat, a: nat, b: nat, q: nat, r: nat, q2: nat, r2: nat)
    requires v == a * q + r && q == b * q2 + r2 && r < a && r2 < b
    ensures a * b > 0
    ensures v == (a * b) * q2 + (a * r2 + r) && 0 <= a * r2 + r < a * b
  {
    assert a * (b * q2 + r2) == (a * b) * q2 + a * r2;
    assert a * r2 <= a * (b - 1);
  }

  lemma {:induction false} ValTake(bits: seq<bool>, k: nat)
    requires k <= |bits|
    ensures Val(bits) % Pow2(k) == Val(bits[..k])
    decreases k
  {
    hide Pow2;
    Doubled(k);
    if k > 0 {
      ValTake(bits[1..], k - 1);
      assert bits[..k][1..] == bits[1..][..k - 1];
      ModTwice(Val(bits), Pow2(k - 1));
      Halves(Val(bits[1..]), bits[0]);
    }
  }

  lemma Doubled(k: nat)
    ensures if k == 0 then Pow2(k) == 1 else Pow2(k) == 2 * Pow2(k - 1)
  {
  }

  lemma Halves(v: nat, b: bool)
    ensures (Digit(b) + 2 * v) % 2 == Digit(b) && (Digit(b) + 2 * v) / 2 == v
  {
  }

  /** A report's bits make up its little-endian number. */
  lemma {:induction false} ValOfReport(data: seq<byte>)
    ensures Val(Bits(data)) == Number(data)
  {
    hide Digits, Bits, Val, Bit;
    if data == [] {
      assert Bits(data) == [];
      assert Val([]) == 0 by { ValBound([]); }
    } else {
      var bits := Bits(data);
      BitsSplit(data);
      assert bits[8..] == Bits(data[1..]);
      ValOfReport(data[1..]);
      ValDrop(bits, 8);
      ValTake(bits, 8);
      LowByte(data);
      assert Pow2(8) == 256;
    }
  }

  lemma LowByte(data: seq<byte>)
    requires data != []
    ensures Val(Bits(data)[..8]) == data[0]
  {
    hide Val, Bits, Digits, Bit;
    BitsSplit(data);
    assert Bits(data)[..8] == Digits(data[0], 8);
    ValDigits(data[0], 8);
    assert Pow2(8) == 256;
  }

  lemma BitsSplit(data: seq<byte>)
    requires data != []
    ensures Bits(data) == Digits(data[0], 8) + Bits(data[1..])
  {
    hide Bit, Digits;
    var low := Bits(data)[..8];
    ByteDigits(data[0], low);
    assert Bits(data) == low + Bits(data[1..]);
  }

  lemma ByteDigits(b: byte, bits: seq<bool>)
    requires |bits| == 8 && forall k :: 0 <= k < 8 ==> bits[k] == Bit(b, k)
    ensures bits == Digits(b, 8)
  {
    var digits := Digits(b, 8);
    forall k | 0 <= k < 8
      ensures bits[k] == digits[k]
    {
      DigitsAt(b, 8, k);
    }
  }

  lemma {:induction false} DigitsAt(v: nat, n: nat, k: nat)
    requires k < n
    ensures Digits(v, n)[k] == Bit(v, k)
    decreases k
  {
    if k > 0 {
      DigitsAt(v / 2, n - 1, k - 1);
      BitHalf(v, k);
      hide Bit;
    }
  }

  lemma BitHalf(v: nat, k: nat)
    requires k > 0
    ensures Bit(v, k) == Bit(v / 2, k - 1)
  {
    DivDiv(v, 2, Pow2(k - 1));
  }

  /** A field's range: what is read of it, at most 32 bits. */
  function Window(bits: seq<bool>, offset: nat, size: nat): seq<bool>
    requires offset + size <= |bits|
  {
    bits[offset..offset + Min(size, WIDTH)]
  }

  /** What a field stands for: the low digits of the report's little-endian number, shifted down
      to the field. */
  function FieldValue(data: seq<byte>, offset: nat, size: nat): nat {
    Number(data) / Pow2(offset) % Pow2(Min(size, WIDTH))
  }

  predicate TestBit(data: seq<byte>, bit: nat)
    requires bit < 8 * |data|
  {
    Bit(data[bit / 8], bit % 8)
  }

  /** The bits of a field as the quotient and remainder of the report's number. */
  lemma WindowOfNumber(data: seq<byte>, offset: nat, size: nat)
    requires offset + size <= 8 * |data|
    ensures Val(Window(Bits(data), offset, size)) == FieldValue(data, offset, size)
  {
    var bits, m := Bits(data), Min(size, WIDTH);
    ValOfReport(data);
    ValDrop(bits, offset);
    ValTake(bits[offset..], m);
    assert bits[offset..][..m] == Window(bits, offset, size);
  }

  /** The shift of a 32-bit word, and the increment of a 16-bit one. */
  function Shift32(mask: nat): nat {
    mask * 2 % W32
  }

  function Next16(bit: nat): nat {
    (bit + 1) % W16
  }

  lemma Next16Is(bit: nat)
    requires bit < W16
    ensures Next16(bit) == if bit + 1 == W16 then 0 else bit + 1
  {
  }

  /** A stored report item and the value it was last read with. */
  class ReportItem {
    const id: nat
    const offset: nat
    const size: nat
    var value: nat
    var previous: nat

    constructor (item: Item, value: nat, previous: nat)
      ensures id == item.id && offset == item.offset && size == item.attrs.bitSize
      ensures this.value == value && this.previous == previous
    {
      id, offset, size := item.id, item.offset, item.attrs.bitSize;
      this.value, this.previous := value, previous;
    }

    /** Reads the item's value from a report with its ID. */
    method Extract(reportId: nat, data: seq<byte>) returns (ok: bool)
      requires offset + size <= 8 * |data| && offset + size <= W16 && offset < W16
      modifies this
      ensures ok == (id == reportId)
      ensures !ok ==> value == old(value) && previous == old(previous)
      ensures ok ==> previous == old(value)
      ensures ok ==> value == FieldValue(data, offset, size)
    {
      if id != reportId {
        return false;
      }
      previous := value;
      value := 0;
      hide Low, Mask, TestBit, FieldValue, BitOr, Shift32, Next16;
      var rem, bit, mask := size, offset, 1;
      ghost var i: nat := 0;
      LoopStart(data, offset);
      while rem > 0
        invariant i + rem == size && bit == if offset + i == W16 then 0 else offset + i
        invariant previous == old(value)
        invariant mask == Mask(i) && value == Low(data, offset, i)
      {
        rem := rem - 1;
        LoopTurn(data, offset, i);
        Next16Is(bit);
        if TestBit(data, bit) {
          value := BitOr(mask, value);
        }
        bit, mask := Next16(bit), Shift32(mask);
        i := i + 1;
      }
      LoopEnd(data, offset, size);
      return true;
    }
  }

  /** The value collected after `i` turns of the loop, and its mask. */
  ghost function Low(data: seq<byte>, offset: nat, i: nat): nat
    requires offset + i <= 8 * |data|
  {
    Val(Window(Bits(data), offset, i))
  }

  ghost function Mask(i: nat): nat {
    if i < WIDTH then Pow2(i) else 0
  }

  lemma LoopStart(data: seq<byte>, offset: nat)
    requires offset <= 8 * |data|
    ensures Mask(0) == 1 && Low(data, offset, 0) == 0
  {
  }

  lemma LoopEnd(data: seq<byte>, offset: nat, size: nat)
    requires offset + size <= 8 * |data|
    ensures Low(data, offset, size) == FieldValue(data, offset, size)
  {
    WindowOfNumber(data, offset, size);
  }

  lemma BitAt(data: seq<byte>, k: nat)
    requires k < 8 * |data|
    ensures Bits(data)[k] == TestBit(data, k)
  {
  }

  lemma Shift(i: nat)
    ensures Mask(i + 1) == Shift32(Mask(i))
  {
    if i < WIDTH {
      Pow2Fits(i);
    }
  }

  lemma OneBit(i: nat, low: nat)
    requires low < Pow2(i)
    ensures BitOr(Pow2(i), low) == low + Pow2(i)
  {
    BitOrSplit(1, i, 0, low);
  }

  /** The next bit goes above those collected, until the mask is used up. */
  lemma LoopTurn(data: seq<byte>, offset: nat, i: nat)
    requires offset + i < 8 * |data|
    ensures Low(data, offset, i + 1)
            == if TestBit(data, offset + i) then BitOr(Mask(i), Low(data, offset, i))
               else Low(data, offset, i)
    ensures Mask(i + 1) == Shift32(Mask(i))
  {
    hide Bit, Val, Pow2, Shift32, TestBit, BitOr;
    var bits := Bits(data);
    BitAt(data, offset + i);
    Shift(i);
    if i < WIDTH {
      var low := bits[offset..offset + i];
      assert bits[offset..offset + i + 1] == low + [bits[offset + i]];
      ValSnoc(low, bits[offset + i]);
      ValBound(low);
      OneBit(i, Val(low));
    }
  }

  lemma {:induction false} Pow2Fits(i: nat)
    requires i < WIDTH
    ensures Pow2(i + 1) == 2 * Pow2(i)
    ensures if i + 1 < WIDTH then Pow2(i + 1) < W32 else Pow2(i + 1) == W32
  {
    Pow2Monotone(i + 1, WIDTH);
    Pow2Width();
  }

  lemma Pow2Width()
    ensures Pow2(WIDTH) == W32
  {
    assert Pow2(8) == W8;
    Pow2Sum(8, 8);
    Pow2Sum(16, 16);
  }

  lemma {:induction false} Pow2Monotone(a: nat, b: nat)
    requires a <= b
    ensures Pow2(a) <= Pow2(b) && (a < b ==> Pow2(a) < Pow2(b))
    decreases b - a
  {
    if a < b {
      Pow2Monotone(a, b - 1);
    }
  }

  lemma {:induction false} Pow2Sum(a: nat, b: nat)
    ensures Pow2(a + b) == Pow2(a) * Pow2(b)
    decreases b
  {
    if b > 0 {
      Pow2Sum(a, b - 1);
    }
  }

  // Writing every field of a report and reading all of them back

  /** The bytes of a bit string. */
  function Pack(bits: seq<bool>): (data: seq<byte>)
    requires |bits| % 8 == 0
    ensures 8 * |data| == |bits|
  {
    if bits == [] then [] else
      ValBound(bits[..8]);
      assert Pow2(8) == 256;
      [Val(bits[..8])] + Pack(bits[8..])
  }

  lemma {:induction false} BitsOfPacked(bits: seq<bool>)
    requires |bits| % 8 == 0
    ensures Bits(Pack(bits)) == bits
  {
    hide Bits, Bit, Val, Digits;
    if bits == [] {
      assert Bits(Pack(bits)) == [];
    } else {
      var data := Pack(bits);
      BitsOfPacked(bits[8..]);
      assert data[1..] == Pack(bits[8..]);
      BitsSplit(data);
      DigitsVal(bits[..8]);
      assert bits == bits[..8] + bits[8..];
    }
  }

  lemma {:induction false} DigitsVal(bits: seq<bool>)
    ensures Digits(Val(bits), |bits|) == bits
  {
    if bits != [] {
      DigitsVal(bits[1..]);
    }
  }

  /** A field of a report is given a value. */
  function Write(bits: seq<bool>, offset: nat, size: nat, v: nat): (r: seq<bool>)
    requires offset + size <= |bits|
    ensures |r| == |bits|
  {
    bits[..offset] + Digits(v, size) + bits[offset + size..]
  }

  lemma WriteBehind(bits: seq<bool>, offset: nat, size: nat, v: nat, lo: nat, hi: nat)
    requires offset + size <= |bits| && lo <= hi <= offset
    ensures Write(bits, offset, size, v)[lo..hi] == bits[lo..hi]
  {
    assert Write(bits, offset, size, v)[..offset] == bits[..offset];
    assert Write(bits, offset, size, v)[lo..hi] == Write(bits, offset, size, v)[..offset][lo..hi];
  }

  lemma WriteThere(bits: seq<bool>, offset: nat, size: nat, v: nat)
    requires offset + size <= |bits|
    ensures Write(bits, offset, size, v)[offset..offset + size] == Digits(v, size)
  {
  }

  /** Every item of one report is given a value. */
  function WriteAll(bits: seq<bool>, items: seq<Item>, values: seq<nat>, id: nat): (r: seq<bool>)
    requires |values| == |items|
    requires forall k :: 0 <= k < |items| && items[k].id == id ==> items[k].offset + items[k].attrs.bitSize <= |bits|
    ensures |r| == |bits|
  {
    if items == [] then bits
    else
      var n := |items| - 1;
      var before := WriteAll(bits, items[..n], values[..n], id);
      if items[n].id == id then Write(before, items[n].offset, items[n].attrs.bitSize, values[n]) else before
  }

  ghost predicate InOrder(items: seq<Item>, id: nat) {
    forall k, l :: 0 <= k < l < |items| && items[k].id == id && items[l].id == id ==>
      items[k].offset + items[k].attrs.bitSize <= items[l].offset
  }

  lemma {:induction false} WrittenItem(bits: seq<bool>, items: seq<Item>, values: seq<nat>, id: nat, k: nat)
    requires |values| == |items| && InOrder(items, id) && k < |items| && items[k].id == id
    requires forall l :: 0 <= l < |items| && items[l].id == id ==> items[l].offset + items[l].attrs.bitSize <= |bits|
    ensures var i := items[k];
            WriteAll(bits, items, values, id)[i.offset..i.offset + i.attrs.bitSize] == Digits(values[k], i.attrs.bitSize)
  {
    var n := |items| - 1;
    var lo, hi := items[k].offset, items[k].offset + items[k].attrs.bitSize;
    if k == n {
      WriteThere(WriteAll(bits, items[..n], values[..n], id), lo, items[k].attrs.bitSize, values[k]);
    } else {
      WrittenItem(bits, items[..n], values[..n], id, k);
      var before := WriteAll(bits, items[..n], values[..n], id);
      if items[n].id == id {
        WriteBehind(before, items[n].offset, items[n].attrs.bitSize, values[n], lo, hi);
      }
    }
  }

  /** Values written to the items of one report are read back, but for what is above 32 bits. */
  lemma ReadBack(bits: seq<bool>, items: seq<Item>, values: seq<nat>, id: nat, k: nat)
    requires |bits| % 8 == 0
    requires |values| == |items| && InOrder(items, id) && k < |items| && items[k].id == id
    requires forall l :: 0 <= l < |items| && items[l].id == id ==> items[l].offset + items[l].attrs.bitSize <= |bits|
    ensures var size := items[k].attrs.bitSize;
            FieldValue(Pack(WriteAll(bits, items, values, id)), items[k].offset, size)
            == values[k] % Pow2(Min(size, WIDTH))
  {
    hide Pow2, Val, Digits, FieldValue, Pack, Bits, WriteAll;
    WrittenItem(bits, items, values, id, k);
    ReadOne(WriteAll(bits, items, values, id), items[k].offset, items[k].attrs.bitSize, values[k]);
  }

  /** A value whose digits are at some place is read from there. */
  lemma ReadOne(all: seq<bool>, offset: nat, size: nat, value: nat)
    requires |all| % 8 == 0 && offset + size <= |all| && all[offset..offset + size] == Digits(value, size)
    ensures FieldValue(Pack(all), offset, size) == value % Pow2(Min(size, WIDTH))
  {
    hide Pow2, Val, Digits, FieldValue, Pack, Bits;
    BitsOfPacked(all);
    WindowOfNumber(Pack(all), offset, size);
    WindowIs(all, offset, size);
    hide Window, Min;
    DigitsTake(value, size, Min(size, WIDTH));
    ValDigits(value, Min(size, WIDTH));
  }

  lemma WindowIs(bits: seq<bool>, offset: nat, size: nat)
    requires offset + size <= |bits|
    ensures 0 <= Min(size, WIDTH) <= size
    ensures Window(bits, offset, size) == bits[offset..offset + size][..Min(size, WIDTH)]
  {
  }

  lemma {:induction false} DigitsTake(v: nat, n: nat, m: nat)
    requires m <= n
    ensures Digits(v, n)[..m] == Digits(v, m)
    decreases m
  {
    if m > 0 {
      DigitsTake(v / 2, n - 1, m - 1);
    }
  }

  /** The main result on values. Take a descriptor as in `OwnedIffAligned`, any report long enough for
      it, and a value that fits for every item of up to 32 bits. Writing all values to the items
      of one report and reading each item gives exactly the values written. */
  lemma ParsedValuesReadBack(lim: Limits, d: seq<byte>, report: seq<bool>, values: seq<nat>, id: nat, k: nat)
    requires WellFormed(d) && Parse(lim, d).Ok? && AlignedRun(lim, START, d) && NoWrap(Parse(lim, d).s)
    requires |report| % 8 == 0 && |report| >= Parse(lim, d).s.found.largest
    requires |values| == |Parse(lim, d).s.found.items|
    requires var items := Parse(lim, d).s.found.items;
             k < |items| && items[k].id == id && items[k].attrs.bitSize <= WIDTH && values[k] < Pow2(items[k].attrs.bitSize)
    ensures var items := Parse(lim, d).s.found.items;
            && (forall l :: 0 <= l < |items| ==> items[l].offset + items[l].attrs.bitSize <= |report|)
            && FieldValue(Pack(WriteAll(report, items, values, id)), items[k].offset, items[k].attrs.bitSize) == values[k]
  {
    hide Pow2, FieldValue, Pack, WriteAll, Parse, AlignedRun, NoWrap;
    ParsedLayout(lim, d);
    var s := Parse(lim, d).s;
    var items := s.found.items;
    forall l | 0 <= l < |items|
      ensures items[l].offset + items[l].attrs.bitSize <= |report|
    {
      assert Inside(s, items[l]);
    }
    assert InOrder(items, id) by {
      forall a, b | 0 <= a < b < |items| && items[a].id == id && items[b].id == id
        ensures items[a].offset + items[a].attrs.bitSize <= items[b].offset
      {
        assert Apart(s, a, b);
      }
    }
    ReadBack(report, items, values, id, k);
    SmallMod(values[k], Pow2(items[k].attrs.bitSize));
  }

  lemma SmallMod(v: nat, d: nat)
    requires v < d
    ensures v % d == v
  {
  }
}
