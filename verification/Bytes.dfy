/** Bytes, words and the little-endian layouts the firmware's packed structs use. */
module Bytes {

  type byte = b: int | 0 <= b < 256

  datatype Option<+T> = None | Some(value: T)

  /** True for MIDI data bytes and for every byte whose top bit is clear. */
  predicate IsData(b: byte) {
    b < 128
  }

  predicate AllData(s: seq<byte>) {
    forall i :: 0 <= i < |s| ==> IsData(s[i])
  }

  function Min(a: int, b: int): int {
    if a <= b then a else b
  }

  function Max(a: int, b: int): int {
    if a <= b then b else a
  }

  /** A little-endian 16-bit word. */
  function Word(lo: byte, hi: byte): nat {
    (lo as int) + 256 * (hi as int)
  }

  /** Bitwise OR of two naturals, bit by bit. */
  function BitOr(a: nat, b: nat): (r: nat)
    ensures r <= a + b && (a == 0 ==> r == b)
    decreases a + b
  {
    if a == 0 then b
    else if b == 0 then a
    else (if a % 2 == 1 || b % 2 == 1 then 1 else 0) + 2 * BitOr(a / 2, b / 2)
  }

  /** OR-ing low bits into a number leaves its high part. */
  lemma {:induction false} BitOrSplit(k: nat, n: nat, a: nat, b: nat)
    requires a < Pow2(n) && b < Pow2(n)
    ensures BitOr(k * Pow2(n) + a, b) == k * Pow2(n) + BitOr(a, b) && BitOr(a, b) < Pow2(n)
    decreases n
  {
    if n > 0 {
      var high := k * Pow2(n - 1);
      var x := k * Pow2(n) + a;
      assert k * Pow2(n) == 2 * high by { MulHalves(k, n); }
      assert x / 2 == high + a / 2 && x % 2 == a % 2;
      BitOrSplit(k, n - 1, a / 2, b / 2);
    }
  }

  lemma MulHalves(k: nat, n: nat)
    requires n > 0
    ensures k * Pow2(n) == 2 * (k * Pow2(n - 1))
  {
  }

  function Pow2(n: nat): (r: nat)
    ensures r > 0
  {
    if n == 0 then 1 else 2 * Pow2(n - 1)
  }

  /** Quotient and remainder are the only numbers that divide. */
  lemma ModUnique(v: int, d: int, q: int, r: int)
    requires d > 0 && v == d * q + r && 0 <= r < d
    ensures v % d == r && v / d == q
  {
    var q', r' := v / d, v % d;
    assert d * (q - q') == r' - r;
    assert q - q' >= 1 ==> d * (q - q') >= d;
    assert q - q' <= -1 ==> d * (q - q') <= -d;
  }
}
