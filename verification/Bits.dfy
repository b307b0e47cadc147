/** Bits of byte strings, numbered from the most significant bit of the first byte,
    and the numbers that runs of them stand for. */
module Bits {
  function Mask(k: nat): bv8
    requires k < 8
  {
    (1 as bv8) << k
  }

  predicate BitOf(b: bv8, k: nat)
    requires k < 8
  {
    b & Mask(k) != 0
  }

  /** Bit `i` of the string; beyond its end all bits are zero. */
  predicate Bit(s: seq<bv8>, i: nat) {
    i / 8 < |s| && BitOf(s[i / 8], 7 - i % 8)
  }

  function Num(b: bool): nat { if b then 1 else 0 }

  function Pow2(n: nat): (r: nat)
    ensures r > 0
  {
    if n == 0 then 1 else 2 * Pow2(n - 1)
  }

  /** Bit `k` of an unsigned number. */
  predicate TestBit(v: nat, k: nat) {
    if k == 0 then v % 2 == 1 else TestBit(v / 2, k - 1)
  }

  /** The number written in the `n` bits from `off` on. */
  function Field(s: seq<bv8>, off: nat, n: nat): nat {
    if n == 0 then 0 else 2 * Field(s, off, n - 1) + Num(Bit(s, off + n - 1))
  }

  /** Bit 0 is the most significant bit of the first byte: the five bits from offset 7
      of 00000001 01110000 are 23. */
  lemma BitOrder()
    ensures Bit([128], 0) && !Bit([128], 7) && Bit([0, 1], 15) && !Bit([0, 1], 8)
    ensures Field([1, 0x70], 7, 5) == 23
  {
    var s: seq<bv8> := [1, 0x70];
    assert Bit(s, 7) && !Bit(s, 8) && Bit(s, 9) && Bit(s, 10) && Bit(s, 11);
    assert Field(s, 7, 2) == 2 && Field(s, 7, 4) == 11;
  }

  // ---------------------------------------------------------------- bytes

  lemma MaskIs(k: nat)
    requires k < 8
    ensures Mask(k) == if k == 0 then 1 else if k == 1 then 2 else if k == 2 then 4 else if k == 3 then 8
                       else if k == 4 then 16 else if k == 5 then 32 else if k == 6 then 64 else 128
  {
  }

  /** The byte with bit `k` set to `v`. */
  function WithBit(b: bv8, k: nat, v: bool): bv8
    requires k < 8
  {
    (b & !Mask(k)) | (if v then Mask(k) else 0)
  }

  lemma WithBitAt(b: bv8, k: nat, v: bool, i: nat)
    requires k < 8 && i < 8
    ensures BitOf(WithBit(b, k, v), i) == if i == k then v else BitOf(b, i)
  {
    hide Mask;
    MaskIs(k);
    MaskIs(i);
  }

  lemma UpdateAt(s: seq<bv8>, pos: nat, v: bool, i: nat)
    requires pos / 8 < |s|
    ensures Bit(s[pos / 8 := WithBit(s[pos / 8], 7 - pos % 8, v)], i) == if i == pos then v else Bit(s, i)
  {
    hide Mask, WithBit;
    if i / 8 == pos / 8 {
      WithBitAt(s[pos / 8], 7 - pos % 8, v, 7 - i % 8);
    }
  }

  lemma BitInByte(s: seq<bv8>, n: nat, k: nat)
    requires n < |s| && k < 8
    ensures Bit(s, 8 * n + k) == BitOf(s[n], 7 - k)
  {
    hide BitOf;
    assert (8 * n + k) / 8 == n && (8 * n + k) % 8 == k;
  }

  /** Eight bytes as a little-endian word. */
  function Load64(a: bv8, b: bv8, c: bv8, d: bv8, e: bv8, f: bv8, g: bv8, h: bv8): bv64 {
    (a as bv64) | ((b as bv64) << 8) | ((c as bv64) << 16) | ((d as bv64) << 24) |
    ((e as bv64) << 32) | ((f as bv64) << 40) | ((g as bv64) << 48) | ((h as bv64) << 56)
  }

  function Word64At(s: seq<bv8>, i: nat): bv64
    requires i + 8 <= |s|
  {
    Load64(s[i], s[i + 1], s[i + 2], s[i + 3], s[i + 4], s[i + 5], s[i + 6], s[i + 7])
  }

  // ---------------------------------------------------------------- numbers

  lemma {:induction false} Apart(p: nat, a: nat, b: nat)
    ensures a < b ==> a * p + p <= b * p
    decreases b
  {
    if a < b {
      assert b * p == (b - 1) * p + p;
      Apart(p, a, b - 1);
    }
  }

  lemma DivIs(v: nat, p: nat, q: nat, r: nat)
    requires p > 0 && v == q * p + r && r < p
    ensures v / p == q && v % p == r
  {
    var d := v / p;
    assert v == d * p + v % p;
    Apart(p, d, q);
    Apart(p, q, d);
  }

  lemma ModHalf(v: nat, p: nat)
    requires p > 0
    ensures v % (2 * p) == 2 * ((v / 2) % p) + v % 2
  {
    var h := v / 2;
    var q, r := h / p, h % p;
    assert h == q * p + r;
    assert q * (2 * p) == 2 * (q * p);
    DivIs(v, 2 * p, q, 2 * r + v % 2);
  }

  lemma {:induction false} FieldBound(s: seq<bv8>, off: nat, n: nat)
    ensures Field(s, off, n) < Pow2(n)
  {
    if n > 0 {
      FieldBound(s, off, n - 1);
    }
  }

  /** The `n` bits from `off` on are the low bits of `v`. */
  predicate Holds(s: seq<bv8>, off: nat, n: nat, v: nat) {
    forall i :: off <= i < off + n ==> Bit(s, i) == TestBit(v, off + n - 1 - i)
  }

  /** Then they stand for `v` modulo their width. */
  lemma {:induction false} FieldIs(s: seq<bv8>, off: nat, n: nat, v: nat)
    requires Holds(s, off, n, v)
    ensures Field(s, off, n) == v % Pow2(n)
  {
    hide Bit;
    if n > 0 {
      FieldIs(s, off, n - 1, v / 2);
      assert Bit(s, off + n - 1) == TestBit(v, 0);
      ModHalf(v, Pow2(n - 1));
    }
  }

  /** A field holds its own number. */
  lemma {:induction false} FieldHolds(s: seq<bv8>, off: nat, n: nat)
    ensures Holds(s, off, n, Field(s, off, n))
  {
    hide Bit;
    if n > 0 {
      FieldHolds(s, off, n - 1);
      var f := Field(s, off, n);
      assert f / 2 == Field(s, off, n - 1);
    }
  }

  /** Bits `off..off + n` of one string are bits `off2..off2 + n` of another. */
  predicate SameBits(s: seq<bv8>, off: nat, t: seq<bv8>, off2: nat, n: nat) {
    forall i :: off <= i < off + n ==> Bit(s, i) == Bit(t, off2 + (i - off))
  }

  lemma {:induction false} FieldSame(s: seq<bv8>, off: nat, t: seq<bv8>, off2: nat, n: nat)
    requires SameBits(s, off, t, off2, n)
    ensures Field(s, off, n) == Field(t, off2, n)
  {
    hide Bit;
    if n > 0 {
      FieldSame(s, off, t, off2, n - 1);
      assert Bit(s, off + n - 1) == Bit(t, off2 + (n - 1));
    }
  }
}
