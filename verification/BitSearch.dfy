/** The first bit of a given value: bytes up to alignment, then whole words, are skipped
    while they cannot hold it; the next eight bytes, padded with zeros, are loaded
    big-endian and scanned bit by bit. */
module BitSearch {
  import opened Bits

  /** `pos` is the first bit with that value. */
  predicate First(s: seq<bv8>, bit: bool, pos: nat) {
    Bit(s, pos) == bit && AllBefore(s, bit, pos)
  }

  predicate AllBefore(s: seq<bv8>, bit: bool, pos: nat) {
    forall i: nat :: i < pos ==> Bit(s, i) != bit
  }

  lemma ByteAll(b: bv8)
    ensures b == 0 <==> !BitOf(b, 0) && !BitOf(b, 1) && !BitOf(b, 2) && !BitOf(b, 3) && !BitOf(b, 4) && !BitOf(b, 5) && !BitOf(b, 6) && !BitOf(b, 7)
    ensures b == 255 <==> BitOf(b, 0) && BitOf(b, 1) && BitOf(b, 2) && BitOf(b, 3) && BitOf(b, 4) && BitOf(b, 5) && BitOf(b, 6) && BitOf(b, 7)
  {
    hide Mask;
    MaskIs(0);
    MaskIs(1);
    MaskIs(2);
    MaskIs(3);
    MaskIs(4);
    MaskIs(5);
    MaskIs(6);
    MaskIs(7);
  }

  /** The byte that holds no bit of that value. */
  function SkipByte(bit: bool): bv8 { if bit then 0 else 255 }

  lemma SkipByteIff(s: seq<bv8>, bit: bool, n: nat)
    requires n < |s|
    ensures s[n] == SkipByte(bit) <==> forall i: nat :: 8 * n <= i < 8 * n + 8 ==> Bit(s, i) != bit
  {
    hide BitOf, Bit;
    ByteAll(s[n]);
    BitInByte(s, n, 0);
    BitInByte(s, n, 1);
    BitInByte(s, n, 2);
    BitInByte(s, n, 3);
    BitInByte(s, n, 4);
    BitInByte(s, n, 5);
    BitInByte(s, n, 6);
    BitInByte(s, n, 7);
  }

  // ---------------------------------------------------------------- words

  function SkipWord(bit: bool): bv64 { if bit then 0 else 0xFFFF_FFFF_FFFF_FFFF }

  lemma LoadSkips(a: bv8, b: bv8, c: bv8, d: bv8, e: bv8, f: bv8, g: bv8, h: bv8, bit: bool)
    ensures Load64(a, b, c, d, e, f, g, h) == SkipWord(bit) <==>
            a == SkipByte(bit) && b == SkipByte(bit) && c == SkipByte(bit) && d == SkipByte(bit) &&
            e == SkipByte(bit) && f == SkipByte(bit) && g == SkipByte(bit) && h == SkipByte(bit)
  {
  }

  lemma SkipWordIff(s: seq<bv8>, bit: bool, n: nat)
    requires n + 8 <= |s|
    ensures Word64At(s, n) == SkipWord(bit) <==> forall i: nat :: 8 * n <= i < 8 * n + 64 ==> Bit(s, i) != bit
  {
    hide Load64, Bit, BitOf, SkipByte, SkipWord;
    LoadSkips(s[n], s[n + 1], s[n + 2], s[n + 3], s[n + 4], s[n + 5], s[n + 6], s[n + 7], bit);
    SkipByteIff(s, bit, n);
    SkipByteIff(s, bit, n + 1);
    SkipByteIff(s, bit, n + 2);
    SkipByteIff(s, bit, n + 3);
    SkipByteIff(s, bit, n + 4);
    SkipByteIff(s, bit, n + 5);
    SkipByteIff(s, bit, n + 6);
    SkipByteIff(s, bit, n + 7);
  }

  // ---------------------------------------------------------------- the last word

  lemma Double(x: nat, p: nat)
    ensures x * (2 * p) == 2 * (x * p)
  {
  }

  lemma FieldNext(s: seq<bv8>, off: nat, n: nat)
    ensures Field(s, off, n + 1) == 2 * Field(s, off, n) + Num(Bit(s, off + n))
  {
  }

  lemma {:induction false} FieldConcat(s: seq<bv8>, off: nat, n: nat, m: nat)
    ensures Field(s, off, n + m) == Field(s, off, n) * Pow2(m) + Field(s, off + n, m)
  {
    hide Bit, Field;
    var x := Field(s, off, n);
    if m == 0 {
      assert x * Pow2(0) == x;
      assert Field(s, off + n, 0) == 0 by { FieldNone(s, off + n); }
    } else {
      FieldConcat(s, off, n, m - 1);
      FieldNext(s, off, n + m - 1);
      FieldNext(s, off + n, m - 1);
      Double(x, Pow2(m - 1));
    }
  }

  lemma FieldNone(s: seq<bv8>, off: nat)
    ensures Field(s, off, 0) == 0
  {
  }

  /** Eight zero bits beyond the end, or the bits of one byte. */
  lemma FieldOfByte(s: seq<bv8>, n: nat)
    ensures Field(s, 8 * n, 8) == if n < |s| then Field([s[n]], 0, 8) else 0
  {
    if n < |s| {
      forall i | 8 * n <= i < 8 * n + 8 ensures Bit(s, i) == Bit([s[n]], 0 + (i - 8 * n)) {
        assert i / 8 == n && i % 8 == i - 8 * n;
      }
      FieldSame(s, 8 * n, [s[n]], 0, 8);
    } else {
      ZeroBits(s, 8 * n, 8);
    }
  }

  lemma {:induction false} ZeroBits(s: seq<bv8>, off: nat, n: nat)
    requires off >= 8 * |s|
    ensures Field(s, off, n) == 0
  {
    if n > 0 {
      ZeroBits(s, off, n - 1);
    }
  }

  lemma {:induction false} FieldZero(s: seq<bv8>, off: nat, n: nat)
    ensures Field(s, off, n) == 0 <==> forall i: nat :: off <= i < off + n ==> !Bit(s, i)
  {
    hide Bit;
    if n > 0 {
      FieldZero(s, off, n - 1);
      assert off + n - 1 >= off;
    }
  }

  /** The position of the first `bit` in a string that starts `phase` bytes after a
      word boundary: -1 if a one is sought and there is none; a zero is always found,
      at the latest just after the end. */
  method Bitpos(s: seq<bv8>, phase: nat, bit: bool) returns (pos: int)
    ensures pos == -1 <==> bit && AllBefore(s, true, 8 * |s|)
    ensures pos != -1 ==> 0 <= pos <= 8 * |s| && First(s, bit, pos)
  {
    hide Bit, Word64At, Field;
    var i := 0;
    var found := false;
    while (phase + i) % 8 != 0 && i < |s|
      invariant i <= |s| && AllBefore(s, bit, 8 * i)
      decreases |s| - i
    {
      SkipByteIff(s, bit, i);
      if s[i] != SkipByte(bit) {
        found := true;
        break;
      }
      i := i + 1;
    }
    if !found {
      while |s| - i >= 8
        invariant i <= |s| && AllBefore(s, bit, 8 * i)
      {
        SkipWordIff(s, bit, i);
        if Word64At(s, i) != SkipWord(bit) { break; }
        i := i + 8;
      }
    }
    ghost var start := 8 * i;
    PaddingHasZero(s, bit, i);
    assert !bit || i + 8 <= |s| ==> exists k: nat :: start <= k < start + 64 && Bit(s, k) == bit;
    var word := LoadLast(s, i);
    FieldZero(s, start, 64);
    FieldHolds(s, start, 64);
    if bit && word == 0 {
      Beyond(s, i);
      return -1;
    }
    pos := 8 * i;
    for k := 0 to 64
      invariant pos == start + k && AllBefore(s, bit, pos)
    {
      if TestBit(word, 63 - k) == bit {
        assert Bit(s, pos) == bit;
        InBounds(s, bit, pos);
        return;
      }
      assert Bit(s, pos) != bit;
      pos := pos + 1;
    }
    assert false;
  }

  /** Eight bytes, the first as the most significant; zeros where the string ends. */
  method LoadLast(s: seq<bv8>, i: nat) returns (word: nat)
    requires i <= |s|
    ensures word == Field(s, 8 * i, 64)
  {
    hide Bit;
    word := 0;
    var c := i;
    assert Pow2(8) == 256;
    for j := 0 to 8
      invariant c == i + j && word == Field(s, 8 * i, 8 * j)
    {
      hide Field;
      FieldConcat(s, 8 * i, 8 * j, 8);
      FieldOfByte(s, c);
      word := word * 256;
      if c < |s| {
        word := word + Field([s[c]], 0, 8);
      }
      c := c + 1;
    }
  }

  /** If fewer than eight bytes are left, the padding holds a zero. */
  lemma PaddingHasZero(s: seq<bv8>, bit: bool, i: nat)
    requires i <= |s|
    ensures i + 8 > |s| && !bit ==> exists k: nat :: 8 * i <= k < 8 * i + 64 && Bit(s, k) == bit
  {
    if i + 8 > |s| && !bit {
      assert !Bit(s, 8 * |s|);
    }
  }

  /** Bits past the end are zero. */
  lemma Beyond(s: seq<bv8>, i: nat)
    ensures forall k: nat :: k >= 8 * |s| ==> !Bit(s, k)
  {
  }

  lemma InBounds(s: seq<bv8>, bit: bool, pos: nat)
    requires First(s, bit, pos)
    ensures pos <= 8 * |s| && (bit ==> pos < 8 * |s|)
  {
    var end := 8 * |s|;
    assert !Bit(s, end);
  }
}
