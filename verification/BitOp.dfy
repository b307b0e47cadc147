/** BITOP: bitwise operations on strings of any lengths, the shorter ones padded with
    zeros. As long as all sources have data, 32 bytes are done at a time in four
    64-bit words; the rest byte by byte. */
module BitOp {
  import opened Bits

  datatype Op = And | Or | Xor | Not

  function Apply8(op: Op, a: bv8, b: bv8): bv8 {
    match op
    case And => a & b
    case Or => a | b
    case Xor => a ^ b
    case Not => a
  }

  function Apply64(op: Op, a: bv64, b: bv64): bv64 {
    match op
    case And => a & b
    case Or => a | b
    case Xor => a ^ b
    case Not => a
  }

  function Invert8(a: bv8): bv8 { !a }

  function Invert64(a: bv64): bv64 { !a }

  // ---------------------------------------------------------------- the reference

  function ByteAt(s: seq<bv8>, j: nat): bv8 {
    if j < |s| then s[j] else 0
  }

  /** Byte `j` of the result over the first `n` sources. */
  function Result(op: Op, src: seq<seq<bv8>>, n: nat, j: nat): bv8
    requires 1 <= n <= |src|
  {
    if n == 1 then if op.Not? then Invert8(ByteAt(src[0], j)) else ByteAt(src[0], j)
    else Apply8(op, Result(op, src, n - 1, j), ByteAt(src[n - 1], j))
  }

  /** How many of the first `n` sources have bit `i` set. */
  function SetIn(src: seq<seq<bv8>>, n: nat, i: nat): nat
    requires n <= |src|
  {
    if n == 0 then 0 else SetIn(src, n - 1, i) + Num(Bit(src[n - 1], i))
  }

  lemma {:induction false} SetInMeans(src: seq<seq<bv8>>, n: nat, i: nat)
    requires n <= |src|
    ensures SetIn(src, n, i) <= n
    ensures SetIn(src, n, i) == n <==> forall s :: 0 <= s < n ==> Bit(src[s], i)
    ensures SetIn(src, n, i) > 0 <==> exists s :: 0 <= s < n && Bit(src[s], i)
    decreases n
  {
    hide Bit;
    if n > 0 {
      SetInMeans(src, n - 1, i);
    }
  }

  /** What a bit of the result is, from the number of sources that have it set. */
  predicate Combined(op: Op, n: nat, count: nat) {
    match op
    case And => count == n
    case Or => count > 0
    case Xor => count % 2 == 1
    case Not => count == 0
  }

  lemma AndBits(a: bv8, b: bv8, k: nat)
    requires k < 8
    ensures BitOf(Apply8(And, a, b), k) == (BitOf(a, k) && BitOf(b, k))
  {
    hide Mask;
    MaskIs(k);
  }

  lemma OrBits(a: bv8, b: bv8, k: nat)
    requires k < 8
    ensures BitOf(Apply8(Or, a, b), k) == (BitOf(a, k) || BitOf(b, k))
  {
    hide Mask;
    MaskIs(k);
  }

  lemma XorBits(a: bv8, b: bv8, k: nat)
    requires k < 8
    ensures BitOf(Apply8(Xor, a, b), k) == (BitOf(a, k) != BitOf(b, k))
  {
    hide Mask;
    MaskIs(k);
  }

  lemma NotBits(a: bv8, k: nat)
    requires k < 8
    ensures BitOf(Invert8(a), k) == !BitOf(a, k)
  {
    hide Mask;
    MaskIs(k);
  }

  lemma ApplyBits(a: bv8, b: bv8, k: nat)
    requires k < 8
    ensures BitOf(Apply8(And, a, b), k) == (BitOf(a, k) && BitOf(b, k))
    ensures BitOf(Apply8(Or, a, b), k) == (BitOf(a, k) || BitOf(b, k))
    ensures BitOf(Apply8(Xor, a, b), k) == (BitOf(a, k) != BitOf(b, k))
    ensures BitOf(Invert8(a), k) == !BitOf(a, k)
  {
    hide BitOf, Apply8, Invert8;
    AndBits(a, b, k);
    OrBits(a, b, k);
    XorBits(a, b, k);
    NotBits(a, k);
  }

  lemma ByteAtBit(s: seq<bv8>, j: nat, k: nat)
    requires k < 8
    ensures BitOf(ByteAt(s, j), 7 - k) == Bit(s, 8 * j + k)
  {
    hide Mask;
    assert (8 * j + k) / 8 == j && (8 * j + k) % 8 == k;
  }

  lemma {:induction false} ResultBits(op: Op, src: seq<seq<bv8>>, n: nat, j: nat, k: nat)
    requires 1 <= n <= |src| && (op.Not? ==> n == 1) && k < 8
    ensures BitOf(Result(op, src, n, j), 7 - k) == Combined(op, n, SetIn(src, n, 8 * j + k))
    decreases n
  {
    hide BitOf, Bit, Apply8, Invert8, ByteAt;
    var i := 8 * j + k;
    ByteAtBit(src[n - 1], j, k);
    if n == 1 {
      ApplyBits(ByteAt(src[0], j), 0, 7 - k);
      assert SetIn(src, 1, i) == SetIn(src, 0, i) + Num(Bit(src[0], i));
    } else {
      ResultBits(op, src, n - 1, j, k);
      ApplyBits(Result(op, src, n - 1, j), ByteAt(src[n - 1], j), 7 - k);
      SetInMeans(src, n - 1, i);
    }
  }

  /** A string of such bytes, bit by bit. */
  lemma StringBits(op: Op, src: seq<seq<bv8>>, res: seq<bv8>, i: nat)
    requires src != [] && (op.Not? ==> |src| == 1) && i < 8 * |res|
    requires forall k :: 0 <= k < |res| ==> res[k] == Result(op, src, |src|, k)
    ensures op.And? ==> (Bit(res, i) <==> forall s :: 0 <= s < |src| ==> Bit(src[s], i))
    ensures op.Or? ==> (Bit(res, i) <==> exists s :: 0 <= s < |src| && Bit(src[s], i))
    ensures op.Xor? ==> (Bit(res, i) <==> SetIn(src, |src|, i) % 2 == 1)
    ensures op.Not? ==> (Bit(res, i) <==> !Bit(src[0], i))
  {
    hide BitOf, Result;
    var j, k := i / 8, i % 8;
    ResultBits(op, src, |src|, j, k);
    SetInMeans(src, |src|, i);
    assert res[j] == Result(op, src, |src|, j) && i == 8 * j + k;
  }

  // ---------------------------------------------------------------- words

  // The bytes of a word, the least significant first.

  function Part0(w: bv64): bv8 { (w & 0xFF) as bv8 }
  function Part1(w: bv64): bv8 { ((w >> 8) & 0xFF) as bv8 }
  function Part2(w: bv64): bv8 { ((w >> 16) & 0xFF) as bv8 }
  function Part3(w: bv64): bv8 { ((w >> 24) & 0xFF) as bv8 }
  function Part4(w: bv64): bv8 { ((w >> 32) & 0xFF) as bv8 }
  function Part5(w: bv64): bv8 { ((w >> 40) & 0xFF) as bv8 }
  function Part6(w: bv64): bv8 { ((w >> 48) & 0xFF) as bv8 }
  function Part7(w: bv64): bv8 { ((w >> 56) & 0xFF) as bv8 }

  lemma LoadParts(a: bv8, b: bv8, c: bv8, d: bv8, e: bv8, f: bv8, g: bv8, h: bv8)
    ensures Part0(Load64(a, b, c, d, e, f, g, h)) == a && Part1(Load64(a, b, c, d, e, f, g, h)) == b
    ensures Part2(Load64(a, b, c, d, e, f, g, h)) == c && Part3(Load64(a, b, c, d, e, f, g, h)) == d
    ensures Part4(Load64(a, b, c, d, e, f, g, h)) == e && Part5(Load64(a, b, c, d, e, f, g, h)) == f
    ensures Part6(Load64(a, b, c, d, e, f, g, h)) == g && Part7(Load64(a, b, c, d, e, f, g, h)) == h
  {
  }

  // A word operation acts on its bytes one by one.

  lemma Apply0(op: Op, v: bv64, w: bv64)
    ensures Part0(Apply64(op, v, w)) == Apply8(op, Part0(v), Part0(w)) && Part0(Invert64(v)) == Invert8(Part0(v))
  {
  }

  lemma Apply1(op: Op, v: bv64, w: bv64)
    ensures Part1(Apply64(op, v, w)) == Apply8(op, Part1(v), Part1(w)) && Part1(Invert64(v)) == Invert8(Part1(v))
  {
  }

  lemma Apply2(op: Op, v: bv64, w: bv64)
    ensures Part2(Apply64(op, v, w)) == Apply8(op, Part2(v), Part2(w)) && Part2(Invert64(v)) == Invert8(Part2(v))
  {
  }

  lemma Apply3(op: Op, v: bv64, w: bv64)
    ensures Part3(Apply64(op, v, w)) == Apply8(op, Part3(v), Part3(w)) && Part3(Invert64(v)) == Invert8(Part3(v))
  {
  }

  lemma Apply4(op: Op, v: bv64, w: bv64)
    ensures Part4(Apply64(op, v, w)) == Apply8(op, Part4(v), Part4(w)) && Part4(Invert64(v)) == Invert8(Part4(v))
  {
  }

  lemma Apply5(op: Op, v: bv64, w: bv64)
    ensures Part5(Apply64(op, v, w)) == Apply8(op, Part5(v), Part5(w)) && Part5(Invert64(v)) == Invert8(Part5(v))
  {
  }

  lemma Apply6(op: Op, v: bv64, w: bv64)
    ensures Part6(Apply64(op, v, w)) == Apply8(op, Part6(v), Part6(w)) && Part6(Invert64(v)) == Invert8(Part6(v))
  {
  }

  lemma Apply7(op: Op, v: bv64, w: bv64)
    ensures Part7(Apply64(op, v, w)) == Apply8(op, Part7(v), Part7(w)) && Part7(Invert64(v)) == Invert8(Part7(v))
  {
  }

  method StoreWord(res: array<bv8>, i: nat, w: bv64)
    requires i + 8 <= res.Length
    modifies res
    ensures res[i] == Part0(w) && res[i + 1] == Part1(w) && res[i + 2] == Part2(w) && res[i + 3] == Part3(w)
    ensures res[i + 4] == Part4(w) && res[i + 5] == Part5(w) && res[i + 6] == Part6(w) && res[i + 7] == Part7(w)
    ensures forall k :: 0 <= k < res.Length && !(i <= k < i + 8) ==> res[k] == old(res[k])
  {
    hide Part0, Part1, Part2, Part3, Part4, Part5, Part6, Part7;
    res[i], res[i + 1], res[i + 2], res[i + 3] := Part0(w), Part1(w), Part2(w), Part3(w);
    res[i + 4], res[i + 5], res[i + 6], res[i + 7] := Part4(w), Part5(w), Part6(w), Part7(w);
  }

  /** One word of the result combined with one word of a source. */
  method CombineWord(op: Op, res: array<bv8>, src: seq<bv8>, i: nat)
    requires i + 8 <= res.Length && i + 8 <= |src|
    modifies res
    ensures forall k :: 0 <= k < res.Length ==>
      res[k] == if i <= k < i + 8 then Apply8(op, old(res[k]), src[k]) else old(res[k])
  {
    hide Part0, Part1, Part2, Part3, Part4, Part5, Part6, Part7, Load64, Apply8, Apply64, Invert8, Invert64;
    var s := res[i..i + 8];
    LoadParts(s[0], s[1], s[2], s[3], s[4], s[5], s[6], s[7]);
    LoadParts(src[i], src[i + 1], src[i + 2], src[i + 3], src[i + 4], src[i + 5], src[i + 6], src[i + 7]);
    var v, w := Word64At(s, 0), Word64At(src, i);
    Apply0(op, v, w);
    Apply1(op, v, w);
    Apply2(op, v, w);
    Apply3(op, v, w);
    Apply4(op, v, w);
    Apply5(op, v, w);
    Apply6(op, v, w);
    Apply7(op, v, w);
    StoreWord(res, i, Apply64(op, v, w));
  }

  method InvertWord(res: array<bv8>, i: nat)
    requires i + 8 <= res.Length
    modifies res
    ensures forall k :: 0 <= k < res.Length ==> res[k] == if i <= k < i + 8 then Invert8(old(res[k])) else old(res[k])
  {
    hide Part0, Part1, Part2, Part3, Part4, Part5, Part6, Part7, Load64, Invert8, Invert64, Apply8, Apply64;
    var s := res[i..i + 8];
    LoadParts(s[0], s[1], s[2], s[3], s[4], s[5], s[6], s[7]);
    var v := Word64At(s, 0);
    Apply0(Not, v, v);
    Apply1(Not, v, v);
    Apply2(Not, v, v);
    Apply3(Not, v, v);
    Apply4(Not, v, v);
    Apply5(Not, v, v);
    Apply6(Not, v, v);
    Apply7(Not, v, v);
    StoreWord(res, i, Invert64(v));
  }

  // ---------------------------------------------------------------- the command

  predicate Shortest(src: seq<seq<bv8>>, n: nat) {
    && (forall i :: 0 <= i < |src| ==> n <= |src[i]|)
    && exists i :: 0 <= i < |src| && n == |src[i]|
  }

  predicate Longest(src: seq<seq<bv8>>, n: nat) {
    && (forall i :: 0 <= i < |src| ==> n >= |src[i]|)
    && exists i :: 0 <= i < |src| && n == |src[i]|
  }

  /** The lengths, as the sources are looked up; a missing key is an empty string. */
  method Lengths(src: seq<seq<bv8>>) returns (min: nat, max: nat)
    requires src != []
    ensures Shortest(src, min) && Longest(src, max)
  {
    min, max := 0, 0;
    for j := 0 to |src|
      invariant j > 0 ==> Shortest(src[..j], min) && Longest(src[..j], max)
      invariant j == 0 ==> min == 0 && max == 0
    {
      assert src[..j + 1] == src[..j] + [src[j]];
      if |src[j]| > max { max := |src[j]|; }
      if j == 0 || |src[j]| < min { min := |src[j]|; }
      assert src[..j + 1][j] == src[j];
      assert forall i :: 0 <= i < j ==> src[..j + 1][i] == src[..j][i];
    }
    assert src[..|src|] == src;
  }

  /** 32 bytes of the result, with every source. */
  method Stride(op: Op, res: array<bv8>, src: seq<seq<bv8>>, j: nat)
    requires src != [] && (op.Not? ==> |src| == 1) && j + 32 <= res.Length
    requires forall i :: 0 <= i < |src| ==> j + 32 <= |src[i]|
    requires forall k :: j <= k < j + 32 ==> res[k] == src[0][k]
    modifies res
    ensures forall k :: 0 <= k < res.Length ==>
      res[k] == if j <= k < j + 32 then Result(op, src, |src|, k) else old(res[k])
  {
    hide Apply8, Invert8;
    if op.Not? {
      InvertWord(res, j);
      InvertWord(res, j + 8);
      InvertWord(res, j + 16);
      InvertWord(res, j + 24);
    } else {
      for i := 1 to |src|
        invariant forall k :: 0 <= k < res.Length ==>
          res[k] == if j <= k < j + 32 then Result(op, src, i, k) else old(res[k])
      {
        CombineWord(op, res, src[i], j);
        CombineWord(op, res, src[i], j + 8);
        CombineWord(op, res, src[i], j + 16);
        CombineWord(op, res, src[i], j + 24);
      }
    }
  }

  /** The result is as long as the longest source and, byte for byte, what combining
      the zero-padded sources gives. */
  method Bitop(op: Op, src: seq<seq<bv8>>) returns (res: array<bv8>)
    requires src != [] && (op.Not? ==> |src| == 1)
    ensures fresh(res) && Longest(src, res.Length)
    ensures forall k :: 0 <= k < res.Length ==> res[k] == Result(op, src, |src|, k)
    ensures op.And? ==> forall i: nat :: i < 8 * res.Length ==> (Bit(res[..], i) <==> forall s :: 0 <= s < |src| ==> Bit(src[s], i))
    ensures op.Or? ==> forall i: nat :: i < 8 * res.Length ==> (Bit(res[..], i) <==> exists s :: 0 <= s < |src| && Bit(src[s], i))
    ensures op.Xor? ==> forall i: nat :: i < 8 * res.Length ==> (Bit(res[..], i) <==> SetIn(src, |src|, i) % 2 == 1)
    ensures op.Not? ==> forall i: nat :: i < 8 * res.Length ==> (Bit(res[..], i) <==> !Bit(src[0], i))
  {
    hide Apply8, Invert8, Bit, SetIn;
    var min, max := Lengths(src);
    res := new bv8[max](_ => 0);
    var j := 0;
    if min >= 32 && |src| <= 16 {
      forall k | 0 <= k < min {
        res[k] := src[0][k];
      }
      var left := min;
      while left >= 32
        invariant 0 <= left <= min && j == min - left
        invariant forall k :: 0 <= k < j ==> res[k] == Result(op, src, |src|, k)
        invariant forall k :: j <= k < min ==> res[k] == src[0][k]
      {
        Stride(op, res, src, j);
        j := j + 32;
        left := left - 32;
      }
    }
    while j < max
      invariant 0 <= j <= max
      invariant forall k :: 0 <= k < j ==> res[k] == Result(op, src, |src|, k)
    {
      var output := if |src[0]| <= j then 0 else src[0][j];
      if op.Not? { output := Invert8(output); }
      for i := 1 to |src|
        invariant output == Result(op, src, i, j)
      {
        var byte := if |src[i]| <= j then 0 else src[i][j];
        output := Apply8(op, output, byte);
      }
      res[j] := output;
      j := j + 1;
    }
    AllBits(op, src, res[..]);
  }

  lemma AllBits(op: Op, src: seq<seq<bv8>>, res: seq<bv8>)
    requires src != [] && (op.Not? ==> |src| == 1)
    requires forall k :: 0 <= k < |res| ==> res[k] == Result(op, src, |src|, k)
    ensures op.And? ==> forall i: nat :: i < 8 * |res| ==> (Bit(res, i) <==> forall s :: 0 <= s < |src| ==> Bit(src[s], i))
    ensures op.Or? ==> forall i: nat :: i < 8 * |res| ==> (Bit(res, i) <==> exists s :: 0 <= s < |src| && Bit(src[s], i))
    ensures op.Xor? ==> forall i: nat :: i < 8 * |res| ==> (Bit(res, i) <==> SetIn(src, |src|, i) % 2 == 1)
    ensures op.Not? ==> forall i: nat :: i < 8 * |res| ==> (Bit(res, i) <==> !Bit(src[0], i))
  {
    hide Result, Bit, SetIn;
    forall i: nat | i < 8 * |res|
      ensures op.And? ==> (Bit(res, i) <==> forall s :: 0 <= s < |src| ==> Bit(src[s], i))
      ensures op.Or? ==> (Bit(res, i) <==> exists s :: 0 <= s < |src| && Bit(src[s], i))
      ensures op.Xor? ==> (Bit(res, i) <==> SetIn(src, |src|, i) % 2 == 1)
      ensures op.Not? ==> (Bit(res, i) <==> !Bit(src[0], i))
    {
      StringBits(op, src, res, i);
    }
  }
}
