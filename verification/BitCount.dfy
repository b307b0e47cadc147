/** Counting set bits, 28 bytes at a time: seven 32-bit words are reduced to counts per
    byte by parallel additions inside the word, summed, and folded by one
    multiplication. Proved equal to counting bit by bit, for every length and
    alignment. */
module BitCount {
  import opened Bits

  // ---------------------------------------------------------------- the reference

  /** The set bits among the first `n`. */
  function CountOnes(s: seq<bv8>, n: nat): nat {
    if n == 0 then 0 else CountOnes(s, n - 1) + Num(Bit(s, n - 1))
  }

  /** The set bits of a byte, as its table gives them. */
  function PopByte(b: bv8): nat {
    Num(BitOf(b, 0)) + Num(BitOf(b, 1)) + Num(BitOf(b, 2)) + Num(BitOf(b, 3)) +
    Num(BitOf(b, 4)) + Num(BitOf(b, 5)) + Num(BitOf(b, 6)) + Num(BitOf(b, 7))
  }

  function PopTo(s: seq<bv8>, n: nat): nat
    requires n <= |s|
  {
    if n == 0 then 0 else PopTo(s, n - 1) + PopByte(s[n - 1])
  }

  lemma OneMoreBit(s: seq<bv8>, n: nat, k: nat)
    requires n < |s| && k < 8
    ensures CountOnes(s, 8 * n + k + 1) == CountOnes(s, 8 * n + k) + Num(BitOf(s[n], 7 - k))
  {
    hide BitOf, Bit;
    BitInByte(s, n, k);
  }

  lemma ByteOnes(s: seq<bv8>, n: nat)
    requires n < |s|
    ensures CountOnes(s, 8 * n + 8) == CountOnes(s, 8 * n) + PopByte(s[n])
  {
    hide BitOf, Bit, CountOnes;
    OneMoreBit(s, n, 0);
    OneMoreBit(s, n, 1);
    OneMoreBit(s, n, 2);
    OneMoreBit(s, n, 3);
    OneMoreBit(s, n, 4);
    OneMoreBit(s, n, 5);
    OneMoreBit(s, n, 6);
    OneMoreBit(s, n, 7);
  }

  /** Byte by byte is bit by bit. */
  lemma {:induction false} PopIsCount(s: seq<bv8>, n: nat)
    requires n <= |s|
    ensures PopTo(s, n) == CountOnes(s, 8 * n)
  {
    hide PopByte;
    if n > 0 {
      PopIsCount(s, n - 1);
      ByteOnes(s, n - 1);
    }
  }

  // ---------------------------------------------------------------- words as numbers

  function Plus(a: bv32, b: bv32): bv32 { a + b }

  function Pred(a: bv32): bv32 { a - 1 }

  /** The number a word stands for. */
  function Value(x: bv32): nat
    decreases x
  {
    if x == 0 then 0 else Value(x - 1) + 1
  }

  predicate Small(x: bv32) { x <= 0xFFFF }

  lemma SmallSums(a: bv32, b: bv32)
    requires Small(a) && Small(b)
    ensures b == 0 ==> Plus(a, b) == a
    ensures b != 0 ==> Plus(a, b) != 0 && Pred(Plus(a, b)) == Plus(a, Pred(b)) && Small(Pred(b))
  {
  }

  lemma ValueStep(x: bv32)
    ensures Value(x) == if x == 0 then 0 else Value(Pred(x)) + 1
  {
  }

  lemma {:induction false} ValueAdd(a: bv32, b: bv32)
    requires Small(a) && Small(b)
    ensures Value(Plus(a, b)) == Value(a) + Value(b)
    decreases Value(b)
  {
    hide Value, Plus, Pred, Small;
    SmallSums(a, b);
    ValueStep(b);
    if b != 0 {
      ValueStep(Plus(a, b));
      ValueAdd(a, Pred(b));
    }
  }

  // ---------------------------------------------------------------- bytes inside a word

  function Lane0(x: bv32): bv32 { x & 0xFF }
  function Lane1(x: bv32): bv32 { (x >> 8) & 0xFF }
  function Lane2(x: bv32): bv32 { (x >> 16) & 0xFF }
  function Lane3(x: bv32): bv32 { x >> 24 }

  predicate AtMost(x: bv32, m: bv32) { x <= m }

  predicate Bounded(x: bv32, m: bv32) {
    AtMost(Lane0(x), m) && AtMost(Lane1(x), m) && AtMost(Lane2(x), m) && AtMost(Lane3(x), m)
  }

  function Total(x: bv32): nat {
    Value(Lane0(x)) + Value(Lane1(x)) + Value(Lane2(x)) + Value(Lane3(x))
  }

  // Lanes that do not overflow add up side by side.

  lemma LanesAdd0(s: bv32, t: bv32)
    requires Bounded(s, 100) && Bounded(t, 100)
    ensures Lane0(Plus(s, t)) == Plus(Lane0(s), Lane0(t))
  {
  }

  lemma LanesAdd1(s: bv32, t: bv32)
    requires Bounded(s, 100) && Bounded(t, 100)
    ensures Lane1(Plus(s, t)) == Plus(Lane1(s), Lane1(t))
  {
  }

  lemma LanesAdd2(s: bv32, t: bv32)
    requires Bounded(s, 100) && Bounded(t, 100)
    ensures Lane2(Plus(s, t)) == Plus(Lane2(s), Lane2(t))
  {
  }

  lemma LanesAdd3(s: bv32, t: bv32)
    requires Bounded(s, 100) && Bounded(t, 100)
    ensures Lane3(Plus(s, t)) == Plus(Lane3(s), Lane3(t))
  {
  }

  lemma SumBound(a: bv32, b: bv32, m: bv32)
    requires AtMost(a, m) && AtMost(b, 8) && m <= 92
    ensures AtMost(Plus(a, b), m + 8)
  {
  }

  lemma LanesSmall(s: bv32, m: bv32)
    requires m <= 200 && Bounded(s, m)
    ensures Small(Lane0(s)) && Small(Lane1(s)) && Small(Lane2(s)) && Small(Lane3(s))
  {
  }

  lemma BoundedMore(s: bv32, m: bv32)
    requires m <= 100 && Bounded(s, m)
    ensures Bounded(s, 100)
  {
    hide Lane0, Lane1, Lane2, Lane3;
  }

  lemma LanesAdd(s: bv32, t: bv32)
    requires Bounded(s, 100) && Bounded(t, 100)
    ensures Lane0(Plus(s, t)) == Plus(Lane0(s), Lane0(t)) && Lane1(Plus(s, t)) == Plus(Lane1(s), Lane1(t))
    ensures Lane2(Plus(s, t)) == Plus(Lane2(s), Lane2(t)) && Lane3(Plus(s, t)) == Plus(Lane3(s), Lane3(t))
  {
    hide Plus, Lane0, Lane1, Lane2, Lane3, Bounded;
    LanesAdd0(s, t);
    LanesAdd1(s, t);
    LanesAdd2(s, t);
    LanesAdd3(s, t);
  }

  lemma TotalAdd(s: bv32, t: bv32, m: bv32)
    requires m <= 92 && Bounded(s, m) && Bounded(t, 8)
    ensures Total(Plus(s, t)) == Total(s) + Total(t) && Bounded(Plus(s, t), m + 8)
  {
    hide Plus, Small, Lane0, Lane1, Lane2, Lane3, Value, Bounded;
    BoundedMore(s, m);
    BoundedMore(t, 8);
    BoundedSum(s, t, m);
    LanesAdd(s, t);
    LanesSmall(s, m);
    LanesSmall(t, 8);
    ValueAdd(Lane0(s), Lane0(t));
    ValueAdd(Lane1(s), Lane1(t));
    ValueAdd(Lane2(s), Lane2(t));
    ValueAdd(Lane3(s), Lane3(t));
  }

  lemma BoundedSum(s: bv32, t: bv32, m: bv32)
    requires m <= 92 && Bounded(s, m) && Bounded(t, 8)
    ensures Bounded(Plus(s, t), m + 8)
  {
    hide Plus, Lane0, Lane1, Lane2, Lane3, AtMost;
    BoundedMore(s, m);
    BoundedMore(t, 8);
    LanesAdd(s, t);
    SumBound(Lane0(s), Lane0(t), m);
    SumBound(Lane1(s), Lane1(t), m);
    SumBound(Lane2(s), Lane2(t), m);
    SumBound(Lane3(s), Lane3(t), m);
  }

  function Fold(s: bv32): bv32 { (s * 0x01010101) >> 24 }

  function Top(u: bv32): bv32 { (u + (u << 16)) >> 24 }

  /** The multiplication, as two shifts and additions. */
  lemma FoldTwice(s: bv32)
    ensures Fold(s) == Top(s + (s << 8))
  {
    assert s * 0x01010101 == (s + (s << 8)) + ((s + (s << 8)) << 16);
  }

  lemma FoldPairs3(s: bv32)
    requires Bounded(s, 56)
    ensures Lane3(s + (s << 8)) == Plus(Lane3(s), Lane2(s))
  {
  }

  lemma FoldPairs1(s: bv32)
    requires Bounded(s, 56)
    ensures Lane1(s + (s << 8)) == Plus(Lane1(s), Lane0(s))
  {
  }

  lemma FoldPairsBounded(s: bv32)
    requires Bounded(s, 56)
    ensures Bounded(s + (s << 8), 112)
  {
  }

  lemma FoldTop(u: bv32)
    requires Bounded(u, 112)
    ensures Top(u) == Plus(Lane3(u), Lane1(u))
  {
  }

  /** The multiplication collects the four lanes in the top one. */
  lemma FoldTotal(s: bv32)
    requires Bounded(s, 56)
    ensures Value(Fold(s)) == Total(s)
  {
    hide Plus, Bounded, Small, Lane0, Lane1, Lane2, Lane3, Value, Fold, Top;
    FoldTwice(s);
    FoldPairs3(s);
    FoldPairs1(s);
    FoldPairsBounded(s);
    FoldTop(s + (s << 8));
    LanesSmall(s, 56);
    LanesSmall(s + (s << 8), 112);
    ValueAdd(Lane3(s), Lane2(s));
    ValueAdd(Lane1(s), Lane0(s));
    ValueAdd(Plus(Lane3(s), Lane2(s)), Plus(Lane1(s), Lane0(s)));
  }

  // ---------------------------------------------------------------- counts per byte

  /** The first two reductions: pairs, then nibbles. */
  function Nibbles(x: bv32): bv32 {
    var y := x - ((x >> 1) & 0x55555555);
    (y & 0x33333333) + ((y >> 2) & 0x33333333)
  }

  function PerByte(x: bv32): bv32 {
    var y := Nibbles(x);
    (y + (y >> 4)) & 0x0F0F0F0F
  }

  function PopLane(b: bv32): bv32 {
    Plus(Plus(Plus(b & 1, (b >> 1) & 1), Plus((b >> 2) & 1, (b >> 3) & 1)),
         Plus(Plus((b >> 4) & 1, (b >> 5) & 1), Plus((b >> 6) & 1, (b >> 7) & 1)))
  }

  lemma PerByte0(x: bv32)
    ensures Lane0(PerByte(x)) == PopLane(Lane0(x))
  {
  }

  lemma PerByte1(x: bv32)
    ensures Lane1(PerByte(x)) == PopLane(Lane1(x))
  {
  }

  lemma PerByte2(x: bv32)
    ensures Lane2(PerByte(x)) == PopLane(Lane2(x))
  {
  }

  lemma PerByte3(x: bv32)
    ensures Lane3(PerByte(x)) == PopLane(Lane3(x))
  {
  }

  lemma PerByteBounded(x: bv32)
    ensures Bounded(PerByte(x), 8)
  {
    hide PerByte, PopLane, AtMost, Lane0, Lane1, Lane2, Lane3;
    PerByte0(x);
    PerByte1(x);
    PerByte2(x);
    PerByte3(x);
    AtMostEight(Lane0(x));
    AtMostEight(Lane1(x));
    AtMostEight(Lane2(x));
    AtMostEight(Lane3(x));
  }

  lemma AtMostEight(b: bv32)
    ensures AtMost(PopLane(b), 8)
  {
  }

  function Load(a: bv8, b: bv8, c: bv8, d: bv8): bv32 {
    (a as bv32) | ((b as bv32) << 8) | ((c as bv32) << 16) | ((d as bv32) << 24)
  }

  lemma LoadLanes(a: bv8, b: bv8, c: bv8, d: bv8)
    ensures Lane0(Load(a, b, c, d)) == a as bv32 && Lane1(Load(a, b, c, d)) == b as bv32
    ensures Lane2(Load(a, b, c, d)) == c as bv32 && Lane3(Load(a, b, c, d)) == d as bv32
  {
  }

  function LaneBit(b: bv32, k: nat): bv32
    requires k < 8
  {
    (b >> k) & 1
  }

  lemma BitValue(b: bv8, k: nat)
    requires k < 8
    ensures Value(LaneBit(b as bv32, k)) == Num(BitOf(b, k)) && Small(LaneBit(b as bv32, k))
  {
    LaneBitIs(b, k);
    assert Value(0) == 0;
    assert Value(1) == 1;
  }

  lemma LaneBitIs(b: bv8, k: nat)
    requires k < 8
    ensures LaneBit(b as bv32, k) == if BitOf(b, k) then 1 else 0
  {
    hide Mask;
    MaskIs(k);
  }

  lemma PopLaneIs(b: bv32)
    ensures PopLane(b) == Plus(Plus(Plus(LaneBit(b, 0), LaneBit(b, 1)), Plus(LaneBit(b, 2), LaneBit(b, 3))),
                               Plus(Plus(LaneBit(b, 4), LaneBit(b, 5)), Plus(LaneBit(b, 6), LaneBit(b, 7))))
    ensures forall k :: 0 <= k < 7 ==> Small(Plus(LaneBit(b, k), LaneBit(b, k + 1)))
    ensures Small(Plus(Plus(LaneBit(b, 0), LaneBit(b, 1)), Plus(LaneBit(b, 2), LaneBit(b, 3))))
    ensures Small(Plus(Plus(LaneBit(b, 4), LaneBit(b, 5)), Plus(LaneBit(b, 6), LaneBit(b, 7))))
  {
  }

  lemma PopLaneValue(b: bv8)
    ensures Value(PopLane(b as bv32)) == PopByte(b)
  {
    hide Plus, Small, Value, LaneBit, BitOf, PopLane;
    var w := b as bv32;
    PopLaneIs(w);
    BitValue(b, 0);
    BitValue(b, 1);
    BitValue(b, 2);
    BitValue(b, 3);
    BitValue(b, 4);
    BitValue(b, 5);
    BitValue(b, 6);
    BitValue(b, 7);
    ValueAdd(LaneBit(w, 0), LaneBit(w, 1));
    ValueAdd(LaneBit(w, 2), LaneBit(w, 3));
    ValueAdd(LaneBit(w, 4), LaneBit(w, 5));
    ValueAdd(LaneBit(w, 6), LaneBit(w, 7));
    var p, q := Plus(LaneBit(w, 0), LaneBit(w, 1)), Plus(LaneBit(w, 2), LaneBit(w, 3));
    var r, t := Plus(LaneBit(w, 4), LaneBit(w, 5)), Plus(LaneBit(w, 6), LaneBit(w, 7));
    ValueAdd(p, q);
    ValueAdd(r, t);
    ValueAdd(Plus(p, q), Plus(r, t));
  }

  /** A word reduced this way holds, in total, the bits of its four bytes. */
  lemma WordTotal(a: bv8, b: bv8, c: bv8, d: bv8)
    ensures Total(PerByte(Load(a, b, c, d))) == PopByte(a) + PopByte(b) + PopByte(c) + PopByte(d)
    ensures Bounded(PerByte(Load(a, b, c, d)), 8)
  {
    hide PerByte, PopLane, Value, Lane0, Lane1, Lane2, Lane3, PopByte, Load;
    var x := Load(a, b, c, d);
    LoadLanes(a, b, c, d);
    PerByteBounded(x);
    PerByte0(x);
    PerByte1(x);
    PerByte2(x);
    PerByte3(x);
    PopLaneValue(a);
    PopLaneValue(b);
    PopLaneValue(c);
    PopLaneValue(d);
  }

  // ---------------------------------------------------------------- the count

  function WordAt(s: seq<bv8>, i: nat): bv32
    requires i + 4 <= |s|
  {
    Load(s[i], s[i + 1], s[i + 2], s[i + 3])
  }

  lemma NextWord(s: seq<bv8>, i: nat)
    requires i + 4 <= |s|
    ensures PopTo(s, i + 4) == PopTo(s, i) + Total(PerByte(WordAt(s, i))) && Bounded(PerByte(WordAt(s, i)), 8)
  {
    hide PerByte, Total, Load, PopByte;
    WordTotal(s[i], s[i + 1], s[i + 2], s[i + 3]);
    assert PopTo(s, i + 2) == PopTo(s, i) + PopByte(s[i]) + PopByte(s[i + 1]);
    assert PopTo(s, i + 4) == PopTo(s, i + 2) + PopByte(s[i + 2]) + PopByte(s[i + 3]);
  }

  function Sum7(a: bv32, b: bv32, c: bv32, d: bv32, e: bv32, f: bv32, g: bv32): bv32 {
    Plus(Plus(Plus(Plus(Plus(Plus(a, b), c), d), e), f), g)
  }

  /** Seven words at a time. */
  lemma SevenWords(s: seq<bv8>, i: nat)
    requires i + 28 <= |s|
    ensures var sum := Sum7(PerByte(WordAt(s, i)), PerByte(WordAt(s, i + 4)), PerByte(WordAt(s, i + 8)),
                            PerByte(WordAt(s, i + 12)), PerByte(WordAt(s, i + 16)), PerByte(WordAt(s, i + 20)),
                            PerByte(WordAt(s, i + 24)));
            PopTo(s, i + 28) == PopTo(s, i) + Value(Fold(sum))
  {
    hide PerByte, Total, Load, PopByte, PopTo, Plus, Bounded, Fold, Value, WordAt;
    NextWord(s, i);
    NextWord(s, i + 4);
    NextWord(s, i + 8);
    NextWord(s, i + 12);
    NextWord(s, i + 16);
    NextWord(s, i + 20);
    NextWord(s, i + 24);
    var sum := PerByte(WordAt(s, i));
    TotalAdd(sum, PerByte(WordAt(s, i + 4)), 8);
    sum := Plus(sum, PerByte(WordAt(s, i + 4)));
    TotalAdd(sum, PerByte(WordAt(s, i + 8)), 16);
    sum := Plus(sum, PerByte(WordAt(s, i + 8)));
    TotalAdd(sum, PerByte(WordAt(s, i + 12)), 24);
    sum := Plus(sum, PerByte(WordAt(s, i + 12)));
    TotalAdd(sum, PerByte(WordAt(s, i + 16)), 32);
    sum := Plus(sum, PerByte(WordAt(s, i + 16)));
    TotalAdd(sum, PerByte(WordAt(s, i + 20)), 40);
    sum := Plus(sum, PerByte(WordAt(s, i + 20)));
    TotalAdd(sum, PerByte(WordAt(s, i + 24)), 48);
    sum := Plus(sum, PerByte(WordAt(s, i + 24)));
    FoldTotal(sum);
  }

  /** Counts the set bits of a string that starts `phase` bytes after a 4-byte
      boundary: single bytes up to alignment, 28 bytes at a time, single bytes. */
  method Popcount(s: seq<bv8>, phase: nat) returns (bits: nat)
    ensures bits == CountOnes(s, 8 * |s|)
  {
    hide PopByte, PerByte, Fold, Value, WordAt, CountOnes, Sum7;
    bits := 0;
    var i := 0;
    while (phase + i) % 4 != 0 && i < |s|
      invariant i <= |s| && bits == PopTo(s, i)
      decreases |s| - i
    {
      bits := bits + PopByte(s[i]);
      i := i + 1;
    }
    while |s| - i >= 28
      invariant i <= |s| && bits == PopTo(s, i)
    {
      var aux1, aux2, aux3, aux4 := WordAt(s, i), WordAt(s, i + 4), WordAt(s, i + 8), WordAt(s, i + 12);
      var aux5, aux6, aux7 := WordAt(s, i + 16), WordAt(s, i + 20), WordAt(s, i + 24);
      SevenWords(s, i);
      bits := bits + Value(Fold(Sum7(PerByte(aux1), PerByte(aux2), PerByte(aux3), PerByte(aux4),
                                     PerByte(aux5), PerByte(aux6), PerByte(aux7))));
      i := i + 28;
    }
    while i < |s|
      invariant i <= |s| && bits == PopTo(s, i)
    {
      bits := bits + PopByte(s[i]);
      i := i + 1;
    }
    PopIsCount(s, |s|);
  }
}
