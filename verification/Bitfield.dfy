/** Integers of any width up to 63 bits, or 64 if signed, at any bit offset of a string,
    and the BITFIELD operations on them. 64-bit arithmetic is written out: `U64` and
    `I64` are the casts, and signed overflow wraps. */
module Bitfield {
  import opened Basics
  import opened Bits

  const TWO64: int := 0x1_0000_0000_0000_0000
  const TWO63: int := 0x8000_0000_0000_0000
  const INT64_MAX: int := 0x7FFF_FFFF_FFFF_FFFF

  function U64(x: int): nat { x % TWO64 }

  function I64(x: int): int { (x + TWO63) % TWO64 - TWO63 }

  predicate IsI64(x: int) { -TWO63 <= x < TWO63 }

  /** All ones shifted left by `bits`. The C language leaves a shift by 64 open; here
      it shifts everything out. */
  function HighOnes(bits: nat): int { TWO64 - Pow2(bits) }

  function MaxU(bits: nat): nat { Pow2(bits) - 1 }

  function MaxS(bits: nat): nat
    requires bits > 0
  {
    Pow2(bits - 1) - 1
  }

  function MinS(bits: nat): int
    requires bits > 0
  {
    0 - Pow2(bits - 1)
  }

  /** Two's complement in `bits` bits. */
  function SignedOf(u: nat, bits: nat): int
    requires bits > 0
  {
    if u >= Pow2(bits - 1) then u - Pow2(bits) else u
  }

  /** The value modulo 2^bits that fits. */
  function WrapS(x: int, bits: nat): int
    requires bits > 0
  {
    SignedOf(x % Pow2(bits), bits)
  }

  function Clamp(x: int, lo: int, hi: int): int {
    if x < lo then lo else if x > hi then hi else x
  }

  // ---------------------------------------------------------------- powers

  lemma {:induction false} Pow2Grows(a: nat, b: nat)
    requires a <= b
    ensures Pow2(a) <= Pow2(b)
  {
    if a < b {
      Pow2Grows(a, b - 1);
    }
  }

  lemma {:induction false} Pow2Add(a: nat, b: nat)
    ensures Pow2(a + b) == Pow2(a) * Pow2(b)
  {
    if a > 0 {
      Pow2Add(a - 1, b);
      assert Pow2(a) * Pow2(b) == 2 * (Pow2(a - 1) * Pow2(b));
    }
  }

  lemma Pow2Is()
    ensures Pow2(62) == 0x4000_0000_0000_0000 && Pow2(63) == TWO63 && Pow2(64) == TWO64
  {
    assert Pow2(8) == 256;
    Pow2Add(8, 8);
    Pow2Add(16, 16);
    Pow2Add(32, 30);
    Pow2Add(16, 14);
    assert Pow2(14) == 16384;
  }

  lemma FitsWord(bits: nat)
    requires 1 <= bits <= 64
    ensures 1 <= Pow2(bits - 1) <= TWO63 && Pow2(bits) == 2 * Pow2(bits - 1)
    ensures bits <= 63 ==> Pow2(bits - 1) <= 0x4000_0000_0000_0000
    ensures bits == 64 ==> Pow2(bits - 1) == TWO63
  {
    Pow2Is();
    if bits <= 63 {
      Pow2Grows(bits - 1, 62);
    }
  }

  lemma ModMod(x: int, p: nat, k: nat)
    requires p > 0 && k > 0
    ensures (x % (p * k)) % p == x % p
  {
    var m := p * k;
    var q, r := x / m, x % m;
    assert x == q * m + r;
    var a, b := r / p, r % p;
    assert r == a * p + b;
    assert x == (q * k + a) * p + b by {
      assert q * m == (q * k) * p;
      assert (q * k + a) * p == (q * k) * p + a * p;
    }
    IntDivIs(x, p, q * k + a, b);
  }

  lemma {:induction false} ApartInts(p: nat, a: int, b: int)
    ensures a < b ==> a * p + p <= b * p
    decreases b - a
  {
    if a < b {
      assert b * p == (b - 1) * p + p;
      ApartInts(p, a, b - 1);
    }
  }

  lemma IntDivIs(x: int, p: nat, q: int, r: nat)
    requires p > 0 && x == q * p + r && r < p
    ensures x / p == q && x % p == r
  {
    var d := x / p;
    assert x == d * p + x % p;
    ApartInts(p, d, q);
    ApartInts(p, q, d);
  }

  /** Casting to 64 bits does not change the low bits. */
  lemma LowBits(x: int, bits: nat)
    requires bits <= 64
    ensures U64(x) % Pow2(bits) == x % Pow2(bits)
  {
    Pow2Is();
    Pow2Add(bits, 64 - bits);
    ModMod(x, Pow2(bits), Pow2(64 - bits));
  }

  lemma {:induction false} TopBit(u: nat, n: nat)
    requires u < Pow2(n + 1)
    ensures TestBit(u, n) <==> u >= Pow2(n)
  {
    if n > 0 {
      TopBit(u / 2, n - 1);
    }
  }

  lemma Halves(h: nat, b: nat)
    requires b < 2
    ensures (2 * h + b) / 2 == h && (2 * h + b) % 2 == b
  {
  }

  /** The low `n` bits are the low `n - 1` bits of the half, and the last. */
  lemma LowHalf(u: nat, n: nat)
    requires n > 0
    ensures (u % Pow2(n)) / 2 == (u / 2) % Pow2(n - 1) && (u % Pow2(n)) % 2 == u % 2
  {
    var p := Pow2(n - 1);
    ModHalf(u, p);
    Halves((u / 2) % p, u % 2);
  }

  /** A bit below the width is a bit of the low part. */
  lemma {:induction false} TestLow(u: nat, n: nat, k: nat)
    requires k < n
    ensures TestBit(u % Pow2(n), k) == TestBit(u, k)
    decreases n
  {
    hide Pow2;
    LowHalf(u, n);
    if k > 0 {
      TestLow(u / 2, n - 1, k - 1);
    }
  }

  // ---------------------------------------------------------------- get and set

  /** The number at `offset`, bit by bit. */
  method GetUnsignedBitfield(p: array<bv8>, offset: nat, bits: nat) returns (value: nat)
    requires offset + bits <= 8 * p.Length
    ensures value == Field(p[..], offset, bits) && value < Pow2(bits)
  {
    hide Mask;
    value := 0;
    for j := 0 to bits
      invariant value == Field(p[..], offset, j)
    {
      var at := offset + j;
      var byte, bit := at / 8, 7 - at % 8;
      value := value * 2 + Num(BitOf(p[byte], bit));
    }
    FieldBound(p[..], offset, bits);
  }

  method GetSignedBitfield(p: array<bv8>, offset: nat, bits: nat) returns (value: int)
    requires offset + bits <= 8 * p.Length && 1 <= bits <= 64
    ensures value == SignedOf(Field(p[..], offset, bits), bits) && MinS(bits) <= value <= MaxS(bits)
  {
    var u := GetUnsignedBitfield(p, offset, bits);
    FitsWord(bits);
    TopBit(u, bits - 1);
    value := u;
    if TestBit(u, bits - 1) {
      value := I64(u + HighOnes(bits));
    }
  }

  const TOP: bv64 := 0x8000_0000_0000_0000

  predicate ReadsRight(u: bv64, ones: bv64) {
    u & TOP != 0 ==> u | ones == u
  }

  /** What the shift by 64 must yield: a field as wide as the word reads right, for
      every negative number, if and only if `ones` has no bit but possibly the top. */
  lemma WordWide(ones: bv64)
    ensures (forall u :: ReadsRight(u, ones)) <==> ones & !TOP == 0
  {
    if forall u :: ReadsRight(u, ones) {
      assert ReadsRight(TOP, ones);
      TopOnly(ones);
    } else {
      var u :| !ReadsRight(u, ones);
      AddsNothing(u, ones);
    }
  }

  lemma TopOnly(ones: bv64)
    requires TOP | ones == TOP
    ensures ones & !TOP == 0
  {
  }

  lemma AddsNothing(u: bv64, ones: bv64)
    ensures ones & !TOP == 0 ==> ReadsRight(u, ones)
  {
  }

  /** Writes the low `bits` bits of the value and touches no other bit. */
  method SetUnsignedBitfield(p: array<bv8>, offset: nat, bits: nat, value: nat)
    requires offset + bits <= 8 * p.Length
    modifies p
    ensures Field(p[..], offset, bits) == value % Pow2(bits)
    ensures forall i: nat :: i < offset || offset + bits <= i ==> Bit(p[..], i) == Bit(old(p[..]), i)
  {
    hide Mask, Bit, WithBit;
    for j := 0 to bits
      invariant forall i: nat :: offset <= i < offset + j ==> Bit(p[..], i) == TestBit(value, offset + bits - 1 - i)
      invariant forall i: nat :: i < offset || offset + j <= i ==> Bit(p[..], i) == Bit(old(p[..]), i)
    {
      var bitval := TestBit(value, bits - 1 - j);
      var at := offset + j;
      var byte, bit := at / 8, 7 - at % 8;
      ghost var s := p[..];
      p[byte] := WithBit(p[byte], bit, bitval);
      assert p[..] == s[byte := WithBit(s[byte], bit, bitval)];
      forall i: nat ensures Bit(p[..], i) == if i == at then bitval else Bit(s, i) {
        UpdateAt(s, at, bitval, i);
      }
    }
    FieldIs(p[..], offset, bits, value);
  }

  method SetSignedBitfield(p: array<bv8>, offset: nat, bits: nat, value: int)
    requires offset + bits <= 8 * p.Length && 1 <= bits <= 64
    modifies p
    ensures SignedOf(Field(p[..], offset, bits), bits) == WrapS(value, bits)
    ensures forall i: nat :: i < offset || offset + bits <= i ==> Bit(p[..], i) == Bit(old(p[..]), i)
  {
    SetUnsignedBitfield(p, offset, bits, U64(value));
    LowBits(value, bits);
  }

  /** A value that fits survives: wrapping it changes nothing. */
  lemma WrapFits(x: int, bits: nat)
    requires 1 <= bits <= 64
    ensures MinS(bits) <= WrapS(x, bits) <= MaxS(bits)
    ensures MinS(bits) <= x <= MaxS(bits) ==> WrapS(x, bits) == x
  {
    FitsWord(bits);
    var p := Pow2(bits);
    if MinS(bits) <= x < 0 {
      IntDivIs(x, p, -1, x + p);
    } else if 0 <= x <= MaxS(bits) {
      IntDivIs(x, p, 0, x);
    }
  }

  /** And of all values that fit, the wrapped one is the one that differs from it by a
      multiple of the width. */
  lemma WrapUnique(x: int, y: int, k: int, bits: nat)
    requires 1 <= bits <= 64 && MinS(bits) <= y <= MaxS(bits) && x == k * Pow2(bits) + y
    ensures WrapS(x, bits) == y
  {
    FitsWord(bits);
    var p := Pow2(bits);
    if y < 0 {
      assert (k - 1) * p == k * p - p;
      IntDivIs(x, p, k - 1, y + p);
    } else {
      IntDivIs(x, p, k, y);
    }
  }

  // ---------------------------------------------------------------- overflow

  datatype Policy = Wrap | Sat | Fail

  lemma Cast(x: int)
    ensures IsI64(x) ==> I64(x) == x
    ensures TWO63 <= x < TWO64 ==> I64(x) == x - TWO64
    ensures -TWO64 <= x < -TWO63 ==> I64(x) == x + TWO64
  {
  }

  lemma CastBack(x: int)
    ensures IsI64(x) ==> I64(U64(x)) == x
  {
  }

  /** Zero if the sum fits; otherwise not, and `limit` is what to store instead. */
  method CheckUnsignedBitfieldOverflow(value: nat, incr: int, bits: nat, policy: Policy) returns (code: int, limit: nat)
    requires value < TWO64 && IsI64(incr) && 1 <= bits <= 63
    ensures code == 0 <==> value <= MaxU(bits) && 0 <= value + incr <= MaxU(bits)
    ensures code != 0 && policy == Wrap ==> limit == (value + incr) % Pow2(bits)
    ensures code != 0 && policy == Sat ==> limit == if value > MaxU(bits) || value + incr > MaxU(bits) then MaxU(bits) else 0
  {
    hide I64, U64;
    FitsWord(bits);
    LowBits(value + incr, bits);
    var max := Pow2(bits) - 1;
    CastBack(max - value);
    CastBack(0 - value);
    var maxincr := I64(U64(max - value));
    var minincr := I64(U64(0 - value));
    code, limit := 0, 0;
    if value > max || (incr > 0 && incr > maxincr) {
      code := 1;
      if policy == Wrap {
        limit := U64(value + incr) % Pow2(bits);
      } else if policy == Sat {
        limit := max;
      }
    } else if incr < 0 && incr < minincr {
      code := -1;
      if policy == Wrap {
        code := 1;
        limit := U64(value + incr) % Pow2(bits);
      } else if policy == Sat {
        limit := 0;
      }
    }
  }

  /** The wrapped sum: the low bits, with the sign bit spread upwards. */
  method WrapSigned(value: int, incr: int, bits: nat) returns (r: int)
    requires 1 <= bits <= 64
    ensures r == WrapS(value + incr, bits)
  {
    FitsWord(bits);
    var c := U64(value + incr);
    LowBits(value + incr, bits);
    var low := c % Pow2(bits);
    TestLow(c, bits, bits - 1);
    TopBit(low, bits - 1);
    if TestBit(c, bits - 1) {
      r := I64(low + HighOnes(bits));
    } else {
      r := low;
    }
  }

  /** As above for signed numbers. A value that does not fit to begin with, as SET may
      be given, is always noticed; it saturates to the bound on its own side exactly
      when the distance to the upper bound is a 64-bit number. */
  method CheckSignedBitfieldOverflow(value: int, incr: int, bits: nat, policy: Policy) returns (code: int, limit: int)
    requires IsI64(value) && IsI64(incr) && 1 <= bits <= 64
    ensures code == 0 <==> MinS(bits) <= value <= MaxS(bits) && MinS(bits) <= value + incr <= MaxS(bits)
    ensures code != 0 && policy == Wrap ==> limit == WrapS(value + incr, bits)
    ensures code != 0 && policy == Sat && MinS(bits) <= value <= MaxS(bits) ==>
              limit == Clamp(value + incr, MinS(bits), MaxS(bits))
    ensures code != 0 && policy == Sat ==> limit == MinS(bits) || limit == MaxS(bits)
    ensures code != 0 && policy == Sat && incr == 0 ==>
              (limit == Clamp(value, MinS(bits), MaxS(bits)) <==> value >= MaxS(bits) - INT64_MAX)
  {
    hide I64;
    FitsWord(bits);
    var max := Pow2(bits - 1) - 1;
    var min := -max - 1;
    Cast(max - value);
    Cast(min - value);
    var maxincr := I64(max - value);
    var minincr := I64(min - value);
    code, limit := 0, 0;
    var wrapped := WrapSigned(value, incr, bits);
    if value > max || (bits != 64 && incr > maxincr) || (value >= 0 && incr > 0 && incr > maxincr) {
      code := 1;
      if policy == Wrap {
        limit := wrapped;
      } else if policy == Sat {
        limit := max;
      }
    } else if value < min || (bits != 64 && incr < minincr) || (value < 0 && incr < 0 && incr < minincr) {
      code := -1;
      if policy == Wrap {
        code := 1;
        limit := wrapped;
      } else if policy == Sat {
        limit := min;
      }
    }
  }

  // ---------------------------------------------------------------- BITFIELD

  datatype Opcode = Get | Set(value: int) | IncrBy(value: int)

  datatype Operation = Operation(opcode: Opcode, offset: nat, bits: nat, sign: bool, policy: Policy)

  predicate Valid(op: Operation) {
    && 1 <= op.bits <= (if op.sign then 64 else 63)
    && (op.opcode.Set? ==> IsI64(op.opcode.value)) && (op.opcode.IncrBy? ==> IsI64(op.opcode.value))
  }

  predicate InRange(x: int, op: Operation)
    requires Valid(op)
  {
    if op.sign then MinS(op.bits) <= x <= MaxS(op.bits) else 0 <= x <= MaxU(op.bits)
  }

  /** The number of the field as the operation's type reads it. */
  function Read(s: seq<bv8>, op: Operation): int
    requires Valid(op)
  {
    var u := Field(s, op.offset, op.bits);
    if op.sign then SignedOf(u, op.bits) else u
  }

  /** What a SET or INCRBY asks to store; an unsigned SET takes its value as unsigned. */
  function Wanted(former: int, op: Operation): int
    requires Valid(op) && !op.opcode.Get?
  {
    match op.opcode
    case Set(v) => if op.sign then v else U64(v)
    case IncrBy(v) => former + v
  }

  function Wrapped(x: int, op: Operation): int
    requires Valid(op)
  {
    if op.sign then WrapS(x, op.bits) else x % Pow2(op.bits)
  }

  function Saturated(x: int, op: Operation): int
    requires Valid(op)
  {
    if op.sign then Clamp(x, MinS(op.bits), MaxS(op.bits)) else Clamp(x, 0, MaxU(op.bits))
  }

  /** The only case in which saturation misses: a signed SET of a value whose distance
      to the upper bound is not a 64-bit number. */
  predicate TooFar(op: Operation)
    requires Valid(op)
  {
    op.sign && op.bits < 64 && op.opcode.Set? && op.policy == Sat && op.opcode.value < MaxS(op.bits) - INT64_MAX
  }

  /** The value to store for `want`, if any. */
  function Outcome(want: int, op: Operation): int
    requires Valid(op)
  {
    if InRange(want, op) then want
    else if op.policy == Wrap then Wrapped(want, op)
    else if TooFar(op) then MaxS(op.bits) else Saturated(want, op)
  }

  method DecideUnsigned(oldval: nat, op: Operation) returns (overflow: bool, newval: int)
    requires Valid(op) && !op.opcode.Get? && !op.sign && oldval <= MaxU(op.bits)
    ensures overflow == !InRange(Wanted(oldval, op), op)
    ensures !overflow || op.policy != Fail ==> newval == Outcome(Wanted(oldval, op), op) && 0 <= newval < Pow2(op.bits)
  {
    hide U64;
    FitsWord(op.bits);
    var code: int, wrapped: int;
    if op.opcode.IncrBy? {
      newval := U64(oldval + op.opcode.value);
      SmallU64(oldval + op.opcode.value);
      code, wrapped := CheckUnsignedBitfieldOverflow(oldval, op.opcode.value, op.bits, op.policy);
    } else {
      newval := U64(op.opcode.value);
      SmallU64(op.opcode.value);
      code, wrapped := CheckUnsignedBitfieldOverflow(newval, 0, op.bits, op.policy);
    }
    overflow := code != 0;
    if overflow {
      newval := wrapped;
    }
  }

  method StoreUnsigned(p: array<bv8>, op: Operation) returns (reply: Option<int>)
    requires Valid(op) && !op.opcode.Get? && !op.sign && op.offset + op.bits <= 8 * p.Length
    modifies p
    ensures Stored(old(p[..]), p[..], op, reply)
  {
    hide Bit, U64, Field, Outcome, InRange, Pow2, Wanted;
    var oldval := GetUnsignedBitfield(p, op.offset, op.bits);
    var overflow, newval := DecideUnsigned(oldval, op);
    if overflow && op.policy == Fail {
      return None;
    }
    SetUnsignedBitfield(p, op.offset, op.bits, newval);
    SmallMod(newval, Pow2(op.bits));
    reply := Some(if op.opcode.IncrBy? then newval else oldval);
  }

  method DecideSigned(oldval: int, op: Operation) returns (overflow: bool, newval: int)
    requires Valid(op) && !op.opcode.Get? && op.sign && MinS(op.bits) <= oldval <= MaxS(op.bits)
    ensures overflow == !InRange(Wanted(oldval, op), op)
    ensures !overflow || op.policy != Fail ==>
              newval == Outcome(Wanted(oldval, op), op) && MinS(op.bits) <= newval <= MaxS(op.bits)
  {
    hide I64, WrapS;
    FitsWord(op.bits);
    var code: int, wrapped: int;
    if op.opcode.IncrBy? {
      newval := I64(oldval + op.opcode.value);
      Cast(oldval + op.opcode.value);
      code, wrapped := CheckSignedBitfieldOverflow(oldval, op.opcode.value, op.bits, op.policy);
    } else {
      newval := op.opcode.value;
      code, wrapped := CheckSignedBitfieldOverflow(newval, 0, op.bits, op.policy);
    }
    overflow := code != 0;
    if overflow {
      newval := wrapped;
    }
    WrapFits(Wanted(oldval, op), op.bits);
  }

  method StoreSigned(p: array<bv8>, op: Operation) returns (reply: Option<int>)
    requires Valid(op) && !op.opcode.Get? && op.sign && op.offset + op.bits <= 8 * p.Length
    modifies p
    ensures Stored(old(p[..]), p[..], op, reply)
  {
    hide Bit, I64, WrapS, Field, Outcome, InRange, Pow2, Wanted, SignedOf;
    var oldval := GetSignedBitfield(p, op.offset, op.bits);
    var overflow, newval := DecideSigned(oldval, op);
    if overflow && op.policy == Fail {
      return None;
    }
    WrapFits(newval, op.bits);
    SetSignedBitfield(p, op.offset, op.bits, newval);
    reply := Some(if op.opcode.IncrBy? then newval else oldval);
  }

  /** GET copies up to nine bytes into a zeroed buffer and reads there: the same as
      reading the string with zeros after its end. */
  method GetField(src: seq<bv8>, op: Operation) returns (value: int)
    requires Valid(op)
    ensures value == Read(src, op)
  {
    hide Bit, Field, SignedOf;
    var buf := new bv8[9](_ => 0);
    var byte := op.offset / 8;
    var i := 0;
    while i < 9 && i + byte < |src|
      invariant 0 <= i <= 9
      invariant forall k :: 0 <= k < i ==> k + byte < |src| && buf[k] == src[k + byte]
      invariant forall k :: i <= k < 9 ==> buf[k] == 0
    {
      buf[i] := src[i + byte];
      i := i + 1;
    }
    var off := op.offset - byte * 8;
    Copied(src, buf[..], byte, op.offset, op.bits);
    FieldSame(src, op.offset, buf[..], off, op.bits);
    if op.sign {
      value := GetSignedBitfield(buf, off, op.bits);
    } else {
      value := GetUnsignedBitfield(buf, off, op.bits);
    }
  }

  /** The bits of the copy are the bits of the string. */
  lemma Copied(src: seq<bv8>, buf: seq<bv8>, byte: nat, offset: nat, bits: nat)
    requires |buf| == 9 && byte == offset / 8 && bits <= 64
    requires forall k :: 0 <= k < 9 ==> buf[k] == if k + byte < |src| then src[k + byte] else 0
    ensures SameBits(src, offset, buf, offset - byte * 8, bits)
  {
    hide BitOf;
    forall i | offset <= i < offset + bits ensures Bit(src, i) == Bit(buf, offset - byte * 8 + (i - offset)) {
      CopiedBit(src, buf, byte, i);
    }
  }

  lemma CopiedBit(src: seq<bv8>, buf: seq<bv8>, byte: nat, i: nat)
    requires |buf| == 9 && byte * 8 <= i < byte * 8 + 72
    requires forall k :: 0 <= k < 9 ==> buf[k] == if k + byte < |src| then src[k + byte] else 0
    ensures Bit(src, i) == Bit(buf, i - byte * 8)
  {
    hide Mask;
    var k := i - byte * 8;
    assert k / 8 == i / 8 - byte && k % 8 == i % 8;
    assert buf[k / 8] == if i / 8 < |src| then src[i / 8] else 0;
  }

  /** A value too far below the range saturates to the wrong end: an 8-bit field set to
      the least 64-bit number becomes 127 instead of -128. */
  lemma SaturationMisses(op: Operation)
    requires Valid(op) && TooFar(op)
    ensures Saturated(Wanted(0, op), op) == MinS(op.bits) < MaxS(op.bits)
    ensures var set8 := Operation(Set(-TWO63), 0, 8, true, Sat); Valid(set8) && TooFar(set8) && MinS(8) == -128 && MaxS(8) == 127
  {
    FitsWord(op.bits);
    assert Pow2(7) == 128;
  }

  /** A SET or INCRBY was carried out: the value asked for if it fits, otherwise what
      the policy says, nothing under Fail; the bits outside the field are untouched;
      SET replies the former value, INCRBY the new one. */
  ghost predicate Stored(s: seq<bv8>, t: seq<bv8>, op: Operation, reply: Option<int>)
    requires Valid(op) && !op.opcode.Get?
  {
    var want := Wanted(Read(s, op), op);
    if !InRange(want, op) && op.policy == Fail then t == s && reply == None
    else
      && (forall i: nat :: i < op.offset || op.offset + op.bits <= i ==> Bit(t, i) == Bit(s, i))
      && Read(t, op) == Outcome(want, op)
      && reply == Some(if op.opcode.Set? then Read(s, op) else Read(t, op))
  }

  lemma SmallU64(x: int)
    ensures 0 <= x < TWO64 ==> U64(x) == x
    ensures U64(x) < TWO64
  {
  }

  lemma SmallMod(x: int, p: nat)
    requires p > 0
    ensures 0 <= x < p ==> x % p == x
  {
  }

  /** The bytes needed for all writes: up to the last bit any of them touches. */
  function Needed(ops: seq<Operation>): nat {
    if ops == [] then 0
    else
      var last := ops[|ops| - 1];
      var n := Needed(ops[..|ops| - 1]);
      var m := (last.offset + last.bits + 7) / 8;
      if !last.opcode.Get? && m > n then m else n
  }

  lemma {:induction false} NeededCovers(ops: seq<Operation>, j: nat)
    requires j < |ops| && !ops[j].opcode.Get?
    ensures ops[j].offset + ops[j].bits <= 8 * Needed(ops)
    decreases |ops|
  {
    if j < |ops| - 1 {
      NeededCovers(ops[..|ops| - 1], j);
    }
  }

  /** One operation of a command, from string `s` to string `t`. */
  ghost predicate Performed(s: seq<bv8>, t: seq<bv8>, op: Operation, reply: Option<int>)
    requires Valid(op)
  {
    if op.opcode.Get? then t == s && reply == Some(Read(s, op)) else Stored(s, t, op, reply)
  }

  /** The execution loop, on a string already grown, with zeros, for all its writes:
      each operation acts on what the ones before left. */
  method Execute(p: array<bv8>, ops: seq<Operation>) returns (replies: seq<Option<int>>, ghost trace: seq<seq<bv8>>)
    requires (forall j :: 0 <= j < |ops| ==> Valid(ops[j])) && Needed(ops) <= p.Length
    modifies p
    ensures |replies| == |ops| && |trace| == |ops| + 1 && trace[0] == old(p[..]) && trace[|ops|] == p[..]
    ensures forall j :: 0 <= j < |ops| ==> Performed(trace[j], trace[j + 1], ops[j], replies[j])
  {
    hide Stored, Bit, Needed, Read;
    replies, trace := [], [p[..]];
    for j := 0 to |ops|
      invariant |replies| == j && |trace| == j + 1 && trace[0] == old(p[..]) && trace[j] == p[..]
      invariant forall i :: 0 <= i < j ==> Performed(trace[i], trace[i + 1], ops[i], replies[i])
    {
      var op := ops[j];
      var reply: Option<int>;
      if op.opcode.Get? {
        var value := GetField(p[..], op);
        reply := Some(value);
      } else {
        NeededCovers(ops, j);
        if op.sign {
          reply := StoreSigned(p, op);
        } else {
          reply := StoreUnsigned(p, op);
        }
      }
      replies := replies + [reply];
      trace := trace + [p[..]];
    }
  }

  /** The command: the string is grown with zeros for the farthest write, and only then,
      before its operations are carried out. */
  method BitfieldCommand(data: seq<bv8>, ops: seq<Operation>)
    returns (res: seq<bv8>, replies: seq<Option<int>>, ghost trace: seq<seq<bv8>>)
    requires forall j :: 0 <= j < |ops| ==> Valid(ops[j])
    ensures |replies| == |ops| && |trace| == |ops| + 1 && res == trace[|ops|]
    ensures |trace[0]| == (if Needed(ops) > |data| then Needed(ops) else |data|) && forall i: nat :: Bit(trace[0], i) == Bit(data, i)
    ensures forall j :: 0 <= j < |ops| ==> Performed(trace[j], trace[j + 1], ops[j], replies[j])
  {
    hide Performed;
    var n := Needed(ops);
    var size := if n > |data| then n else |data|;
    var p := new bv8[size](i => if 0 <= i < |data| then data[i] else 0);
    Extended(data, p[..]);
    replies, trace := Execute(p, ops);
    res := p[..];
  }

  /** Zeros after the end change no bit. */
  lemma Extended(s: seq<bv8>, t: seq<bv8>)
    requires |s| <= |t| && forall i :: 0 <= i < |t| ==> t[i] == if i < |s| then s[i] else 0
    ensures forall i: nat :: Bit(t, i) == Bit(s, i)
  {
    hide Mask;
  }

  /** INCRBY in numbers: a sum that fits is stored and replied. One that does not is
      refused under FAIL, nothing changing; under SAT the nearer bound, under WRAP the
      number in range that differs by a multiple of the width, is stored and replied. */
  lemma IncrByMeans(s: seq<bv8>, t: seq<bv8>, op: Operation, reply: Option<int>)
    requires Valid(op) && op.opcode.IncrBy? && Stored(s, t, op, reply)
    ensures var lo, hi := if op.sign then 0 - Pow2(op.bits - 1) else 0, (if op.sign then Pow2(op.bits - 1) else Pow2(op.bits)) - 1;
            var sum := Read(s, op) + op.opcode.value;
            && (lo <= sum <= hi ==> Read(t, op) == sum && reply == Some(sum))
            && (!(lo <= sum <= hi) && op.policy == Fail ==> t == s && reply == None)
            && (!(lo <= sum <= hi) && op.policy == Sat ==> Read(t, op) == (if sum > hi then hi else lo) && reply == Some(Read(t, op)))
            && (!(lo <= sum <= hi) && op.policy == Wrap ==>
                  lo <= Read(t, op) <= hi && (sum - Read(t, op)) % Pow2(op.bits) == 0 && reply == Some(Read(t, op)))
  {
    hide Bit, Read, Pow2;
    var sum := Read(s, op) + op.opcode.value;
    FitsWord(op.bits);
    if op.sign {
      WrapFits(sum, op.bits);
    }
    WrapCongruent(sum, op);
  }

  lemma WrapCongruent(x: int, op: Operation)
    requires Valid(op)
    ensures (x - Wrapped(x, op)) % Pow2(op.bits) == 0
  {
    hide Pow2;
    var p := Pow2(op.bits);
    var q, r := x / p, x % p;
    assert x == q * p + r;
    if op.sign && r >= Pow2(op.bits - 1) {
      assert x - Wrapped(x, op) == (q + 1) * p by { assert (q + 1) * p == q * p + p; }
      IntDivIs((q + 1) * p, p, q + 1, 0);
    } else {
      IntDivIs(q * p, p, q, 0);
    }
  }

  /** Reading back: after a SET of a value that fits, GET of the same field returns it,
      whatever was there; GET of a field apart from it returns what it did. */
  lemma SetThenGet(s: seq<bv8>, t: seq<bv8>, op: Operation, reply: Option<int>, other: Operation)
    requires Valid(op) && op.opcode.Set? && Stored(s, t, op, reply) && Valid(other)
    requires InRange(Wanted(Read(s, op), op), op)
    ensures Read(t, op) == Wanted(Read(s, op), op) && reply == Some(Read(s, op))
    ensures other.offset + other.bits <= op.offset || op.offset + op.bits <= other.offset ==> Read(t, other) == Read(s, other)
  {
    hide Bit;
    if other.offset + other.bits <= op.offset || op.offset + op.bits <= other.offset {
      FieldSame(t, other.offset, s, other.offset, other.bits);
    }
  }
}
