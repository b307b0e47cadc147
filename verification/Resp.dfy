/** The bytes of the append-only file: commands are printed as RESP arrays of
    bulk strings, and read back one command at a time.

    `ReadCommand` follows the loader byte by byte (line reads of at most 127
    bytes, `atoi`/`strtol` on the line, a raw read of the announced length, two
    bytes discarded); it says how many bytes one command used, or why none could
    be read.  The lemmas say that it undoes the printer and that every proper,
    non-empty prefix of a printed command is a short read. */
module Resp {

  newtype Byte = x: int | 0 <= x < 256
  type Bytes = seq<Byte>
  type Argv = seq<Bytes>

  const LF: Byte := 10
  const CR: Byte := 13
  const SPACE: Byte := 32
  const DOLLAR: Byte := 36
  const STAR: Byte := 42
  const PLUS: Byte := 43
  const MINUS: Byte := 45
  const ZERO: Byte := 48

  const CRLF: Bytes := [CR, LF]

  /** The most bytes one `fgets` call returns for the loader's 128-byte buffer. */
  const LINE_MAX := 127

  // ---------------------------------------------------------------- numbers

  predicate IsDigit(b: Byte) {
    48 <= b <= 57
  }

  function Digits(n: nat): (s: Bytes)
    ensures 1 <= |s|
    ensures forall i :: 0 <= i < |s| ==> IsDigit(s[i])
  {
    if n < 10 then [ZERO + n as Byte] else Digits(n / 10) + [ZERO + (n % 10) as Byte]
  }

  /** The decimal text of a signed number, as `ll2string` writes it. */
  function Decimal(n: int): (s: Bytes)
    ensures 1 <= |s|
  {
    if n < 0 then [MINUS] + Digits(-n) else Digits(n)
  }

  /** The value of the leading digits of `s`, continuing from `acc`. */
  function LeadingDigits(acc: nat, s: Bytes): nat
    decreases |s|
  {
    if s == [] || !IsDigit(s[0]) then acc
    else LeadingDigits(acc * 10 + (s[0] as int - 48), s[1..])
  }

  predicate IsSpace(b: Byte) {
    b == SPACE || 9 <= b <= 13
  }

  function SkipSpaces(s: Bytes): Bytes
    decreases |s|
  {
    if s != [] && IsSpace(s[0]) then SkipSpaces(s[1..]) else s
  }

  /** `atoi`, `strtol`, `strtoll` in base ten: leading blanks, one optional
      sign, digits up to the first other byte. */
  function ParseInt(s: Bytes): int
  {
    var t := SkipSpaces(s);
    if t == [] then 0
    else if t[0] == MINUS then -(LeadingDigits(0, t[1..]) as int)
    else if t[0] == PLUS then LeadingDigits(0, t[1..])
    else LeadingDigits(0, t)
  }

  lemma {:induction false} LeadingDigitsConcat(acc: nat, d: Bytes, t: Bytes)
    requires forall i :: 0 <= i < |d| ==> IsDigit(d[i])
    ensures LeadingDigits(acc, d + t) == LeadingDigits(LeadingDigits(acc, d), t)
    decreases |d|
  {
    if d == [] {
      assert d + t == t;
    } else {
      assert (d + t)[1..] == d[1..] + t;
      LeadingDigitsConcat(acc * 10 + (d[0] as int - 48), d[1..], t);
    }
  }

  lemma {:induction false} DigitsValue(n: nat)
    ensures LeadingDigits(0, Digits(n)) == n
  {
    if n < 10 {
      assert Digits(n)[1..] == [];
    } else {
      var last := [ZERO + (n % 10) as Byte];
      DigitsValue(n / 10);
      LeadingDigitsConcat(0, Digits(n / 10), last);
      assert last[1..] == [];
    }
  }

  /** Reading a printed number gives the number back, whatever follows it, as
      long as no digit does. */
  lemma ParseDecimal(n: int, t: Bytes)
    requires t == [] || !IsDigit(t[0])
    ensures ParseInt(Decimal(n) + t) == n
  {
    hide Digits;
    var d := Digits(if n < 0 then -n else n);
    DigitsValue(if n < 0 then -n else n);
    LeadingDigitsConcat(0, d, t);
    assert !IsSpace(d[0]) && d[0] != MINUS && d[0] != PLUS by { assert IsDigit(d[0]); }
    var s := Decimal(n) + t;
    assert SkipSpaces(s) == s;
    if n < 0 {
      assert s[1..] == d + t;
    } else {
      assert s[0] == d[0];
    }
  }

  /** Reading a number skips blanks, takes one sign or none, and stops at the first byte
      that is no digit; without digits it is zero. */
  lemma ParseForms(blanks: Bytes, n: nat, t: Bytes)
    requires (forall i :: 0 <= i < |blanks| ==> blanks[i] == SPACE || 9 <= blanks[i] <= 13) && (t == [] || !IsDigit(t[0]))
    ensures ParseInt(blanks + (Digits(n) + t)) == n == ParseInt(blanks + ([PLUS] + (Digits(n) + t)))
    ensures ParseInt(blanks + ([MINUS] + (Digits(n) + t))) == 0 - n
    ensures ParseInt(blanks + ([MINUS] + t)) == ParseInt(blanks + ([PLUS] + t)) == ParseInt(blanks) == 0
  {
    hide Digits, LeadingDigits;
    var d := Digits(n) + t;
    DigitsValue(n);
    LeadingDigitsConcat(0, Digits(n), t);
    NoDigits(n, t);
    NoDigits(0, t);
    assert IsDigit(d[0]) by { assert d[0] == Digits(n)[0]; }
    Blanks(blanks, d);
    Blanks(blanks, [PLUS] + d);
    Blanks(blanks, [MINUS] + d);
    Blanks(blanks, [PLUS] + t);
    Blanks(blanks, [MINUS] + t);
    Blanks(blanks, []);
    assert blanks + [] == blanks;
    assert ([PLUS] + d)[1..] == d && ([MINUS] + d)[1..] == d && ([PLUS] + t)[1..] == t && ([MINUS] + t)[1..] == t;
  }

  lemma NoDigits(acc: nat, t: Bytes)
    requires t == [] || !IsDigit(t[0])
    ensures LeadingDigits(acc, t) == acc
  {
  }

  lemma {:induction false} Blanks(blanks: Bytes, t: Bytes)
    requires forall i :: 0 <= i < |blanks| ==> blanks[i] == SPACE || 9 <= blanks[i] <= 13
    requires t == [] || !IsSpace(t[0])
    ensures SkipSpaces(blanks + t) == t
    decreases |blanks|
  {
    if blanks == [] {
      assert blanks + t == t;
    } else {
      assert (blanks + t)[1..] == blanks[1..] + t;
      Blanks(blanks[1..], t);
    }
  }

  // ---------------------------------------------------------------- printing

  /** A tag, a number and the line end. */
  function NumberLine(tag: Byte, n: nat): (s: Bytes)
    ensures |s| == |Digits(n)| + 3 && s[0] == tag && IsDigit(s[1]) && s[1..] == Digits(n) + CRLF
  {
    [tag] + (Digits(n) + CRLF)
  }

  function EncodeBulk(arg: Bytes): (s: Bytes)
    ensures |s| > |arg| + 5
  {
    NumberLine(DOLLAR, |arg|) + (arg + CRLF)
  }

  function EncodeBulks(argv: Argv): Bytes
  {
    if argv == [] then [] else EncodeBulk(argv[0]) + EncodeBulks(argv[1..])
  }

  function EncodeCommand(argv: Argv): (s: Bytes)
    ensures |s| > 0
  {
    NumberLine(STAR, |argv|) + EncodeBulks(argv)
  }

  function EncodeAll(cmds: seq<Argv>): Bytes
  {
    if cmds == [] then [] else EncodeCommand(cmds[0]) + EncodeAll(cmds[1..])
  }

  lemma {:induction false} EncodeBulksConcat(a: Argv, b: Argv)
    ensures EncodeBulks(a + b) == EncodeBulks(a) + EncodeBulks(b)
    decreases |a|
  {
    if a == [] {
      assert a + b == b;
    } else {
      assert (a + b)[1..] == a[1..] + b;
      EncodeBulksConcat(a[1..], b);
    }
  }

  lemma {:induction false} EncodeAllConcat(a: seq<Argv>, b: seq<Argv>)
    ensures EncodeAll(a + b) == EncodeAll(a) + EncodeAll(b)
    decreases |a|
  {
    if a == [] {
      assert a + b == b;
    } else {
      assert (a + b)[1..] == a[1..] + b;
      EncodeAllConcat(a[1..], b);
    }
  }

  lemma EncodeAllSingle(c: Argv)
    ensures EncodeAll([c]) == EncodeCommand(c)
  {
    assert [c][1..] == [];
  }

  lemma EncodeBulksSnoc(argv: Argv, j: nat)
    requires j < |argv|
    ensures EncodeBulks(argv[..j + 1]) == EncodeBulks(argv[..j]) + EncodeBulk(argv[j])
  {
    assert argv[..j + 1] == argv[..j] + [argv[j]];
    EncodeBulksConcat(argv[..j], [argv[j]]);
    assert [argv[j]][1..] == [];
  }

  /** The printer: one header, then every argument with its length. */
  method CatAppendOnlyGenericCommand(dst: Bytes, argv: Argv) returns (r: Bytes)
    ensures r == dst + EncodeCommand(argv)
  {
    hide NumberLine;
    var head := dst + NumberLine(STAR, |argv|);
    r := head;
    for j := 0 to |argv|
      invariant r == head + EncodeBulks(argv[..j])
    {
      r := r + NumberLine(DOLLAR, |argv[j]|) + argv[j] + CRLF;
      assert r == head + (EncodeBulks(argv[..j]) + EncodeBulk(argv[j]));
      EncodeBulksSnoc(argv, j);
    }
    assert argv[..|argv|] == argv;
  }

  /** The format in bytes: `*2`, `$10`, ten bytes, `$0`, each line ended by CR LF. */
  lemma WireFormat(ten: Bytes)
    requires |ten| == 10
    ensures EncodeCommand([ten, []]) ==
            [42, 50, 13, 10] + [36, 49, 48, 13, 10] + ten + [13, 10] + [36, 48, 13, 10] + [13, 10]
    ensures Decimal(-205) == [45, 50, 48, 53]
  {
    hide Digits, NumberLine;
    SomeDigits();
    var argv: Argv := [ten, []];
    assert argv[1..][0] == [] && argv[1..][1..] == [];
    assert EncodeBulks(argv[1..]) == EncodeBulk([]) + EncodeBulks(argv[1..][1..]);
    assert EncodeBulks(argv[1..][1..]) == [];
    assert EncodeBulks(argv) == EncodeBulk(ten) + (EncodeBulk([]) + []);
  }

  lemma SomeDigits()
    ensures NumberLine(STAR, 2) == [42, 50, 13, 10] && NumberLine(DOLLAR, 0) == [36, 48, 13, 10]
    ensures NumberLine(DOLLAR, 10) == [36, 49, 48, 13, 10] && Digits(205) == [50, 48, 53]
  {
    assert Digits(2) == [50] && Digits(0) == [48] && Digits(1) == [49];
    assert Digits(10) == Digits(1) + [48];
    assert Digits(20) == Digits(2) + [48] && Digits(205) == Digits(20) + [53];
  }

  // ---------------------------------------------------------------- reading

  /** How many bytes `fgets` takes from `s`: up to and including the first line
      feed, at most `max`. */
  function LineLen(s: Bytes, max: nat): (n: nat)
    ensures n <= |s| && n <= max
    ensures s != [] && max > 0 ==> n > 0
    decreases max
  {
    if s == [] || max == 0 then 0
    else if s[0] == LF then 1
    else 1 + LineLen(s[1..], max - 1)
  }

  datatype Arg = Arg(data: Bytes, used: nat) | ArgShort | ArgBad

  /** One `$<len>` line, `len` raw bytes and two discarded bytes. A negative
      length stops the process like a malformed line does. */
  function ReadArg(s: Bytes): (r: Arg)
    ensures r.Arg? ==> 0 < r.used <= |s|
  {
    if s == [] then ArgShort
    else if s[0] != DOLLAR then ArgBad
    else
      var line := LineLen(s, LINE_MAX);
      var len := ParseInt(s[1..line]);
      if len < 0 then ArgBad
      else if |s| < line + len + 2 then ArgShort
      else Arg(s[line..line + len], line + len + 2)
  }

  datatype Args = Args(argv: Argv, used: nat) | ArgsShort | ArgsBad

  function ReadArgs(s: Bytes, argc: nat): (r: Args)
    ensures r.Args? ==> |r.argv| == argc && r.used <= |s|
    decreases argc
  {
    if argc == 0 then Args([], 0)
    else
      match ReadArg(s)
      case ArgShort => ArgsShort
      case ArgBad => ArgsBad
      case Arg(data, used) =>
        match ReadArgs(s[used..], argc - 1)
        case ArgsShort => ArgsShort
        case ArgsBad => ArgsBad
        case Args(rest, more) => Args([data] + rest, used + more)
  }

  datatype Read =
    | EndOfFile
    | Command(argv: Argv, used: nat)
    | ShortRead
    | BadFormat

  /** True when the line read from `s` ran into the end of the file. */
  predicate HitsEnd(s: Bytes) {
    var line := LineLen(s, LINE_MAX);
    line == |s| && line < LINE_MAX && (line == 0 || s[line - 1] != LF)
  }

  function ReadCommand(s: Bytes): (r: Read)
    ensures r.Command? ==> |r.argv| >= 1 && 0 < r.used <= |s|
    ensures r.EndOfFile? <==> s == []
  {
    if s == [] then EndOfFile
    else if s[0] != STAR then BadFormat
    else
      var line := LineLen(s, LINE_MAX);
      if line == 1 then ShortRead
      else if s[1] == 0 then (if HitsEnd(s) then ShortRead else BadFormat)
      else
        var argc := ParseInt(s[1..line]);
        if argc < 1 then BadFormat
        else
          match ReadArgs(s[line..], argc)
          case ArgsShort => ShortRead
          case ArgsBad => BadFormat
          case Args(argv, used) => Command(argv, line + used)
  }

  // ------------------------------------------------- the reader undoes the printer

  lemma ConcatAssoc(a: Bytes, b: Bytes, c: Bytes)
    ensures (a + b) + c == a + (b + c)
  {
  }

  lemma CutConcat(a: Bytes, b: Bytes, cut: nat)
    requires cut <= |a| + |b|
    ensures (a + b)[..cut] == if cut < |a| then a[..cut] else a + b[..cut - |a|]
  {
  }

  lemma {:induction false} LineLenAt(s: Bytes, max: nat, k: nat)
    requires k < |s| && k < max && s[k] == LF
    requires forall i :: 0 <= i < k ==> s[i] != LF
    ensures LineLen(s, max) == k + 1
    decreases k
  {
    if k > 0 {
      LineLenAt(s[1..], max - 1, k - 1);
    }
  }

  lemma {:induction false} LineLenAll(s: Bytes, max: nat)
    requires |s| <= max
    requires forall i :: 0 <= i < |s| ==> s[i] != LF
    ensures LineLen(s, max) == |s|
    decreases |s|
  {
    if s != [] {
      LineLenAll(s[1..], max - 1);
    }
  }

  /** Counts and lengths are 64-bit numbers; their lines fit the line buffer. */
  predicate Printable(n: nat) {
    n < 0x1_0000_0000_0000_0000
  }

  predicate PrintableCommand(argv: Argv) {
    |argv| >= 1 && Printable(|argv|) && forall i :: 0 <= i < |argv| ==> Printable(|argv[i]|)
  }

  predicate PrintableAll(cmds: seq<Argv>) {
    forall i :: 0 <= i < |cmds| ==> PrintableCommand(cmds[i])
  }

  function Power10(k: nat): nat {
    if k == 0 then 1 else 10 * Power10(k - 1)
  }

  lemma {:induction false} DigitsLength(n: nat, k: nat)
    requires 0 < k && n < Power10(k)
    ensures |Digits(n)| <= k
    decreases k
  {
    if n >= 10 {
      assert Power10(k) == 10 * Power10(k - 1);
      assert k > 1 by { assert Power10(1) == 10 * Power10(0) == 10; }
      DigitsLength(n / 10, k - 1);
    }
  }

  lemma PrintableFits(n: nat)
    requires Printable(n)
    ensures |Digits(n)| <= 20
  {
    assert Power10(5) == 100000;
    assert Power10(10) == 10000000000;
    assert Power10(15) == 1000000000000000;
    assert Power10(20) == 100000000000000000000;
    DigitsLength(n, 20);
  }

  /** The number line followed by anything is one line read whose number is `n`. */
  lemma ReadNumberLine(tag: Byte, n: nat, t: Bytes)
    requires tag != LF && Printable(n)
    ensures var s := NumberLine(tag, n) + t;
            var line := LineLen(s, LINE_MAX);
            line == |NumberLine(tag, n)| && ParseInt(s[1..line]) == n && s[line..] == t
  {
    PrintableFits(n);
    var d := Digits(n);
    var s := NumberLine(tag, n) + t;
    var k := |d| + 2;
    forall i | 0 <= i < k ensures s[i] != LF {
      if 1 <= i <= |d| { assert s[i] == d[i - 1] && IsDigit(d[i - 1]); }
    }
    LineLenAt(s, LINE_MAX, k);
    assert s[1..k + 1] == Decimal(n) + CRLF;
    ParseDecimal(n, CRLF);
    assert s[k + 1..] == t;
  }

  lemma ReadArgEncoded(arg: Bytes, t: Bytes)
    requires Printable(|arg|)
    ensures ReadArg(EncodeBulk(arg) + t) == Arg(arg, |EncodeBulk(arg)|)
  {
    hide NumberLine;
    var s := EncodeBulk(arg) + t;
    var tail := (arg + CRLF) + t;
    ConcatAssoc(NumberLine(DOLLAR, |arg|), arg + CRLF, t);
    ReadNumberLine(DOLLAR, |arg|, tail);
    var line := LineLen(s, LINE_MAX);
    assert s[line..line + |arg|] == tail[..|arg|] == arg;
  }

  /** Reading past one printed argument leaves the reader at what follows it. */
  lemma ReadArgsStep(arg: Bytes, rest: Bytes, argc: nat)
    requires Printable(|arg|) && argc > 0
    ensures ReadArgs(EncodeBulk(arg) + rest, argc) ==
              match ReadArgs(rest, argc - 1)
              case ArgsShort => ArgsShort
              case ArgsBad => ArgsBad
              case Args(argv, used) => Args([arg] + argv, |EncodeBulk(arg)| + used)
  {
    ReadArgEncoded(arg, rest);
    assert (EncodeBulk(arg) + rest)[|EncodeBulk(arg)|..] == rest;
  }

  lemma {:induction false} ReadArgsEncoded(argv: Argv, t: Bytes)
    requires forall i :: 0 <= i < |argv| ==> Printable(|argv[i]|)
    ensures ReadArgs(EncodeBulks(argv) + t, |argv|) == Args(argv, |EncodeBulks(argv)|)
    decreases |argv|
  {
    if argv != [] {
      ConcatAssoc(EncodeBulk(argv[0]), EncodeBulks(argv[1..]), t);
      ReadArgsStep(argv[0], EncodeBulks(argv[1..]) + t, |argv|);
      ReadArgsEncoded(argv[1..], t);
      assert argv == [argv[0]] + argv[1..];
    }
  }

  /** Reading a printed command gives back exactly its arguments, binary-safe,
      and uses exactly its bytes. */
  lemma ReadEncoded(argv: Argv, t: Bytes)
    requires PrintableCommand(argv)
    ensures ReadCommand(EncodeCommand(argv) + t) == Command(argv, |EncodeCommand(argv)|)
  {
    hide NumberLine, EncodeBulks, ReadArgs, LineLen, ParseInt, HitsEnd;
    ConcatAssoc(NumberLine(STAR, |argv|), EncodeBulks(argv), t);
    AfterHeader(|argv|, EncodeBulks(argv) + t);
    ReadArgsEncoded(argv, t);
  }

  /** After the header of a command what is read is its arguments. */
  lemma AfterHeader(argc: nat, tail: Bytes)
    requires Printable(argc) && argc >= 1
    ensures ReadCommand(NumberLine(STAR, argc) + tail) ==
              match ReadArgs(tail, argc)
              case ArgsShort => ShortRead
              case ArgsBad => BadFormat
              case Args(argv, used) => Command(argv, |NumberLine(STAR, argc)| + used)
  {
    hide NumberLine, ReadArgs, LineLen, ParseInt, HitsEnd;
    var s := NumberLine(STAR, argc) + tail;
    ReadNumberLine(STAR, argc, tail);
    assert s[0] == STAR && s[1] == NumberLine(STAR, argc)[1] && IsDigit(s[1]);
  }

  // ------------------------------------------------- cut commands

  /** A number line cut before its line feed is read to the end of the file, and
      what is left of a positive number is positive. */
  lemma CutNumberLine(tag: Byte, n: nat, cut: nat)
    requires tag != LF && Printable(n) && 0 < cut < |NumberLine(tag, n)|
    ensures var s := NumberLine(tag, n)[..cut];
            && LineLen(s, LINE_MAX) == cut
            && ParseInt(s[1..cut]) >= 0
            && (cut > 1 && n > 0 ==> ParseInt(s[1..cut]) >= 1)
  {
    hide Digits;
    PrintableFits(n);
    var d := Digits(n);
    var s := NumberLine(tag, n)[..cut];
    forall i | 0 <= i < |s| ensures s[i] != LF {
      if 1 <= i <= |d| { assert s[i] == d[i - 1] && IsDigit(d[i - 1]); }
    }
    LineLenAll(s, LINE_MAX);
    assert s[1..cut] == (d + CRLF)[..cut - 1];
    ParseCutNumber(n, cut - 1);
  }

  lemma ParseCutNumber(n: nat, cut: nat)
    requires cut <= |Digits(n)| + 2
    ensures ParseInt((Digits(n) + CRLF)[..cut]) >= 0
    ensures cut > 0 && n > 0 ==> ParseInt((Digits(n) + CRLF)[..cut]) >= 1
  {
    hide Digits;
    var d := Digits(n);
    var s := (d + CRLF)[..cut];
    if cut > 0 {
      var k := if cut < |d| then cut else |d|;
      var end := CRLF[..cut - k];
      CutConcat(d, CRLF, cut);
      assert s == d[..k] + end by { assert d[..|d|] == d; }
      CutDigits(n, k);
      LeadingDigitsConcat(0, d[..k], end);
      assert SkipSpaces(s) == s by { assert IsDigit(s[0]); }
      assert LeadingDigits(LeadingDigits(0, d[..k]), end) == LeadingDigits(0, d[..k]);
    }
  }

  /** A non-empty prefix of a positive number's digits is still positive. */
  lemma {:induction false} CutDigits(n: nat, k: nat)
    requires 0 < k <= |Digits(n)|
    ensures n > 0 ==> LeadingDigits(0, Digits(n)[..k]) >= 1
  {
    var d := Digits(n);
    if k == |d| {
      assert d[..k] == d;
      DigitsValue(n);
    } else {
      assert n >= 10;
      assert d[..k] == Digits(n / 10)[..k];
      CutDigits(n / 10, k);
    }
  }

  lemma ReadCutArg(arg: Bytes, cut: nat)
    requires Printable(|arg|) && cut < |EncodeBulk(arg)|
    ensures ReadArg(EncodeBulk(arg)[..cut]) == ArgShort
  {
    var full := NumberLine(DOLLAR, |arg|);
    var s := EncodeBulk(arg)[..cut];
    if cut == 0 {
      assert s == [];
    } else if cut < |full| {
      assert s == full[..cut];
      CutNumberLine(DOLLAR, |arg|, cut);
    } else {
      var tail := (arg + CRLF)[..cut - |full|];
      assert s == full + tail;
      ReadNumberLine(DOLLAR, |arg|, tail);
    }
  }

  lemma {:induction false} ReadCutArgs(argv: Argv, cut: nat)
    requires forall i :: 0 <= i < |argv| ==> Printable(|argv[i]|)
    requires cut < |EncodeBulks(argv)|
    ensures ReadArgs(EncodeBulks(argv)[..cut], |argv|) == ArgsShort
    decreases |argv|
  {
    hide EncodeBulk;
    var first := EncodeBulk(argv[0]);
    CutConcat(first, EncodeBulks(argv[1..]), cut);
    if cut < |first| {
      ReadCutArg(argv[0], cut);
    } else {
      ReadArgsStep(argv[0], EncodeBulks(argv[1..])[..cut - |first|], |argv|);
      ReadCutArgs(argv[1..], cut - |first|);
    }
  }

  /** Wherever a printed command is cut, the reader sees a short read: it never
      takes a torn command for a whole one, nor for a malformed file. */
  lemma ReadCutCommand(argv: Argv, cut: nat)
    requires PrintableCommand(argv) && 0 < cut < |EncodeCommand(argv)|
    ensures ReadCommand(EncodeCommand(argv)[..cut]) == ShortRead
  {
    hide NumberLine, EncodeBulks, ReadArgs, ReadCommand;
    var head := NumberLine(STAR, |argv|);
    CutConcat(head, EncodeBulks(argv), cut);
    if cut < |head| {
      CutHeader(|argv|, cut);
    } else {
      AfterHeader(|argv|, EncodeBulks(argv)[..cut - |head|]);
      ReadCutArgs(argv, cut - |head|);
    }
  }

  lemma CutHeader(argc: nat, cut: nat)
    requires Printable(argc) && argc >= 1 && 0 < cut < |NumberLine(STAR, argc)|
    ensures ReadCommand(NumberLine(STAR, argc)[..cut]) == ShortRead
  {
    hide NumberLine, LineLen, ParseInt, HitsEnd;
    var s := NumberLine(STAR, argc)[..cut];
    CutNumberLine(STAR, argc, cut);
    assert s[0] == STAR;
    if cut > 1 {
      assert s[1] == NumberLine(STAR, argc)[1] && IsDigit(s[1]);
      assert s[cut..] == [];
    }
  }
}
