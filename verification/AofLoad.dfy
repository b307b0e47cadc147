/** Loading the append-only file: commands are read and replayed in a fake
    client until the file ends. A file cut short is truncated back to an offset
    the loader believes safe; what it replayed are the commands whole before the cut. */
module AofLoad {
  import opened Resp
  import opened Dataset
  import opened AofFeed

  /** `"REDIS"`, which announces an RDB preamble. */
  const SIGNATURE: Bytes := [82, 69, 68, 73, 83]

  datatype Outcome =
    | EmptyFile                              // nothing to load, not an error for the caller
    | Preamble                               // an RDB preamble, loaded elsewhere
    | Loaded(session: Session, size: nat)    // dataset rebuilt, file kept up to `size`
    | Exits                                  // the process exits

  function Start(dbnum: nat): (s: Session)
    requires dbnum > 0
    ensures s.Valid()
  {
    Session(View(seq(dbnum, _ => map[]), 0), false, [])
  }

  /** The unexpected-end-of-file path: truncate and carry on, if allowed. */
  function ShortFile(s: Session, upTo: nat, truncate: bool): Outcome {
    if truncate then Loaded(s, upTo) else Exits
  }

  /** The loader from byte `pos` on: `upTo` is the end of the last whole command,
      `before` the offset noted at the last MULTI. */
  function LoadFrom(srv: Server, file: Bytes, pos: nat, s: Session, upTo: nat, before: nat, truncate: bool): (r: Outcome)
    requires pos <= |file| && s.Valid()
    ensures r.Loaded? ==> r.session.Valid()
    decreases |file| - pos
  {
    match ReadCommand(file[pos..])
    case EndOfFile => if s.multi then ShortFile(s, before, truncate) else Loaded(s, |file|)
    case ShortRead => ShortFile(s, upTo, truncate)
    case BadFormat => Exits
    case Command(argv, used) =>
      if !srv.known(argv[0]) then Exits
      else
        LoadFrom(srv, file, pos + used, Replay1(srv, s, argv),
                 if truncate then pos + used else upTo,
                 if KindOf(argv[0]).KMulti? then upTo else before, truncate)
  }

  function Load(srv: Server, file: Bytes, dbnum: nat, truncate: bool): (r: Outcome)
    requires dbnum > 0
    ensures r.Loaded? ==> r.session.Valid()
  {
    if file == [] then EmptyFile
    else if |file| >= 5 && file[..5] == SIGNATURE then Preamble
    else LoadFrom(srv, file, 0, Start(dbnum), 0, 0, truncate)
  }

  // ---------------------------------------------------------------- the loader's loops

  function Combine(argv: Argv, used: nat, rest: Args): Args {
    match rest
    case Args(more, n) => Args(argv + more, used + n)
    case ArgsShort => ArgsShort
    case ArgsBad => ArgsBad
  }

  lemma ReadArgsOne(argv: Argv, used: nat, s: Bytes, argc: nat)
    requires argc > 0
    ensures Combine(argv, used, ReadArgs(s, argc)) ==
              match ReadArg(s)
              case ArgShort => ArgsShort
              case ArgBad => ArgsBad
              case Arg(data, n) => Combine(argv + [data], used + n, ReadArgs(s[n..], argc - 1))
  {
    hide ReadArg;
    match ReadArg(s)
    case ArgShort =>
    case ArgBad =>
    case Arg(data, n) =>
      var rest := ReadArgs(s[n..], argc - 1);
      if rest.Args? {
        assert argv + ([data] + rest.argv) == argv + [data] + rest.argv;
      }
  }

  /** The argument loop: one line, the raw bytes, two bytes discarded, `argc` times. */
  method ReadArgv(file: Bytes, start: nat, argc: nat) returns (r: Args)
    requires start <= |file|
    ensures r == ReadArgs(file[start..], argc)
  {
    hide ReadArg, ReadArgs, Combine;
    var pos: nat := start;
    var argv: Argv := [];
    CombineNone(ReadArgs(file[start..], argc));
    for j := 0 to argc
      invariant start <= pos <= |file|
      invariant ReadArgs(file[start..], argc) == Combine(argv, pos - start, ReadArgs(file[pos..], argc - j))
    {
      var arg := ReadBulk(file, pos);
      ReadArgsOne(argv, pos - start, file[pos..], argc - j);
      match arg
      case ArgShort =>
        return ArgsShort;
      case ArgBad =>
        return ArgsBad;
      case Arg(data, used) =>
        assert file[pos..][used..] == file[pos + used..];
        argv := argv + [data];
        pos := pos + used;
    }
    r := Args(argv, pos - start);
    CombineEnd(argv, pos - start, file[pos..]);
  }

  lemma CombineNone(rest: Args)
    ensures Combine([], 0, rest) == rest
  {
    if rest.Args? {
      assert [] + rest.argv == rest.argv;
    }
  }

  lemma CombineEnd(argv: Argv, used: nat, s: Bytes)
    ensures Combine(argv, used, ReadArgs(s, 0)) == Args(argv, used)
  {
    assert argv + [] == argv;
  }

  method ReadBulk(file: Bytes, pos: nat) returns (r: Arg)
    requires pos <= |file|
    ensures r == ReadArg(file[pos..])
  {
    hide LineLen, ParseInt;
    var rest := file[pos..];
    if rest == [] {
      return ArgShort;
    }
    if rest[0] != DOLLAR {
      return ArgBad;
    }
    var line := LineLen(rest, LINE_MAX);
    var len := ParseInt(rest[1..line]);
    if len < 0 {
      return ArgBad;
    }
    if |rest| < line + len + 2 {
      return ArgShort;
    }
    r := Arg(rest[line..line + len], line + len + 2);
  }

  /** One command: its header line, then its arguments. */
  method ReadOne(file: Bytes, pos: nat) returns (r: Read)
    requires pos < |file|
    ensures r == ReadCommand(file[pos..])
  {
    hide LineLen, ParseInt, ReadArgs, HitsEnd;
    var rest := file[pos..];
    if rest[0] != STAR {
      return BadFormat;
    }
    var line := LineLen(rest, LINE_MAX);
    if line == 1 {
      return ShortRead;
    }
    if rest[1] == 0 {
      return if HitsEnd(rest) then ShortRead else BadFormat;
    }
    var argc := ParseInt(rest[1..line]);
    if argc < 1 {
      return BadFormat;
    }
    var args := ReadArgv(file, pos + line, argc);
    assert file[pos + line..] == rest[line..];
    match args
    case ArgsShort => r := ShortRead;
    case ArgsBad => r := BadFormat;
    case Args(argv, used) => r := Command(argv, line + used);
  }

  method LoadAppendOnlyFile(srv: Server, file: Bytes, dbnum: nat, truncate: bool) returns (r: Outcome)
    requires dbnum > 0
    ensures r == Load(srv, file, dbnum, truncate)
  {
    hide ReadCommand, KindOf, Replay1, Start;
    if |file| == 0 {
      return EmptyFile;
    }
    if |file| >= 5 && file[..5] == SIGNATURE {
      return Preamble;
    }
    var s := Start(dbnum);
    var pos: nat, upTo: nat, before: nat := 0, 0, 0;
    while pos < |file|
      invariant pos <= |file| && s.Valid()
      invariant LoadFrom(srv, file, 0, Start(dbnum), 0, 0, truncate) == LoadFrom(srv, file, pos, s, upTo, before, truncate)
      decreases |file| - pos
    {
      var read := ReadOne(file, pos);
      match read
      case BadFormat =>
        return Exits;
      case ShortRead =>
        return ShortFile(s, upTo, truncate);
      case Command(argv, used) =>
        if !srv.known(argv[0]) {
          return Exits;
        }
        if KindOf(argv[0]).KMulti? {
          before := upTo;
        }
        s := Replay1(srv, s, argv);
        pos := pos + used;
        if truncate {
          upTo := pos;
        }
    }
    assert file[pos..] == [];
    if s.multi {
      return ShortFile(s, before, truncate);
    }
    r := Loaded(s, |file|);
  }

  // ---------------------------------------------------------------- a log cut anywhere

  predicate Known(srv: Server, cmds: seq<Argv>) {
    forall i :: 0 <= i < |cmds| ==> |cmds[i]| >= 1 && srv.known(cmds[i][0])
  }

  /** How many commands of the log fit wholly into its first `cut` bytes. */
  function Whole(cmds: seq<Argv>, cut: nat): (k: nat)
    ensures k <= |cmds|
    decreases |cmds|
  {
    if cmds == [] || cut < |EncodeCommand(cmds[0])| then 0
    else 1 + Whole(cmds[1..], cut - |EncodeCommand(cmds[0])|)
  }

  /** The offset just before the last MULTI of `cmds`, when the log starts at
      `base`; `before` when there is none. */
  function BeforeMulti(base: nat, cmds: seq<Argv>, before: nat): nat
    requires Runnable(cmds)
    decreases |cmds|
  {
    if cmds == [] then before
    else BeforeMulti(base + |EncodeCommand(cmds[0])|, cmds[1..],
                     if KindOf(cmds[0][0]).KMulti? then base else before)
  }

  function CutSize(base: nat, cmds: seq<Argv>, cut: nat, open: bool, before: nat): nat
    requires Runnable(cmds)
  {
    var whole := cmds[..Whole(cmds, cut)];
    var end := |EncodeAll(whole)|;
    if cut > end then base + end
    else if open then BeforeMulti(base, whole, before)
    else base + end
  }

  lemma {:induction false} WholeBounds(cmds: seq<Argv>, cut: nat)
    requires cut <= |EncodeAll(cmds)|
    ensures |EncodeAll(cmds[..Whole(cmds, cut)])| <= cut
    decreases |cmds|
  {
    if cmds != [] && cut >= |EncodeCommand(cmds[0])| {
      var k := Whole(cmds[1..], cut - |EncodeCommand(cmds[0])|);
      WholeBounds(cmds[1..], cut - |EncodeCommand(cmds[0])|);
      assert cmds[..1 + k][1..] == cmds[1..][..k];
    }
  }

  lemma CutInside(base: nat, cmds: seq<Argv>, cut: nat, open: bool, before: nat)
    requires Runnable(cmds) && (cut == 0 || (cmds != [] && cut < |EncodeCommand(cmds[0])|))
    ensures cmds[..Whole(cmds, cut)] == []
    ensures CutSize(base, cmds, cut, open, before) == if cut == 0 && open then before else base
  {
    assert cmds[..0] == [];
  }

  lemma CutStep(base: nat, cmds: seq<Argv>, cut: nat, open: bool, before: nat)
    requires Runnable(cmds) && cmds != [] && cut >= |EncodeCommand(cmds[0])|
    ensures var n := |EncodeCommand(cmds[0])|;
            && cmds[..Whole(cmds, cut)] == [cmds[0]] + cmds[1..][..Whole(cmds[1..], cut - n)]
            && CutSize(base, cmds, cut, open, before)
               == CutSize(base + n, cmds[1..], cut - n, open, if KindOf(cmds[0][0]).KMulti? then base else before)
  {
    hide KindOf;
    var n := |EncodeCommand(cmds[0])|;
    var rest := cmds[1..][..Whole(cmds[1..], cut - n)];
    var whole := cmds[..Whole(cmds, cut)];
    assert whole == [cmds[0]] + rest;
    assert whole[1..] == rest;
  }

  lemma {:induction false} LoadFromCut(srv: Server, pre: Bytes, cmds: seq<Argv>, cut: nat, s: Session, before: nat)
    requires s.Valid() && PrintableAll(cmds) && Known(srv, cmds) && cut <= |EncodeAll(cmds)|
    ensures var s' := Replay(srv, s, cmds[..Whole(cmds, cut)]);
            LoadFrom(srv, pre + EncodeAll(cmds)[..cut], |pre|, s, |pre|, before, true)
            == Loaded(s', CutSize(|pre|, cmds, cut, s'.multi, before))
    decreases |cmds|
  {
    hide KindOf, EncodeCommand, ReadCommand, Replay1, CutSize;
    var file := pre + EncodeAll(cmds)[..cut];
    assert file[|pre|..] == EncodeAll(cmds)[..cut];
    if cut == 0 {
      assert file[|pre|..] == [];
      CutInside(|pre|, cmds, cut, s.multi, before);
    } else {
      var first := EncodeCommand(cmds[0]);
      var more := EncodeAll(cmds[1..]);
      CutConcat(first, more, cut);
      if cut < |first| {
        ReadCutCommand(cmds[0], cut);
        CutInside(|pre|, cmds, cut, s.multi, before);
      } else {
        var tail := more[..cut - |first|];
        ReadEncoded(cmds[0], tail);
        ConcatAssoc(pre, first, tail);
        CutStep(|pre|, cmds, cut, Replay(srv, s, cmds[..Whole(cmds, cut)]).multi, before);
        assert ([cmds[0]] + cmds[1..][..Whole(cmds[1..], cut - |first|)])[1..] == cmds[1..][..Whole(cmds[1..], cut - |first|)];
        LoadFromCut(srv, pre + first, cmds[1..], cut - |first|, Replay1(srv, s, cmds[0]),
                    if KindOf(cmds[0][0]).KMulti? then |pre| else before);
      }
    }
  }

  lemma NoPreamble(cmds: seq<Argv>, cut: nat)
    requires 0 < cut <= |EncodeAll(cmds)|
    ensures var f := EncodeAll(cmds)[..cut]; |f| >= 5 ==> f[..5] != SIGNATURE
  {
    var f := EncodeAll(cmds)[..cut];
    assert f[0] == EncodeCommand(cmds[0])[0] == STAR;
    if |f| >= 5 { assert f[..5][0] == STAR; }
  }

  /** Recovery from any cut: of a printed log, exactly the wholly contained
      commands are replayed. A cut inside a command truncates the file to the end
      of the last whole one; a cut between commands inside an open transaction
      truncates it to before the last MULTI; any other keeps the file whole. */
  lemma LoadCutLog(srv: Server, cmds: seq<Argv>, cut: nat, dbnum: nat)
    requires dbnum > 0 && PrintableAll(cmds) && Known(srv, cmds) && 0 < cut <= |EncodeAll(cmds)|
    ensures var whole := cmds[..Whole(cmds, cut)];
            var s := Replay(srv, Start(dbnum), whole);
            Load(srv, EncodeAll(cmds)[..cut], dbnum, true)
            == Loaded(s, if cut > |EncodeAll(whole)| then |EncodeAll(whole)|
                         else if s.multi then BeforeMulti(0, whole, 0)
                         else cut)
  {
    hide KindOf;
    NoPreamble(cmds, cut);
    LoadFromCut(srv, [], cmds, cut, Start(dbnum), 0);
    assert [] + EncodeAll(cmds)[..cut] == EncodeAll(cmds)[..cut];
    WholeBounds(cmds, cut);
  }

  lemma {:induction false} WholeOfAll(cmds: seq<Argv>)
    ensures Whole(cmds, |EncodeAll(cmds)|) == |cmds|
    decreases |cmds|
  {
    if cmds != [] {
      WholeOfAll(cmds[1..]);
    }
  }

  /** The loader undoes the writer: a complete log is replayed command by command,
      and kept whole. */
  lemma LoadWholeLog(srv: Server, cmds: seq<Argv>, dbnum: nat)
    requires dbnum > 0 && cmds != [] && PrintableAll(cmds) && Known(srv, cmds)
    requires !Replay(srv, Start(dbnum), cmds).multi
    ensures Load(srv, EncodeAll(cmds), dbnum, true) == Loaded(Replay(srv, Start(dbnum), cmds), |EncodeAll(cmds)|)
  {
    hide KindOf;
    WholeOfAll(cmds);
    assert cmds[..|cmds|] == cmds;
    assert EncodeAll(cmds)[..|EncodeAll(cmds)|] == EncodeAll(cmds);
    LoadCutLog(srv, cmds, |EncodeAll(cmds)|, dbnum);
  }

  // ---------------------------------------------------------------- both settings

  /** Whatever follows a printed log, the loader gets past the log having replayed it. */
  lemma {:induction false} LoadPast(srv: Server, pre: Bytes, cmds: seq<Argv>, rest: Bytes, s: Session, upTo: nat, before: nat, truncate: bool)
    returns (upTo2: nat, before2: nat)
    requires s.Valid() && PrintableAll(cmds) && Known(srv, cmds)
    ensures var file := pre + (EncodeAll(cmds) + rest);
            LoadFrom(srv, file, |pre|, s, upTo, before, truncate)
            == LoadFrom(srv, file, |pre| + |EncodeAll(cmds)|, Replay(srv, s, cmds), upTo2, before2, truncate)
    decreases |cmds|
  {
    hide KindOf, EncodeCommand, ReadCommand, Replay1;
    if cmds == [] {
      return upTo, before;
    }
    var first := EncodeCommand(cmds[0]);
    var more := EncodeAll(cmds[1..]) + rest;
    var file := pre + (EncodeAll(cmds) + rest);
    ConcatAssoc(first, EncodeAll(cmds[1..]), rest);
    ConcatAssoc(pre, first, more);
    Suffix(pre, first + more);
    ReadEncoded(cmds[0], more);
    upTo2, before2 := LoadPast(srv, pre + first, cmds[1..], rest, Replay1(srv, s, cmds[0]),
                               if truncate then |pre| + |first| else upTo,
                               if KindOf(cmds[0][0]).KMulti? then upTo else before, truncate);
  }

  lemma Suffix(a: Bytes, b: Bytes)
    ensures (a + b)[|a|..] == b
  {
  }

  /** A file that starts with a printed command, or with nothing like a preamble. */
  predicate StartsPlain(file: Bytes) {
    file != [] && !(|file| >= 5 && file[..5] == SIGNATURE)
  }

  lemma PrintedPlain(cmds: seq<Argv>, rest: Bytes)
    requires cmds != []
    ensures StartsPlain(EncodeAll(cmds) + rest)
  {
    var f := EncodeAll(cmds) + rest;
    assert f[0] == EncodeCommand(cmds[0])[0] == STAR;
    if |f| >= 5 { assert f[..5][0] == STAR; }
  }

  /** The same from the start of the file. */
  lemma LoadPastLog(srv: Server, cmds: seq<Argv>, rest: Bytes, dbnum: nat, truncate: bool) returns (upTo: nat, before: nat)
    requires dbnum > 0 && PrintableAll(cmds) && Known(srv, cmds) && StartsPlain(EncodeAll(cmds) + rest)
    ensures Load(srv, EncodeAll(cmds) + rest, dbnum, truncate)
         == LoadFrom(srv, EncodeAll(cmds) + rest, |EncodeAll(cmds)|, Replay(srv, Start(dbnum), cmds), upTo, before, truncate)
  {
    hide KindOf, EncodeAll, LoadFrom, Replay;
    upTo, before := LoadPast(srv, [], cmds, rest, Start(dbnum), 0, 0, truncate);
    assert [] + (EncodeAll(cmds) + rest) == EncodeAll(cmds) + rest;
  }

  /** Without permission to truncate, exactly a log that ends with a whole command and
      leaves no transaction open is loaded, and kept whole; a cut anywhere else, or an
      open transaction at the end, exits. */
  lemma LoadStrict(srv: Server, cmds: seq<Argv>, cut: nat, dbnum: nat)
    requires dbnum > 0 && PrintableAll(cmds) && Known(srv, cmds) && 0 < cut <= |EncodeAll(cmds)|
    ensures var whole := cmds[..Whole(cmds, cut)];
            Load(srv, EncodeAll(cmds)[..cut], dbnum, false)
            == if cut == |EncodeAll(whole)| && !Replay(srv, Start(dbnum), whole).multi
               then Loaded(Replay(srv, Start(dbnum), whole), cut) else Exits
  {
    hide KindOf, EncodeCommand, ReadCommand, Replay1, Replay;
    var whole, rest := CutRest(cmds, cut);
    var file := EncodeAll(cmds)[..cut];
    NoPreamble(cmds, cut);
    var upTo, before := LoadPastLog(srv, whole, rest, dbnum, false);
    assert file[|EncodeAll(whole)|..] == rest;
    if rest == [] {
      assert file == EncodeAll(whole);
    }
  }

  /** A cut log is its whole commands and, if the cut is inside a command, a proper part
      of that, which reads as a short read. */
  lemma {:induction false} CutRest(cmds: seq<Argv>, cut: nat) returns (whole: seq<Argv>, rest: Bytes)
    requires PrintableAll(cmds) && cut <= |EncodeAll(cmds)|
    ensures whole == cmds[..Whole(cmds, cut)] && EncodeAll(cmds)[..cut] == EncodeAll(whole) + rest
    ensures rest == [] ==> ReadCommand(rest) == EndOfFile
    ensures rest != [] ==> ReadCommand(rest) == ShortRead
    decreases |cmds|
  {
    hide EncodeCommand, ReadCommand;
    whole := cmds[..Whole(cmds, cut)];
    EmptyReads();
    if cmds == [] {
      rest := [];
      assert whole == [];
    } else {
      var first := EncodeCommand(cmds[0]);
      CutConcat(first, EncodeAll(cmds[1..]), cut);
      if cut < |first| {
        rest := first[..cut];
        assert whole == [];
        if cut > 0 { ReadCutCommand(cmds[0], cut); }
      } else {
        var more, tail := CutRest(cmds[1..], cut - |first|);
        rest := tail;
        assert whole == [cmds[0]] + more && whole[1..] == more;
        ConcatAssoc(first, EncodeAll(more), rest);
      }
    }
  }

  lemma EmptyReads()
    ensures ReadCommand([]) == EndOfFile
  {
  }

  /** Whatever the setting, a command the server does not know makes it exit, however
      much of the file was replayed and whatever follows. */
  lemma UnknownExits(srv: Server, cmds: seq<Argv>, argv: Argv, tail: Bytes, dbnum: nat, truncate: bool)
    requires dbnum > 0 && PrintableAll(cmds) && Known(srv, cmds)
    requires PrintableCommand(argv) && |argv| >= 1 && !srv.known(argv[0])
    ensures Load(srv, EncodeAll(cmds) + (EncodeCommand(argv) + tail), dbnum, truncate) == Exits
  {
    hide KindOf, ReadCommand, Replay1, Replay, EncodeCommand;
    var rest := EncodeCommand(argv) + tail;
    PlainAfter(cmds, argv, tail);
    var upTo, before := LoadPastLog(srv, cmds, rest, dbnum, truncate);
    assert (EncodeAll(cmds) + rest)[|EncodeAll(cmds)|..] == rest;
    ReadEncoded(argv, tail);
  }

  lemma PlainAfter(cmds: seq<Argv>, argv: Argv, tail: Bytes)
    ensures StartsPlain(EncodeAll(cmds) + (EncodeCommand(argv) + tail))
  {
    hide EncodeCommand;
    EncodeAllConcat(cmds, [argv]);
    EncodeAllSingle(argv);
    ConcatAssoc(EncodeAll(cmds), EncodeCommand(argv), tail);
    PrintedPlain(cmds + [argv], tail);
  }

  /** So does anything that does not read as a command: another byte than `*`, a count
      below one, an argument without `$`. */
  lemma GarbageExits(srv: Server, cmds: seq<Argv>, garbage: Bytes, dbnum: nat, truncate: bool)
    requires dbnum > 0 && PrintableAll(cmds) && Known(srv, cmds) && StartsPlain(EncodeAll(cmds) + garbage)
    requires garbage != []
    ensures garbage[0] != STAR ==> Load(srv, EncodeAll(cmds) + garbage, dbnum, truncate) == Exits
    ensures forall n: int, t :: n < 1 && Printable(-n) && garbage == CountLine(n) + t ==>
              Load(srv, EncodeAll(cmds) + garbage, dbnum, truncate) == Exits
    ensures forall n: int, t :: n >= 1 && Printable(n) && garbage == CountLine(n) + t && t != [] && t[0] != DOLLAR ==>
              Load(srv, EncodeAll(cmds) + garbage, dbnum, truncate) == Exits
  {
    hide KindOf, ReadCommand, Replay1, Replay, EncodeAll, CountLine;
    var upTo, before := LoadPastLog(srv, cmds, garbage, dbnum, truncate);
    assert (EncodeAll(cmds) + garbage)[|EncodeAll(cmds)|..] == garbage;
    if garbage[0] != STAR { NoStar(garbage); }
    forall n: int, t | n < 1 && Printable(-n) && garbage == CountLine(n) + t ensures ReadCommand(garbage) == BadFormat {
      BadCount(n, t);
    }
    forall n: int, t | n >= 1 && Printable(n) && garbage == CountLine(n) + t && t != [] && t[0] != DOLLAR
      ensures ReadCommand(garbage) == BadFormat
    {
      NoDollar(n, t);
    }
  }

  /** The first line of a command that announces `n` arguments. */
  function CountLine(n: int): Bytes { [STAR] + (Decimal(n) + CRLF) }

  lemma NoStar(s: Bytes)
    requires s != [] && s[0] != STAR
    ensures ReadCommand(s) == BadFormat
  {
  }

  lemma ReadCountLine(n: int, t: Bytes)
    requires Printable(if n < 0 then -n else n)
    ensures var s := CountLine(n) + t;
            var line := LineLen(s, LINE_MAX);
            line == |CountLine(n)| > 1 && s[1] != 0 && ParseInt(s[1..line]) == n && s[line..] == t
  {
    hide Decimal, ParseInt, LineLen;
    DecimalText(n);
    var s := CountLine(n) + t;
    var k := |Decimal(n)| + 2;
    assert forall i :: 1 <= i < k - 1 ==> s[i] == Decimal(n)[i - 1];
    assert s[k] == LF && s[k - 1] == CR;
    LineLenAt(s, LINE_MAX, k);
    assert s[1..k + 1] == Decimal(n) + CRLF;
    ParseDecimal(n, CRLF);
  }

  lemma DecimalText(n: int)
    requires Printable(if n < 0 then -n else n)
    ensures |Decimal(n)| <= 21 && forall i :: 0 <= i < |Decimal(n)| ==> Decimal(n)[i] == MINUS || IsDigit(Decimal(n)[i])
  {
    hide Digits;
    PrintableFits(if n < 0 then -n else n);
  }

  lemma BadCount(n: int, t: Bytes)
    requires n < 1 && Printable(-n)
    ensures ReadCommand(CountLine(n) + t) == BadFormat
  {
    hide LineLen, ParseInt, CountLine, ReadArgs;
    ReadCountLine(n, t);
    StarFirst(n, t);
  }

  lemma NoDollar(n: int, t: Bytes)
    requires n >= 1 && Printable(n) && t != [] && t[0] != DOLLAR
    ensures ReadCommand(CountLine(n) + t) == BadFormat
  {
    hide LineLen, ParseInt, CountLine;
    ReadCountLine(n, t);
    StarFirst(n, t);
  }

  lemma StarFirst(n: int, t: Bytes)
    ensures (CountLine(n) + t)[0] == STAR
  {
  }

  /** An empty file and one with a preamble are not read as commands. */
  lemma SpecialFiles(srv: Server, file: Bytes, dbnum: nat, truncate: bool)
    requires dbnum > 0
    ensures Load(srv, [], dbnum, truncate) == EmptyFile
    ensures Load(srv, SIGNATURE + file, dbnum, truncate) == Preamble
  {
    assert (SIGNATURE + file)[..5] == SIGNATURE;
  }
}
