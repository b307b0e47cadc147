/** What the server appends to its log for each command it executed, and why
    replaying the log means what executing the commands meant.

    The log stores absolute expiry times only: relative expiries become
    PEXPIREAT, SETEX and SET with EX or PX become a SET and a PEXPIREAT, and a
    SELECT is inserted whenever the database changes. */
module AofFeed {
  import opened Resp
  import opened Dataset

  const NX: Bytes := [78, 88]
  const XX: Bytes := [88, 88]
  const EX: Bytes := [69, 88]
  const PX: Bytes := [80, 88]

  /** `long long` arithmetic. */
  function Wrap64(x: int): (r: int)
    ensures -0x8000_0000_0000_0000 <= r < 0x8000_0000_0000_0000
    ensures -0x8000_0000_0000_0000 <= x < 0x8000_0000_0000_0000 ==> r == x
  {
    (x + 0x8000_0000_0000_0000) % 0x1_0000_0000_0000_0000 - 0x8000_0000_0000_0000
  }

  predicate InSeconds(k: Kind) { k.KExpire? || k.KSetEx? || k.KExpireAt? }

  predicate IsRelative(k: Kind) { k.KExpire? || k.KPExpire? || k.KSetEx? || k.KPSetEx? }

  /** The absolute expiry in milliseconds that `k` with argument `text` asks for
      at time `clock`. */
  function When(k: Kind, text: Bytes, clock: int): (r: int)
    requires InSeconds(k) || IsRelative(k)
    ensures -0x8000_0000_0000_0000 <= r < 0x8000_0000_0000_0000
  {
    var n := ParseInt(text);
    var ms := if InSeconds(k) then Wrap64(n * 1000) else n;
    if IsRelative(k) then Wrap64(ms + clock) else ms
  }

  // ---------------------------------------------------------------- options of SET

  /** The last EX or PX option: its unit as the command it stands for. */
  datatype SetTime = Never | After(unit: Kind, text: Bytes)

  datatype Options = BadOptions | Options(time: SetTime)

  datatype Scan = Scan(ex: SetTime, px: SetTime)

  predicate IsNumber(s: Bytes) {
    s == Decimal(ParseInt(s))
  }

  /** How the SET command itself reads its options: EX and PX take the next
      argument, which must be a number, and exclude each other. */
  function ReadOptions(argv: Argv, i: nat, time: SetTime): Options
    decreases |argv| - i
  {
    if i >= |argv| then Options(time)
    else
      var u := Upper(argv[i]);
      if u == NX || u == XX then ReadOptions(argv, i + 1, time)
      else if u == EX && i + 1 < |argv| && IsNumber(argv[i + 1]) && !(time.After? && time.unit.KPExpire?) then
        ReadOptions(argv, i + 2, After(KExpire, argv[i + 1]))
      else if u == PX && i + 1 < |argv| && IsNumber(argv[i + 1]) && !(time.After? && time.unit.KExpire?) then
        ReadOptions(argv, i + 2, After(KPExpire, argv[i + 1]))
      else BadOptions
  }

  // ---------------------------------------------------------------- executed commands

  /** A write the server executed in database `dictid`; `clock` is the time read
      when it was logged. */
  datatype Fed = Fed(dictid: nat, argv: Argv, clock: int)

  /** The commands that reach the log: arity and syntax were checked before
      execution, and SELECT, MULTI and EXEC are not writes of their own. */
  predicate Executed(c: Fed) {
    && |c.argv| >= 1
    && var k := KindOf(c.argv[0]);
       && !k.KSelect? && !k.KMulti? && !k.KExec?
       && (k.KExpire? || k.KPExpire? || k.KExpireAt? ==> |c.argv| == 3)
       && (k.KSetEx? || k.KPSetEx? ==> |c.argv| == 4)
       && (k.KSet? ==> |c.argv| >= 3)
       && (k.KSet? && |c.argv| > 3 ==> ReadOptions(c.argv, 3, Never).Options?)
  }

  function SetWithExpiry(db: Db, key: Bytes, text: Bytes, when: int): Db {
    db[key := Entry(Str(text), when)]
  }

  /** What executing the command at time `now` does. */
  function Execute(srv: Server, dbs: Dbs, c: Fed, now: int): (r: Dbs)
    requires Executed(c) && c.dictid < |dbs|
    ensures |r| == |dbs|
  {
    var db := dbs[c.dictid];
    var k := KindOf(c.argv[0]);
    if k.KExpire? || k.KPExpire? || k.KExpireAt? then
      dbs[c.dictid := SetExpiry(db, c.argv[1], When(k, c.argv[2], now))]
    else if k.KSetEx? || k.KPSetEx? then
      dbs[c.dictid := SetWithExpiry(db, c.argv[1], c.argv[3], When(k, c.argv[2], now))]
    else if k.KSet? && |c.argv| > 3 then
      match ReadOptions(c.argv, 3, Never).time
      case Never => dbs[c.dictid := SetString(db, c.argv[1], c.argv[2])]
      case After(unit, text) =>
        if unit.KExpire? || unit.KPExpire? then
          dbs[c.dictid := SetWithExpiry(db, c.argv[1], c.argv[2], When(unit, text, now))]
        else dbs
    else RunWrite(srv, dbs, c.dictid, c.argv)
  }

  // ---------------------------------------------------------------- the translation

  function ExpireAt(key: Bytes, when: int): Argv {
    [PEXPIREAT, key, Decimal(when)]
  }

  function SelectIfNeeded(selected: int, dictid: nat): seq<Argv> {
    if dictid != selected then [[SELECT, Decimal(dictid)]] else []
  }

  /** The last EX and the last PX among the options, as the log writer scans for
      them: it looks at every argument, values included. */
  function ScanTime(argv: Argv, i: nat, ex: SetTime, px: SetTime): Scan
    decreases |argv| - i
  {
    if i >= |argv| then Scan(ex, px)
    else
      var u := Upper(argv[i]);
      ScanTime(argv, i + 1,
               if u == EX && i + 1 < |argv| then After(KExpire, argv[i + 1]) else ex,
               if u == PX && i + 1 < |argv| then After(KPExpire, argv[i + 1]) else px)
  }

  function TimeCommands(key: Bytes, t: SetTime, clock: int): seq<Argv>
  {
    if t.After? && IsRelative(t.unit) then [ExpireAt(key, When(t.unit, t.text, clock))] else []
  }

  /** The commands the log writer prints for `c`, after the SELECT. */
  function Translate(c: Fed): seq<Argv>
    requires Executed(c)
  {
    var k := KindOf(c.argv[0]);
    if k.KExpire? || k.KPExpire? || k.KExpireAt? then
      [ExpireAt(c.argv[1], When(k, c.argv[2], c.clock))]
    else if k.KSetEx? || k.KPSetEx? then
      [[SET, c.argv[1], c.argv[3]], ExpireAt(c.argv[1], When(k, c.argv[2], c.clock))]
    else if k.KSet? && |c.argv| > 3 then
      var scan := ScanTime(c.argv, 3, Never, Never);
      [c.argv[..3]] + TimeCommands(c.argv[1], scan.ex, c.clock) + TimeCommands(c.argv[1], scan.px, c.clock)
    else [c.argv]
  }

  lemma NumberIsNoOption(s: Bytes)
    requires IsNumber(s)
    ensures Upper(s) != EX && Upper(s) != PX
  {
    var n := ParseInt(s);
    assert s[0] == MINUS || IsDigit(s[0]) by {
      if n >= 0 { assert IsDigit(Digits(n)[0]); }
    }
    assert Upper(s)[0] == s[0];
  }

  /** On every option list SET accepts, the log writer's scan, which does not
      skip option values, finds the very time SET used; its assertion that EX
      and PX are not both there holds. */
  lemma {:induction false} ScanAgrees(argv: Argv, i: nat, ex: SetTime, px: SetTime)
    requires ex.After? ==> ex.unit.KExpire?
    requires px.After? ==> px.unit.KPExpire?
    requires ex.Never? || px.Never?
    requires ReadOptions(argv, i, if ex.After? then ex else px).Options?
    ensures var scan := ScanTime(argv, i, ex, px);
            && (scan.ex.Never? || scan.px.Never?)
            && (scan.ex.After? ==> scan.ex.unit.KExpire?)
            && (scan.px.After? ==> scan.px.unit.KPExpire?)
            && ReadOptions(argv, i, if ex.After? then ex else px).time == if scan.ex.After? then scan.ex else scan.px
    decreases |argv| - i
  {
    if i < |argv| {
      var u := Upper(argv[i]);
      if u == NX || u == XX {
        assert u[0] != 69 && u[0] != 80;
        ScanAgrees(argv, i + 1, ex, px);
      } else {
        NumberIsNoOption(argv[i + 1]);
        assert EX != PX;
        if u == EX {
          ScanAgrees(argv, i + 2, After(KExpire, argv[i + 1]), px);
        } else {
          ScanAgrees(argv, i + 2, ex, After(KPExpire, argv[i + 1]));
        }
      }
    }
  }

  // ---------------------------------------------------------------- one command

  lemma RunExpireAt(srv: Server, v: View, key: Bytes, when: int)
    requires v.Valid()
    ensures RunLogged(srv, v, ExpireAt(key, when)) == v.(dbs := v.dbs[v.cur := SetExpiry(v.dbs[v.cur], key, when)])
  {
    hide KindOf;
    KindsOfNames();
    ParseDecimal(when, []);
    assert Decimal(when) + [] == Decimal(when);
  }

  lemma RunSet(srv: Server, v: View, name: Bytes, key: Bytes, text: Bytes)
    requires v.Valid() && KindOf(name).KSet?
    ensures RunLogged(srv, v, [name, key, text]) == v.(dbs := v.dbs[v.cur := SetString(v.dbs[v.cur], key, text)])
  {
  }

  lemma RunSeq1(srv: Server, v: View, a: Argv)
    requires v.Valid() && |a| >= 1
    ensures RunSeq(srv, v, [a]) == RunLogged(srv, v, a)
  {
    assert [a][1..] == [];
  }

  lemma RunSeq2(srv: Server, v: View, a: Argv, b: Argv)
    requires v.Valid() && |a| >= 1 && |b| >= 1
    ensures RunSeq(srv, v, [a, b]) == RunLogged(srv, RunLogged(srv, v, a), b)
  {
    assert [a, b][1..] == [b];
    RunSeq1(srv, RunLogged(srv, v, a), b);
  }

  /** A SET followed by a PEXPIREAT is a SET with that expiry. */
  lemma RunSetThenExpire(srv: Server, v: View, name: Bytes, key: Bytes, text: Bytes, when: int)
    requires v.Valid() && KindOf(name).KSet?
    ensures RunSeq(srv, v, [[name, key, text], ExpireAt(key, when)])
            == v.(dbs := v.dbs[v.cur := SetWithExpiry(v.dbs[v.cur], key, text, when)])
  {
    RunSeq2(srv, v, [name, key, text], ExpireAt(key, when));
    RunSet(srv, v, name, key, text);
    var v1 := RunLogged(srv, v, [name, key, text]);
    RunExpireAt(srv, v1, key, when);
    assert v1.dbs[v.cur] == SetString(v.dbs[v.cur], key, text);
    assert SetExpiry(v1.dbs[v.cur], key, when) == SetWithExpiry(v.dbs[v.cur], key, text, when);
  }

  lemma SelectSelects(srv: Server, v: View, selected: int, dictid: nat)
    requires v.Valid() && dictid < |v.dbs| && (selected == -1 || selected == v.cur)
    ensures Runnable(SelectIfNeeded(selected, dictid))
    ensures RunSeq(srv, v, SelectIfNeeded(selected, dictid)) == v.(cur := dictid)
  {
    if dictid != selected {
      KindsOfNames();
      ParseDecimal(dictid, []);
      assert Decimal(dictid) + [] == Decimal(dictid);
      RunSeq1(srv, v, [SELECT, Decimal(dictid)]);
    }
  }

  /** Translation preserves meaning, command by command: what the log says about
      a command does to the databases what the command did at the time logged. */
  lemma TranslateMeans(srv: Server, v: View, c: Fed)
    requires v.Valid() && Executed(c) && c.dictid == v.cur
    ensures NoControl(Translate(c))
    ensures RunSeq(srv, v, Translate(c)) == v.(dbs := Execute(srv, v.dbs, c, c.clock))
  {
    KindsOfNames();
    var k := KindOf(c.argv[0]);
    if k.KExpire? || k.KPExpire? || k.KExpireAt? {
      var when := When(k, c.argv[2], c.clock);
      RunSeq1(srv, v, ExpireAt(c.argv[1], when));
      RunExpireAt(srv, v, c.argv[1], when);
    } else if k.KSetEx? || k.KPSetEx? {
      RunSetThenExpire(srv, v, SET, c.argv[1], c.argv[3], When(k, c.argv[2], c.clock));
    } else if k.KSet? && |c.argv| > 3 {
      TranslateSetMeans(srv, v, c);
    } else {
      RunSeq1(srv, v, c.argv);
    }
  }

  lemma TranslateSetIs(c: Fed)
    requires Executed(c) && KindOf(c.argv[0]).KSet? && |c.argv| > 3
    ensures Translate(c) == [[c.argv[0], c.argv[1], c.argv[2]]]
                            + TimeCommands(c.argv[1], ReadOptions(c.argv, 3, Never).time, c.clock)
  {
    hide KindOf;
    ScanAgrees(c.argv, 3, Never, Never);
    assert c.argv[..3] == [c.argv[0], c.argv[1], c.argv[2]];
  }

  lemma TranslateSetMeans(srv: Server, v: View, c: Fed)
    requires v.Valid() && Executed(c) && c.dictid == v.cur
    requires KindOf(c.argv[0]).KSet? && |c.argv| > 3
    ensures NoControl(Translate(c))
    ensures RunSeq(srv, v, Translate(c)) == v.(dbs := Execute(srv, v.dbs, c, c.clock))
  {
    hide KindOf;
    KindsOfNames();
    TranslateSetIs(c);
    OptionsAreRelative(c.argv, 3, Never);
    var set3 := [c.argv[0], c.argv[1], c.argv[2]];
    match ReadOptions(c.argv, 3, Never).time
    case Never =>
      assert Translate(c) == [set3];
      RunSeq1(srv, v, set3);
      RunSet(srv, v, c.argv[0], c.argv[1], c.argv[2]);
    case After(unit, text) =>
      var when := When(unit, text, c.clock);
      assert Translate(c) == [set3, ExpireAt(c.argv[1], when)];
      RunSetThenExpire(srv, v, c.argv[0], c.argv[1], c.argv[2], when);
  }

  // ---------------------------------------------------------------- the whole log

  /** What the server logs at once: a command, or a whole transaction. The
      databases named by MULTI and EXEC are the client's at that time. */
  datatype Unit =
    | Single(c: Fed)
    | Transaction(open: nat, body: seq<Fed>, close: nat)

  predicate AllExecuted(body: seq<Fed>, dbnum: nat) {
    forall i :: 0 <= i < |body| ==> Executed(body[i]) && body[i].dictid < dbnum
  }

  predicate UnitOk(u: Unit, dbnum: nat) {
    match u
    case Single(c) => Executed(c) && c.dictid < dbnum
    case Transaction(open, body, close) => open < dbnum && close < dbnum && AllExecuted(body, dbnum)
  }

  /** The commands logged for a run of commands, and the database selected after. */
  function LogSeq(selected: int, body: seq<Fed>): seq<Argv>
    requires forall i :: 0 <= i < |body| ==> Executed(body[i])
    decreases |body|
  {
    if body == [] then []
    else SelectIfNeeded(selected, body[0].dictid) + Translate(body[0]) + LogSeq(body[0].dictid, body[1..])
  }

  function SelectedAfter(selected: int, body: seq<Fed>): int {
    if body == [] then selected else body[|body| - 1].dictid
  }

  function ExecuteSeq(srv: Server, dbs: Dbs, body: seq<Fed>): (r: Dbs)
    requires AllExecuted(body, |dbs|)
    ensures |r| == |dbs|
    decreases |body|
  {
    if body == [] then dbs
    else ExecuteSeq(srv, Execute(srv, dbs, body[0], body[0].clock), body[1..])
  }

  function LogUnit(selected: int, u: Unit, dbnum: nat): seq<Argv>
    requires UnitOk(u, dbnum)
  {
    match u
    case Single(c) => SelectIfNeeded(selected, c.dictid) + Translate(c)
    case Transaction(open, body, close) =>
      SelectIfNeeded(selected, open) + ([[MULTI]] +
      (LogSeq(open, body) + SelectIfNeeded(SelectedAfter(open, body), close) + [[EXEC]]))
  }

  function UnitDb(u: Unit): nat {
    match u
    case Single(c) => c.dictid
    case Transaction(_, _, close) => close
  }

  function ExecuteUnit(srv: Server, dbs: Dbs, u: Unit): (r: Dbs)
    requires UnitOk(u, |dbs|)
    ensures |r| == |dbs|
  {
    match u
    case Single(c) => Execute(srv, dbs, c, c.clock)
    case Transaction(_, body, _) => ExecuteSeq(srv, dbs, body)
  }

  lemma NoControlConcat(a: seq<Argv>, b: seq<Argv>)
    requires NoControl(a) && NoControl(b)
    ensures NoControl(a + b)
  {
  }

  lemma SelectNoControl(selected: int, dictid: nat)
    ensures NoControl(SelectIfNeeded(selected, dictid))
  {
    KindsOfNames();
  }

  lemma {:induction false} LogSeqMeans(srv: Server, v: View, selected: int, body: seq<Fed>)
    requires v.Valid() && AllExecuted(body, |v.dbs|)
    requires selected == -1 || selected == v.cur
    ensures NoControl(LogSeq(selected, body))
    ensures RunSeq(srv, v, LogSeq(selected, body)).dbs == ExecuteSeq(srv, v.dbs, body)
    ensures selected == v.cur ==> RunSeq(srv, v, LogSeq(selected, body)).cur == SelectedAfter(selected, body)
    decreases |body|
  {
    if body != [] {
      var c := body[0];
      var sel := SelectIfNeeded(selected, c.dictid);
      var tr := Translate(c);
      var rest := LogSeq(c.dictid, body[1..]);
      SelectSelects(srv, v, selected, c.dictid);
      SelectNoControl(selected, c.dictid);
      var v1 := v.(cur := c.dictid);
      TranslateMeans(srv, v1, c);
      var v2 := v1.(dbs := Execute(srv, v.dbs, c, c.clock));
      LogSeqMeans(srv, v2, c.dictid, body[1..]);
      NoControlConcat(sel, tr);
      NoControlConcat(sel + tr, rest);
      RunSeqConcat(srv, v, sel, tr);
      RunSeqConcat(srv, v, sel + tr, rest);
    }
  }

  /** Replaying what was logged for one unit does exactly what executing it did,
      leaves no transaction open and leaves the unit's database selected. */
  lemma LogUnitMeans(srv: Server, v: View, selected: int, u: Unit)
    requires v.Valid() && UnitOk(u, |v.dbs|)
    requires selected == -1 || selected == v.cur
    ensures Runnable(LogUnit(selected, u, |v.dbs|))
    ensures Replay(srv, Session(v, false, []), LogUnit(selected, u, |v.dbs|))
            == Session(View(ExecuteUnit(srv, v.dbs, u), UnitDb(u)), false, [])
  {
    var s := Session(v, false, []);
    match u
    case Single(c) =>
      var sel := SelectIfNeeded(selected, c.dictid);
      SelectSelects(srv, v, selected, c.dictid);
      SelectNoControl(selected, c.dictid);
      TranslateMeans(srv, v.(cur := c.dictid), c);
      NoControlConcat(sel, Translate(c));
      RunSeqConcat(srv, v, sel, Translate(c));
      ReplayPlain(srv, s, sel + Translate(c));
    case Transaction(open, body, close) =>
      TransactionMeans(srv, v, selected, open, body, close);
  }

  lemma TransactionMeans(srv: Server, v: View, selected: int, open: nat, body: seq<Fed>, close: nat)
    requires v.Valid() && UnitOk(Transaction(open, body, close), |v.dbs|)
    requires selected == -1 || selected == v.cur
    ensures var log := LogUnit(selected, Transaction(open, body, close), |v.dbs|);
            && Runnable(log)
            && Replay(srv, Session(v, false, []), log)
               == Session(View(ExecuteSeq(srv, v.dbs, body), close), false, [])
  {
    KindsOfNames();
    var s := Session(v, false, []);
    var sel := SelectIfNeeded(selected, open);
    var last := SelectedAfter(open, body);
    var inner := LogSeq(open, body) + SelectIfNeeded(last, close);
    SelectSelects(srv, v, selected, open);
    SelectNoControl(selected, open);
    ReplayPlain(srv, s, sel);
    var v1 := v.(cur := open);
    var s1 := Session(v1, true, []);
    LogSeqMeans(srv, v1, open, body);
    SelectNoControl(last, close);
    NoControlConcat(LogSeq(open, body), SelectIfNeeded(last, close));
    var v2 := RunSeq(srv, v1, LogSeq(open, body));
    SelectSelects(srv, v2, last, close);
    RunSeqConcat(srv, v1, LogSeq(open, body), SelectIfNeeded(last, close));
    ReplayQueues(srv, s1, inner);
    assert [] + inner == inner;
    ReplayTransaction(srv, s.(view := v1), inner);
    ReplayConcat(srv, s, sel, [[MULTI]] + (inner + [[EXEC]]));
  }

  /** MULTI, queued commands, EXEC: the queue runs in order, once. */
  lemma ReplayTransaction(srv: Server, s: Session, inner: seq<Argv>)
    requires s.Valid() && !s.multi && s.queue == [] && NoControl(inner)
    ensures Runnable([[MULTI]] + (inner + [[EXEC]]))
    ensures Replay(srv, s, [[MULTI]] + (inner + [[EXEC]])) == s.(view := RunSeq(srv, s.view, inner))
  {
    hide KindOf;
    KindsOfNames();
    var all := [[MULTI]] + (inner + [[EXEC]]);
    assert all[1..] == inner + [[EXEC]];
    var s1 := Replay1(srv, s, [MULTI]);
    ReplayQueues(srv, s1, inner);
    assert s1.queue + inner == inner;
    ReplayConcat(srv, s1, inner, [[EXEC]]);
    var s2 := s1.(queue := inner);
    assert Replay(srv, s2, [[EXEC]]) == Replay1(srv, s2, [EXEC]) by { assert [[EXEC]][1..] == []; }
  }

  predicate UnitsOk(units: seq<Unit>, dbnum: nat) {
    forall i :: 0 <= i < |units| ==> UnitOk(units[i], dbnum)
  }

  function LogUnits(selected: int, units: seq<Unit>, dbnum: nat): seq<Argv>
    requires UnitsOk(units, dbnum)
    decreases |units|
  {
    if units == [] then []
    else LogUnit(selected, units[0], dbnum) + LogUnits(UnitDb(units[0]), units[1..], dbnum)
  }

  function ExecuteUnits(srv: Server, dbs: Dbs, units: seq<Unit>): (r: Dbs)
    requires UnitsOk(units, |dbs|)
    ensures |r| == |dbs|
    decreases |units|
  {
    if units == [] then dbs else ExecuteUnits(srv, ExecuteUnit(srv, dbs, units[0]), units[1..])
  }

  /** The database selected after `units`, when `cur` was selected before. */
  function DbAfter(cur: int, units: seq<Unit>): int {
    if units == [] then cur else UnitDb(units[|units| - 1])
  }

  /** The log is a meaning-preserving translation: for every sequence of commands
      and transactions over any databases, replaying the log from the state in
      which logging started rebuilds the same values and the same absolute
      expiries. Replay reads no clock, so this holds whenever it happens. */
  lemma {:induction false} LogMeansExecution(srv: Server, v: View, selected: int, units: seq<Unit>)
    requires v.Valid() && UnitsOk(units, |v.dbs|)
    requires selected == -1 || selected == v.cur
    ensures Runnable(LogUnits(selected, units, |v.dbs|))
    ensures 0 <= DbAfter(v.cur, units)
    ensures Replay(srv, Session(v, false, []), LogUnits(selected, units, |v.dbs|))
            == Session(View(ExecuteUnits(srv, v.dbs, units), DbAfter(v.cur, units)), false, [])
    decreases |units|
  {
    hide KindOf, LogUnit, ExecuteUnit, Executed;
    if units != [] {
      var u := units[0];
      var first := LogUnit(selected, u, |v.dbs|);
      LogUnitMeans(srv, v, selected, u);
      var v1 := View(ExecuteUnit(srv, v.dbs, u), UnitDb(u));
      LogMeansExecution(srv, v1, UnitDb(u), units[1..]);
      ReplayConcat(srv, Session(v, false, []), first, LogUnits(UnitDb(u), units[1..], |v.dbs|));
    }
  }

  // ---------------------------------------------------------------- the expiry in numbers

  /** A `long long`. */
  predicate Fits(x: int) { -0x8000_0000_0000_0000 <= x < 0x8000_0000_0000_0000 }

  lemma ReadsBack(n: int)
    ensures ParseInt(Decimal(n)) == n && IsNumber(Decimal(n))
  {
    ParseDecimal(n, []);
    assert Decimal(n) + [] == Decimal(n);
  }

  predicate Has(db: Db, key: Bytes, value: Value, expiry: int) {
    key in db && db[key].value == value && db[key].expiry == expiry
  }

  /** Executing the command at the time it is logged, and replaying what is logged for
      it, both leave `key` with that value and that expiry. */
  predicate Leaves(srv: Server, v: View, c: Fed, key: Bytes, value: Value, expiry: int)
    requires v.Valid() && Executed(c) && c.dictid == v.cur && Runnable(Translate(c))
  {
    && Has(Execute(srv, v.dbs, c, c.clock)[v.cur], key, value, expiry)
    && Has(RunSeq(srv, v, Translate(c)).dbs[v.cur], key, value, expiry)
  }

  /** EXPIRE, PEXPIRE and EXPIREAT of an existing key: the milliseconds logged, and left
      by execution and replay, are the clock plus a thousand times the number, the clock
      plus the number, a thousand times the number. */
  lemma ExpireExact(srv: Server, v: View, name: Bytes, key: Bytes, n: int, clock: int, ms: int)
    requires v.Valid() && Fits(1000 * n) && Fits(ms)
    requires || (Upper(name) == EXPIRE && ms == clock + 1000 * n)
             || (Upper(name) == PEXPIRE && ms == clock + n)
             || (Upper(name) == EXPIREAT && ms == 1000 * n)
    ensures var c := Fed(v.cur, [name, key, Decimal(n)], clock);
            && Executed(c) && Translate(c) == [[PEXPIREAT, key, Decimal(ms)]]
            && (key in v.dbs[v.cur] ==> Leaves(srv, v, c, key, v.dbs[v.cur][key].value, ms))
            && (key !in v.dbs[v.cur] ==> Execute(srv, v.dbs, c, clock) == v.dbs == RunSeq(srv, v, Translate(c)).dbs)
  {
    hide RunSeq, Decimal, ParseInt;
    ReadsBack(n);
    var c := Fed(v.cur, [name, key, Decimal(n)], clock);
    TranslateMeans(srv, v, c);
  }

  /** SETEX and PSETEX: the clock plus a thousand times the number, or plus the number. */
  lemma SetExExact(srv: Server, v: View, name: Bytes, key: Bytes, text: Bytes, n: int, clock: int, ms: int)
    requires v.Valid() && Fits(1000 * n) && Fits(ms)
    requires (Upper(name) == SETEX && ms == clock + 1000 * n) || (Upper(name) == PSETEX && ms == clock + n)
    ensures var c := Fed(v.cur, [name, key, Decimal(n), text], clock);
            && Executed(c) && Translate(c) == [[SET, key, text], [PEXPIREAT, key, Decimal(ms)]]
            && Runnable(Translate(c)) && Leaves(srv, v, c, key, Str(text), ms)
  {
    hide RunSeq, Decimal, ParseInt;
    ReadsBack(n);
    var c := Fed(v.cur, [name, key, Decimal(n), text], clock);
    TranslateMeans(srv, v, c);
  }

  /** A plain SET leaves the value and no expiry, whatever was there. */
  lemma SetPlainExact(srv: Server, v: View, name: Bytes, key: Bytes, text: Bytes, clock: int)
    requires v.Valid() && Upper(name) == SET
    ensures var c := Fed(v.cur, [name, key, text], clock);
            && Executed(c) && Translate(c) == [[name, key, text]]
            && Runnable(Translate(c)) && Leaves(srv, v, c, key, Str(text), -1)
  {
    hide RunSeq;
    TranslateMeans(srv, v, Fed(v.cur, [name, key, text], clock));
  }

  /** NX and XX options. */
  predicate Flags(opts: seq<Bytes>) {
    forall i :: 0 <= i < |opts| ==> Upper(opts[i]) == NX || Upper(opts[i]) == XX
  }

  lemma {:induction false} FlagsSkipped(argv: Argv, i: nat, j: nat, time: SetTime)
    requires i <= j <= |argv| && Flags(argv[i..j])
    ensures ReadOptions(argv, i, time) == ReadOptions(argv, j, time)
    decreases j - i
  {
    if i < j {
      assert argv[i] == argv[i..j][0] && argv[i + 1..j] == argv[i..j][1..];
      FlagsSkipped(argv, i + 1, j, time);
    }
  }

  lemma TimeOption(argv: Argv, a: seq<Bytes>, opt: Bytes, n: int, b: seq<Bytes>)
    requires |argv| > 3 && argv[3..] == a + [opt, Decimal(n)] + b && Flags(a) && Flags(b)
    requires Upper(opt) == EX || Upper(opt) == PX
    ensures ReadOptions(argv, 3, Never) == Options(After(if Upper(opt) == EX then KExpire else KPExpire, Decimal(n)))
  {
    hide Decimal, ParseInt;
    ReadsBack(n);
    var j := 3 + |a|;
    assert argv[3..j] == argv[3..][..|a|] == a;
    assert argv[j] == argv[3..][|a|] == opt && argv[j + 1] == argv[3..][|a| + 1] == Decimal(n);
    assert argv[j + 2..|argv|] == argv[3..][|a| + 2..] == b;
    FlagsSkipped(argv, 3, j, Never);
    var time := After(if Upper(opt) == EX then KExpire else KPExpire, Decimal(n));
    FlagsSkipped(argv, j + 2, |argv|, time);
    assert EX != PX && EX[0] == 69 && PX[0] == 80 && NX[0] == 78 && XX[0] == 88;
  }

  /** SET with EX or PX, wherever it stands among the other options. */
  lemma SetOptionExact(srv: Server, v: View, name: Bytes, key: Bytes, text: Bytes, a: seq<Bytes>, opt: Bytes, n: int, b: seq<Bytes>, clock: int, ms: int)
    requires v.Valid() && Fits(1000 * n) && Fits(ms) && Upper(name) == SET && Flags(a) && Flags(b)
    requires (Upper(opt) == EX && ms == clock + 1000 * n) || (Upper(opt) == PX && ms == clock + n)
    ensures var c := Fed(v.cur, [name, key, text] + (a + [opt, Decimal(n)] + b), clock);
            && Executed(c) && Translate(c) == [[name, key, text], [PEXPIREAT, key, Decimal(ms)]]
            && Runnable(Translate(c)) && Leaves(srv, v, c, key, Str(text), ms)
  {
    hide RunSeq, Decimal, ParseInt, ReadOptions, ScanTime;
    var argv := [name, key, text] + (a + [opt, Decimal(n)] + b);
    var c := Fed(v.cur, argv, clock);
    ReadsBack(n);
    assert argv[3..] == a + [opt, Decimal(n)] + b;
    TimeOption(argv, a, opt, n, b);
    TranslateSetIs(c);
    TranslateMeans(srv, v, c);
  }

  // ---------------------------------------------------------------- two clock readings

  /** True when the command's expiry is computed from the clock and takes effect. */
  predicate ReadsClock(dbs: Dbs, c: Fed)
    requires Executed(c) && c.dictid < |dbs|
  {
    var k := KindOf(c.argv[0]);
    if k.KExpire? || k.KPExpire? then c.argv[1] in dbs[c.dictid]
    else if k.KSetEx? || k.KPSetEx? then true
    else k.KSet? && |c.argv| > 3 && ReadOptions(c.argv, 3, Never).time.After?
  }

  lemma WhenTellsClocks(k: Kind, text: Bytes, t: int, u: int)
    requires IsRelative(k)
    requires 0 <= t < 0x8000_0000_0000_0000 && 0 <= u < 0x8000_0000_0000_0000
    ensures When(k, text, t) == When(k, text, u) <==> t == u
  {
  }

  lemma {:induction false} OptionsAreRelative(argv: Argv, i: nat, time: SetTime)
    requires time.After? ==> time.unit.KExpire? || time.unit.KPExpire?
    ensures var o := ReadOptions(argv, i, time);
            o.Options? && o.time.After? ==> o.time.unit.KExpire? || o.time.unit.KPExpire?
    decreases |argv| - i
  {
    if i < |argv| {
      OptionsAreRelative(argv, i + 1, time);
      if i + 1 < |argv| {
        OptionsAreRelative(argv, i + 2, After(KExpire, argv[i + 1]));
        OptionsAreRelative(argv, i + 2, After(KPExpire, argv[i + 1]));
      }
    }
  }

  /** The clock is read once when the command executes and again when it is
      logged. The logged expiry is the executed one exactly when both readings
      agree, or the command did not use the clock. */
  lemma LoggedExpiryExact(srv: Server, v: View, c: Fed, executedAt: int)
    requires v.Valid() && Executed(c) && c.dictid == v.cur
    requires 0 <= executedAt < 0x8000_0000_0000_0000 && 0 <= c.clock < 0x8000_0000_0000_0000
    ensures NoControl(Translate(c))
    ensures RunSeq(srv, v, Translate(c)).dbs == Execute(srv, v.dbs, c, executedAt)
            <==> executedAt == c.clock || !ReadsClock(v.dbs, c)
  {
    TranslateMeans(srv, v, c);
    var k := KindOf(c.argv[0]);
    var a := Execute(srv, v.dbs, c, executedAt);
    var b := Execute(srv, v.dbs, c, c.clock);
    if ReadsClock(v.dbs, c) && executedAt != c.clock {
      OptionsAreRelative(c.argv, 3, Never);
      var unit := if k.KSet? then ReadOptions(c.argv, 3, Never).time.unit else k;
      var text := if k.KSet? then ReadOptions(c.argv, 3, Never).time.text else c.argv[2];
      WhenTellsClocks(unit, text, executedAt, c.clock);
      var ea: Entry := a[v.cur][c.argv[1]];
      var eb: Entry := b[v.cur][c.argv[1]];
      assert ea.expiry == When(unit, text, executedAt);
      assert eb.expiry == When(unit, text, c.clock);
    }
  }

  /** For instance a SETEX executed at time 0 and logged at time 1 is logged with
      another expiry than it got. */
  lemma LoggedLate(srv: Server, v: View, key: Bytes, text: Bytes)
    requires v.Valid()
    ensures var c := Fed(v.cur, [SETEX, key, Decimal(1), text], 1);
            Executed(c) && NoControl(Translate(c)) && RunSeq(srv, v, Translate(c)).dbs != Execute(srv, v.dbs, c, 0)
  {
    hide KindOf, Translate, Execute, RunSeq;
    SetExKind();
    var c := Fed(v.cur, [SETEX, key, Decimal(1), text], 1);
    LoggedExpiryExact(srv, v, c, 0);
  }

  lemma SetExKind()
    ensures KindOf(SETEX).KSetEx?
  {
    assert Upper(SETEX) == SETEX && |SETEX| == 5 && SETEX[0] == 83 && SETEX[1] == 69 && SETEX[2] == 84;
  }
}
