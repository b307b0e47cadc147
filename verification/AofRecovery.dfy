/** What recovery from a cut means for the commands and transactions the server
    had logged: transactions are applied whole or not at all, SETEX and its kin
    are not, and a file truncated inside a transaction must not be appended to. */
module AofRecovery {
  import opened Resp
  import opened Dataset
  import opened AofFeed
  import opened AofLoad

  // ---------------------------------------------------------------- what can be logged

  /** The names the log writer itself uses. */
  predicate KnowsLogNames(srv: Server) {
    srv.known(SELECT) && srv.known(MULTI) && srv.known(EXEC) && srv.known(SET) && srv.known(PEXPIREAT)
  }

  predicate FedOk(srv: Server, c: Fed) {
    Executed(c) && PrintableCommand(c.argv) && srv.known(c.argv[0])
  }

  /** A unit the server can have executed and logged. */
  predicate Loggable(srv: Server, u: Unit, dbnum: nat) {
    && UnitOk(u, dbnum)
    && match u
       case Single(c) => FedOk(srv, c)
       case Transaction(_, body, _) => forall i :: 0 <= i < |body| ==> FedOk(srv, body[i])
  }

  predicate AllLoggable(srv: Server, units: seq<Unit>, dbnum: nat) {
    KnowsLogNames(srv) && Printable(dbnum) && forall i :: 0 <= i < |units| ==> Loggable(srv, units[i], dbnum)
  }

  /** Printed and known commands, which the loader accepts. */
  predicate Readable(srv: Server, cmds: seq<Argv>) {
    PrintableAll(cmds) && Known(srv, cmds)
  }

  lemma ReadableConcat(srv: Server, a: seq<Argv>, b: seq<Argv>)
    requires Readable(srv, a) && Readable(srv, b)
    ensures Readable(srv, a + b)
  {
  }

  lemma DecimalPrintable(n: int)
    requires -0x8000_0000_0000_0000 <= n < 0x1_0000_0000_0000_0000
    ensures Printable(|Decimal(n)|)
  {
    PrintableFits(if n < 0 then -n else n);
  }

  lemma SelectReadable(srv: Server, selected: int, dictid: nat, dbnum: nat)
    requires KnowsLogNames(srv) && Printable(dbnum) && dictid < dbnum
    ensures Readable(srv, SelectIfNeeded(selected, dictid))
  {
    DecimalPrintable(dictid);
  }

  lemma ExpireAtReadable(srv: Server, key: Bytes, when: int)
    requires KnowsLogNames(srv) && Printable(|key|)
    requires -0x8000_0000_0000_0000 <= when < 0x8000_0000_0000_0000
    ensures Readable(srv, [ExpireAt(key, when)])
  {
    DecimalPrintable(when);
  }

  lemma TranslateReadable(srv: Server, c: Fed)
    requires KnowsLogNames(srv) && FedOk(srv, c)
    ensures Readable(srv, Translate(c))
  {
    hide KindOf;
    var k := KindOf(c.argv[0]);
    if k.KExpire? || k.KPExpire? || k.KExpireAt? {
      ExpireAtReadable(srv, c.argv[1], When(k, c.argv[2], c.clock));
    } else if k.KSetEx? || k.KPSetEx? {
      var when := When(k, c.argv[2], c.clock);
      ExpireAtReadable(srv, c.argv[1], when);
      assert Translate(c) == [[SET, c.argv[1], c.argv[3]]] + [ExpireAt(c.argv[1], when)];
      ReadableConcat(srv, [[SET, c.argv[1], c.argv[3]]], [ExpireAt(c.argv[1], when)]);
    } else if k.KSet? && |c.argv| > 3 {
      TranslateSetIs(c);
      var t := ReadOptions(c.argv, 3, Never).time;
      if t.After? && IsRelative(t.unit) {
        ExpireAtReadable(srv, c.argv[1], When(t.unit, t.text, c.clock));
      }
      ReadableConcat(srv, [[c.argv[0], c.argv[1], c.argv[2]]], TimeCommands(c.argv[1], t, c.clock));
    }
  }

  lemma {:induction false} LogSeqReadable(srv: Server, selected: int, body: seq<Fed>, dbnum: nat)
    requires KnowsLogNames(srv) && Printable(dbnum) && AllExecuted(body, dbnum)
    requires forall i :: 0 <= i < |body| ==> FedOk(srv, body[i])
    ensures Readable(srv, LogSeq(selected, body))
    decreases |body|
  {
    hide KindOf, Translate, SelectIfNeeded;
    if body != [] {
      var sel := SelectIfNeeded(selected, body[0].dictid);
      SelectReadable(srv, selected, body[0].dictid, dbnum);
      TranslateReadable(srv, body[0]);
      LogSeqReadable(srv, body[0].dictid, body[1..], dbnum);
      ReadableConcat(srv, sel, Translate(body[0]));
      ReadableConcat(srv, sel + Translate(body[0]), LogSeq(body[0].dictid, body[1..]));
    }
  }

  lemma LogUnitReadable(srv: Server, selected: int, u: Unit, dbnum: nat)
    requires KnowsLogNames(srv) && Printable(dbnum) && Loggable(srv, u, dbnum)
    ensures Readable(srv, LogUnit(selected, u, dbnum))
  {
    hide KindOf, Translate, SelectIfNeeded;
    match u
    case Single(c) =>
      SelectReadable(srv, selected, c.dictid, dbnum);
      TranslateReadable(srv, c);
      ReadableConcat(srv, SelectIfNeeded(selected, c.dictid), Translate(c));
    case Transaction(open, body, close) =>
      var sel := SelectIfNeeded(selected, open);
      var sel2 := SelectIfNeeded(SelectedAfter(open, body), close);
      SelectReadable(srv, selected, open, dbnum);
      SelectReadable(srv, SelectedAfter(open, body), close, dbnum);
      LogSeqReadable(srv, open, body, dbnum);
      ReadableConcat(srv, LogSeq(open, body), sel2);
      ReadableConcat(srv, LogSeq(open, body) + sel2, [[EXEC]]);
      ReadableConcat(srv, [[MULTI]], LogSeq(open, body) + sel2 + [[EXEC]]);
      ReadableConcat(srv, sel, [[MULTI]] + (LogSeq(open, body) + sel2 + [[EXEC]]));
  }

  /** Everything the log writer prints, the loader reads. */
  lemma {:induction false} LogUnitsReadable(srv: Server, selected: int, units: seq<Unit>, dbnum: nat)
    requires AllLoggable(srv, units, dbnum)
    ensures Readable(srv, LogUnits(selected, units, dbnum))
    decreases |units|
  {
    hide KindOf, LogUnit;
    if units != [] {
      LogUnitReadable(srv, selected, units[0], dbnum);
      LogUnitsReadable(srv, UnitDb(units[0]), units[1..], dbnum);
      ReadableConcat(srv, LogUnit(selected, units[0], dbnum), LogUnits(UnitDb(units[0]), units[1..], dbnum));
    }
  }

  // ---------------------------------------------------------------- where a cut falls

  lemma {:induction false} WholeConcat(a: seq<Argv>, b: seq<Argv>, cut: nat)
    requires cut >= |EncodeAll(a)|
    ensures Whole(a + b, cut) == |a| + Whole(b, cut - |EncodeAll(a)|)
    decreases |a|
  {
    hide EncodeCommand;
    if a == [] {
      assert a + b == b;
    } else {
      assert (a + b)[1..] == a[1..] + b;
      WholeConcat(a[1..], b, cut - |EncodeCommand(a[0])|);
    }
  }

  lemma {:induction false} WholeInFirst(a: seq<Argv>, b: seq<Argv>, cut: nat)
    requires cut < |EncodeAll(a)|
    ensures Whole(a + b, cut) == Whole(a, cut) < |a|
    decreases |a|
  {
    hide EncodeCommand;
    assert (a + b)[1..] == a[1..] + b;
    if cut >= |EncodeCommand(a[0])| {
      WholeInFirst(a[1..], b, cut - |EncodeCommand(a[0])|);
    }
  }

  function SelectedAt(selected: int, units: seq<Unit>, j: nat): int
    requires j <= |units|
  {
    DbAfter(selected, units[..j])
  }

  /** The commands whole before the cut: those of the first `j` units and `p`
      commands, not all, of the next. */
  function WholeLog(selected: int, units: seq<Unit>, dbnum: nat, j: nat, p: nat): seq<Argv>
    requires UnitsOk(units, dbnum) && j <= |units|
  {
    LogUnits(selected, units[..j], dbnum) +
    if j < |units| && p <= |LogUnit(SelectedAt(selected, units, j), units[j], dbnum)|
    then LogUnit(SelectedAt(selected, units, j), units[j], dbnum)[..p] else []
  }

  lemma WholeLogNone(selected: int, units: seq<Unit>, dbnum: nat, p: nat)
    requires UnitsOk(units, dbnum)
    ensures SelectedAt(selected, units, 0) == selected
    ensures units == [] ==> LogUnits(selected, units, dbnum) == WholeLog(selected, units, dbnum, 0, p) == []
    ensures units != [] && p <= |LogUnit(selected, units[0], dbnum)|
            ==> WholeLog(selected, units, dbnum, 0, p) == LogUnit(selected, units[0], dbnum)[..p]
  {
    hide LogUnit;
    assert units[..0] == [];
  }

  lemma WholeLogCons(selected: int, units: seq<Unit>, dbnum: nat, j: nat, p: nat)
    requires UnitsOk(units, dbnum) && units != [] && j < |units|
    ensures SelectedAt(selected, units, j + 1) == SelectedAt(UnitDb(units[0]), units[1..], j)
    ensures WholeLog(selected, units, dbnum, j + 1, p)
            == LogUnit(selected, units[0], dbnum) + WholeLog(UnitDb(units[0]), units[1..], dbnum, j, p)
  {
    hide LogUnit;
    assert units[..j + 1][1..] == units[1..][..j] && units[..j + 1][0] == units[0];
  }

  lemma EmptyLog(selected: int, units: seq<Unit>, dbnum: nat)
    requires UnitsOk(units, dbnum)
    ensures EncodeAll(LogUnits(selected, units[..0], dbnum)) == []
  {
  }

  lemma LogPrefix(selected: int, units: seq<Unit>, dbnum: nat, j: nat)
    requires UnitsOk(units, dbnum) && j < |units|
    ensures EncodeAll(LogUnits(selected, units[..j + 1], dbnum))
            == EncodeAll(LogUnit(selected, units[0], dbnum)) + EncodeAll(LogUnits(UnitDb(units[0]), units[1..][..j], dbnum))
  {
    hide LogUnit, EncodeAll;
    assert units[..j + 1][1..] == units[1..][..j] && units[..j + 1][0] == units[0];
    EncodeAllConcat(LogUnit(selected, units[0], dbnum), LogUnits(UnitDb(units[0]), units[1..][..j], dbnum));
  }

  lemma {:induction false} SplitCut(selected: int, units: seq<Unit>, dbnum: nat, cut: nat) returns (j: nat, p: nat)
    requires UnitsOk(units, dbnum) && cut <= |EncodeAll(LogUnits(selected, units, dbnum))|
    ensures j <= |units|
    ensures j < |units| ==> p < |LogUnit(SelectedAt(selected, units, j), units[j], dbnum)|
    ensures var log := LogUnits(selected, units, dbnum);
            log[..Whole(log, cut)] == WholeLog(selected, units, dbnum, j, p)
    ensures |EncodeAll(LogUnits(selected, units[..j], dbnum))| <= cut
    ensures j < |units| ==> cut < |EncodeAll(LogUnits(selected, units[..j + 1], dbnum))|
    decreases |units|
  {
    hide LogUnit, EncodeCommand, EncodeAll, Whole, WholeLog;
    var log := LogUnits(selected, units, dbnum);
    if units == [] {
      j, p := 0, 0;
      WholeLogNone(selected, units, dbnum, 0);
      EmptyLog(selected, units, dbnum);
    } else {
      var u := units[0];
      var first := LogUnit(selected, u, dbnum);
      var rest := LogUnits(UnitDb(u), units[1..], dbnum);
      EncodeAllConcat(first, rest);
      if cut < |EncodeAll(first)| {
        WholeInFirst(first, rest, cut);
        j, p := 0, Whole(first, cut);
        WholeLogNone(selected, units, dbnum, p);
        EmptyLog(selected, units, dbnum);
        assert log[..p] == first[..p];
        LogPrefix(selected, units, dbnum, 0);
        EmptyLog(UnitDb(u), units[1..], dbnum);
      } else {
        WholeConcat(first, rest, cut);
        var j1, p1 := SplitCut(UnitDb(u), units[1..], dbnum, cut - |EncodeAll(first)|);
        j, p := j1 + 1, p1;
        var k := Whole(rest, cut - |EncodeAll(first)|);
        assert log[..|first| + k] == first + rest[..k];
        WholeLogCons(selected, units, dbnum, j1, p1);
        LogPrefix(selected, units, dbnum, j1);
        if j1 < |units[1..]| { LogPrefix(selected, units, dbnum, j1 + 1); }
      }
    }
  }

  // ---------------------------------------------------------------- part of a unit

  /** SET without the PEXPIREAT that should follow: the value without its expiry. */
  function WithoutExpiry(dbs: Dbs, c: Fed): Dbs
    requires Executed(c) && c.dictid < |dbs|
  {
    var k := KindOf(c.argv[0]);
    if (k.KSetEx? || k.KPSetEx?) then dbs[c.dictid := SetString(dbs[c.dictid], c.argv[1], c.argv[3])]
    else if k.KSet? && |c.argv| > 3 then dbs[c.dictid := SetString(dbs[c.dictid], c.argv[1], c.argv[2])]
    else dbs
  }

  lemma NoControlPrefix(a: seq<Argv>, p: nat)
    requires NoControl(a) && p <= |a|
    ensures NoControl(a[..p])
  {
  }

  lemma ReplayOpen(srv: Server, v: View, queued: seq<Argv>)
    requires v.Valid() && NoControl(queued)
    ensures Replay(srv, Session(v, false, []), [[MULTI]] + queued) == Session(v, true, queued)
  {
    hide KindOf;
    KindsOfNames();
    assert ([[MULTI]] + queued)[1..] == queued;
    ReplayQueues(srv, Session(v, true, []), queued);
    assert [] + queued == queued;
  }

  lemma PartOf<T>(a: seq<T>, m: T, b: seq<T>, e: T, p: nat)
    requires p <= |a| + 1 + |b|
    ensures (a + ([m] + (b + [e])))[..p] == if p <= |a| then a[..p] else a + ([m] + b[..p - |a| - 1])
  {
  }

  /** Replaying part of a logged transaction changes no database; from MULTI on
      it leaves the transaction open with exactly those commands queued. */
  lemma PartOfTransaction(srv: Server, v: View, selected: int, open: nat, body: seq<Fed>, close: nat, p: nat)
    requires v.Valid() && UnitOk(Transaction(open, body, close), |v.dbs|)
    requires selected == -1 || selected == v.cur
    requires p < |LogUnit(selected, Transaction(open, body, close), |v.dbs|)|
    ensures var part := LogUnit(selected, Transaction(open, body, close), |v.dbs|)[..p];
            var sel := SelectIfNeeded(selected, open);
            && Runnable(part)
            && var s := Replay(srv, Session(v, false, []), part);
            && s.view.dbs == v.dbs
            && s.multi == (p > |sel|)
            && (!s.multi ==> s.queue == [])
            && (s.multi ==> s.view.cur == open && NoControl(s.queue) && part == sel + ([[MULTI]] + s.queue))
  {
    hide KindOf, SelectIfNeeded, Replay1, RunLogged;
    var s := Session(v, false, []);
    var sel := SelectIfNeeded(selected, open);
    var last := SelectedAfter(open, body);
    var inner := LogSeq(open, body) + SelectIfNeeded(last, close);
    var log := LogUnit(selected, Transaction(open, body, close), |v.dbs|);
    SelectSelects(srv, v, selected, open);
    SelectNoControl(selected, open);
    var v1 := v.(cur := open);
    LogSeqMeans(srv, v1, open, body);
    SelectNoControl(last, close);
    NoControlConcat(LogSeq(open, body), SelectIfNeeded(last, close));
    PartOf(sel, [MULTI], inner, [EXEC], p);
    ReplayPlain(srv, s, sel);
    if p <= |sel| {
      SelectPrefix(selected, open, p);
    } else {
      var queued := inner[..p - |sel| - 1];
      NoControlPrefix(inner, p - |sel| - 1);
      ReplayOpen(srv, v1, queued);
      ReplayConcat(srv, s, sel, [[MULTI]] + queued);
    }
  }

  lemma SelectPrefix(selected: int, dictid: nat, p: nat)
    requires p <= |SelectIfNeeded(selected, dictid)|
    ensures var sel := SelectIfNeeded(selected, dictid); sel[..p] == [] || sel[..p] == sel
  {
  }

  lemma TranslateFirst(srv: Server, v: View, c: Fed)
    requires v.Valid() && Executed(c) && c.dictid == v.cur && |Translate(c)| > 1
    ensures |Translate(c)| == 2 && |Translate(c)[0]| >= 1
    ensures RunSeq(srv, v, [Translate(c)[0]]) == v.(dbs := WithoutExpiry(v.dbs, c))
  {
    hide KindOf;
    KindsOfNames();
    var k := KindOf(c.argv[0]);
    if k.KSetEx? || k.KPSetEx? {
      RunSeq1(srv, v, [SET, c.argv[1], c.argv[3]]);
      RunSet(srv, v, SET, c.argv[1], c.argv[3]);
    } else {
      TranslateSetIs(c);
      RunSeq1(srv, v, [c.argv[0], c.argv[1], c.argv[2]]);
      RunSet(srv, v, c.argv[0], c.argv[1], c.argv[2]);
    }
  }

  /** Replaying part of a logged command changes nothing, except that a command
      logged as SET and PEXPIREAT can lose the second: the key then stays
      without its expiry. */
  lemma PartOfSingle(srv: Server, v: View, selected: int, c: Fed, p: nat)
    requires v.Valid() && UnitOk(Single(c), |v.dbs|)
    requires selected == -1 || selected == v.cur
    requires p < |LogUnit(selected, Single(c), |v.dbs|)|
    ensures var part := LogUnit(selected, Single(c), |v.dbs|)[..p];
            && Runnable(part)
            && var s := Replay(srv, Session(v, false, []), part);
            && !s.multi && s.queue == []
            && s.view.dbs == if p > |SelectIfNeeded(selected, c.dictid)| then WithoutExpiry(v.dbs, c) else v.dbs
  {
    hide KindOf;
    var s := Session(v, false, []);
    var sel := SelectIfNeeded(selected, c.dictid);
    var log := LogUnit(selected, Single(c), |v.dbs|);
    SelectSelects(srv, v, selected, c.dictid);
    SelectNoControl(selected, c.dictid);
    ReplayPlain(srv, s, sel);
    if p <= |sel| {
      assert log[..p] == sel[..p];
      SelectPrefix(selected, c.dictid, p);
    } else {
      var v1 := v.(cur := c.dictid);
      TranslateMeans(srv, v1, c);
      TranslateFirst(srv, v1, c);
      var one := [Translate(c)[0]];
      assert log[..p] == sel + one;
      ReplayPlain(srv, s.(view := v1), one);
      ReplayConcat(srv, s, sel, one);
    }
  }

  // ---------------------------------------------------------------- recovery from any cut

  /** A log: what the file already held, from earlier runs of the server or from a
      rewrite, and the units logged after it, the first with `selected` as the database
      last selected. */
  datatype History = History(base: seq<Argv>, selected: int, units: seq<Unit>)

  /** The databases that commands which leave no transaction open replay to. */
  predicate Closed(srv: Server, base: seq<Argv>, v: View) {
    && v.Valid() && Readable(srv, base)
    && Replay(srv, Start(|v.dbs|), base) == Session(v, false, [])
  }

  /** `v` is what the base replays to. A server that did not write the base itself has
      no database selected. */
  predicate HistoryOk(srv: Server, h: History, v: View) {
    && Closed(srv, h.base, v) && AllLoggable(srv, h.units, |v.dbs|)
    && (h.selected == -1 || h.selected == v.cur)
  }

  function Text(h: History, dbnum: nat): seq<Argv>
    requires UnitsOk(h.units, dbnum)
  {
    h.base + LogUnits(h.selected, h.units, dbnum)
  }

  /** The text of the log up to its first `j` units. */
  function TextUpTo(h: History, dbnum: nat, j: nat): seq<Argv>
    requires UnitsOk(h.units, dbnum) && j <= |h.units|
  {
    h.base + LogUnits(h.selected, h.units[..j], dbnum)
  }

  /** A cut of the file at or after the base. */
  predicate CutAfterBase(h: History, dbnum: nat, cut: nat)
    requires UnitsOk(h.units, dbnum)
  {
    0 < cut && |EncodeAll(h.base)| <= cut <= |EncodeAll(Text(h, dbnum))|
  }

  /** The commands of the log that are whole before the cut. */
  function WholePart(h: History, dbnum: nat, cut: nat): seq<Argv>
    requires UnitsOk(h.units, dbnum)
  {
    Text(h, dbnum)[..Whole(Text(h, dbnum), cut)]
  }

  lemma TextReadable(srv: Server, h: History, v: View)
    requires HistoryOk(srv, h, v)
    ensures Readable(srv, Text(h, |v.dbs|)) && Runnable(h.base)
  {
    hide KindOf, LogUnits, EncodeAll, Replay;
    LogUnitsReadable(srv, h.selected, h.units, |v.dbs|);
    ReadableConcat(srv, h.base, LogUnits(h.selected, h.units, |v.dbs|));
  }

  /** Where the cut falls: after `j` whole units and `p` commands of the next. */
  lemma SplitText(h: History, dbnum: nat, cut: nat) returns (j: nat, p: nat)
    requires UnitsOk(h.units, dbnum) && CutAfterBase(h, dbnum, cut)
    ensures j <= |h.units|
    ensures j < |h.units| ==> p < |LogUnit(SelectedAt(h.selected, h.units, j), h.units[j], dbnum)|
    ensures WholePart(h, dbnum, cut) == h.base + WholeLog(h.selected, h.units, dbnum, j, p)
    ensures |EncodeAll(TextUpTo(h, dbnum, j))| <= cut
    ensures j < |h.units| ==> cut < |EncodeAll(TextUpTo(h, dbnum, j + 1))|
  {
    hide LogUnit, EncodeAll, Whole, WholeLog, LogUnits;
    var log := LogUnits(h.selected, h.units, dbnum);
    EncodeAllConcat(h.base, log);
    var rest := cut - |EncodeAll(h.base)|;
    j, p := SplitCut(h.selected, h.units, dbnum, rest);
    WholeConcat(h.base, log, cut);
    assert (h.base + log)[..|h.base| + Whole(log, rest)] == h.base + log[..Whole(log, rest)];
    EncodeAllConcat(h.base, LogUnits(h.selected, h.units[..j], dbnum));
    if j < |h.units| { EncodeAllConcat(h.base, LogUnits(h.selected, h.units[..j + 1], dbnum)); }
  }

  /** Replaying `j` whole units, then part of the next one. */
  lemma ReplayCut(srv: Server, v: View, selected: int, units: seq<Unit>, j: nat, p: nat)
    requires v.Valid() && UnitsOk(units, |v.dbs|) && j <= |units| && (selected == -1 || selected == v.cur)
    requires j < |units| ==> p < |LogUnit(SelectedAt(selected, units, j), units[j], |v.dbs|)|
    ensures Runnable(WholeLog(selected, units, |v.dbs|, j, p))
    ensures var s := Replay(srv, Session(v, false, []), WholeLog(selected, units, |v.dbs|, j, p));
            var dbs := ExecuteUnits(srv, v.dbs, units[..j]);
            && (!s.multi ==> s.queue == [])
            && (j == |units| ==> !s.multi && s.view.dbs == dbs)
            && (j < |units| && units[j].Transaction? ==> s.view.dbs == dbs)
            && (j < |units| && units[j].Single? ==> !s.multi && (s.view.dbs == dbs || s.view.dbs == WithoutExpiry(dbs, units[j].c)))
            && (s.multi ==> j < |units| && units[j].Transaction? && NoControl(s.queue)
                            && WholeLog(selected, units, |v.dbs|, j, p)
                               == LogUnits(selected, units[..j], |v.dbs|)
                                  + (SelectIfNeeded(SelectedAt(selected, units, j), units[j].open) + ([[MULTI]] + s.queue)))
  {
    hide KindOf, LogUnit, SelectIfNeeded, Replay1, RunLogged, WithoutExpiry;
    var log := LogUnits(selected, units[..j], |v.dbs|);
    LogMeansExecution(srv, v, selected, units[..j]);
    var v1 := View(ExecuteUnits(srv, v.dbs, units[..j]), DbAfter(v.cur, units[..j]));
    var sel := SelectedAt(selected, units, j);
    assert sel == -1 || sel == v1.cur by { SelectedIs(selected, v.cur, units[..j]); }
    if j == |units| {
      assert log + [] == log;
    } else {
      var part := LogUnit(sel, units[j], |v.dbs|)[..p];
      match units[j] {
        case Single(c) => PartOfSingle(srv, v1, sel, c, p);
        case Transaction(open, body, close) => PartOfTransaction(srv, v1, sel, open, body, close, p);
      }
      ReplayConcat(srv, Session(v, false, []), log, part);
    }
  }

  lemma SelectedIs(selected: int, cur: nat, units: seq<Unit>)
    requires selected == -1 || selected == cur
    ensures DbAfter(selected, units) == -1 || DbAfter(selected, units) == DbAfter(cur, units)
  {
  }

  /** The databases a load of the cut file may end with: those after the first `j`
      units, or, if the next is one command logged as SET and PEXPIREAT, with that
      command's value but not its expiry. */
  predicate Recovered(srv: Server, dbs: Dbs, units: seq<Unit>, j: nat, loaded: Dbs)
    requires UnitsOk(units, |dbs|) && j <= |units|
  {
    var done := ExecuteUnits(srv, dbs, units[..j]);
    loaded == done || (j < |units| && units[j].Single? && loaded == WithoutExpiry(done, units[j].c))
  }

  /** Recovery from any cut of any log after its base: the units wholly before the
      cut are all applied; of the next, a transaction is not applied at all, and a
      single command is not applied either, unless it was logged as SET and PEXPIREAT
      and the cut fell between, which leaves the value without its expiry. */
  lemma CutLogRecovers(srv: Server, h: History, v: View, cut: nat) returns (j: nat)
    requires HistoryOk(srv, h, v) && CutAfterBase(h, |v.dbs|, cut)
    ensures j <= |h.units| && |EncodeAll(TextUpTo(h, |v.dbs|, j))| <= cut
    ensures j < |h.units| ==> cut < |EncodeAll(TextUpTo(h, |v.dbs|, j + 1))|
    ensures var r := Load(srv, EncodeAll(Text(h, |v.dbs|))[..cut], |v.dbs|, true);
            r.Loaded? && Recovered(srv, v.dbs, h.units, j, r.session.view.dbs)
  {
    hide KindOf, LogUnit, LogUnits, WithoutExpiry, Whole, EncodeAll, Replay, Load, ExecuteUnits, WholeLog;
    TextReadable(srv, h, v);
    LoadCutLog(srv, Text(h, |v.dbs|), cut, |v.dbs|);
    var p;
    j, p := SplitText(h, |v.dbs|, cut);
    ReplayCut(srv, v, h.selected, h.units, j, p);
    ReplayConcat(srv, Start(|v.dbs|), h.base, WholeLog(h.selected, h.units, |v.dbs|, j, p));
  }

  // ---------------------------------------------------------------- appending after recovery

  /** The cut fell inside a command of a transaction that was still open. */
  predicate TornInsideTransaction(srv: Server, h: History, v: View, cut: nat)
    requires v.Valid() && UnitsOk(h.units, |v.dbs|)
  {
    var whole := WholePart(h, |v.dbs|, cut);
    cut > |EncodeAll(whole)| && Runnable(whole) && Replay(srv, Start(|v.dbs|), whole).multi
  }

  /** What a server logs that starts from the file: no database is selected yet. */
  function Log(units: seq<Unit>, dbnum: nat): seq<Argv>
    requires UnitsOk(units, dbnum)
  {
    LogUnits(-1, units, dbnum)
  }

  /** Whatever the server logs into `file` next, starting from the databases
      `dbs`, a later load rebuilds. */
  ghost predicate Appendable(srv: Server, file: Bytes, dbs: Dbs, dbnum: nat)
    requires dbnum > 0 && |dbs| == dbnum
  {
    forall more: seq<Unit> | more != [] && AllLoggable(srv, more, dbnum) ::
      Rebuilds(srv, file + EncodeAll(Log(more, dbnum)), ExecuteUnits(srv, dbs, more), dbnum)
  }

  predicate Rebuilds(srv: Server, file: Bytes, dbs: Dbs, dbnum: nat)
    requires dbnum > 0
  {
    var r := Load(srv, file, dbnum, true);
    r.Loaded? && r.session.view.dbs == dbs
  }

  lemma {:induction false} BeforeMultiConcat(base: nat, a: seq<Argv>, b: seq<Argv>, before: nat)
    requires Runnable(a) && Runnable(b)
    ensures BeforeMulti(base, a + b, before)
            == BeforeMulti(base + |EncodeAll(a)|, b, BeforeMulti(base, a, before))
    decreases |a|
  {
    hide KindOf, EncodeCommand;
    if a == [] {
      assert a + b == b;
    } else {
      assert (a + b)[1..] == a[1..] + b;
      BeforeMultiConcat(base + |EncodeCommand(a[0])|, a[1..], b, if KindOf(a[0][0]).KMulti? then base else before);
    }
  }

  lemma {:induction false} BeforeMultiPlain(base: nat, a: seq<Argv>, before: nat)
    requires NoControl(a)
    ensures BeforeMulti(base, a, before) == before
    decreases |a|
  {
    hide KindOf, EncodeCommand;
    if a != [] {
      BeforeMultiPlain(base + |EncodeCommand(a[0])|, a[1..], before);
    }
  }

  /** The offset noted for an open transaction is where its MULTI starts. */
  lemma BeforeOpenMulti(a: seq<Argv>, sel: seq<Argv>, queue: seq<Argv>)
    requires Runnable(a) && Runnable(sel) && NoControl(queue)
    ensures BeforeMulti(0, a + (sel + ([[MULTI]] + queue)), 0) == |EncodeAll(a + sel)|
  {
    hide KindOf, EncodeCommand, EncodeAll;
    KindsOfNames();
    var open := [[MULTI]] + queue;
    EncodeAllConcat(a, sel);
    BeforeMultiConcat(0, a, sel + open, 0);
    var n := |EncodeAll(a)|;
    BeforeMultiConcat(n, sel, open, BeforeMulti(0, a, 0));
    assert open[1..] == queue && open[0][0] == MULTI;
    BeforeMultiPlain(n + |EncodeAll(sel)| + |EncodeCommand([MULTI])|, queue, n + |EncodeAll(sel)|);
  }

  lemma LogPrefixBytes(log: seq<Argv>, k: nat)
    requires k <= |log|
    ensures |EncodeAll(log[..k])| <= |EncodeAll(log)|
    ensures EncodeAll(log)[..|EncodeAll(log[..k])|] == EncodeAll(log[..k])
  {
    hide EncodeAll;
    assert log == log[..k] + log[k..];
    EncodeAllConcat(log[..k], log[k..]);
  }

  /** The commands left in the file after recovery. */
  lemma KeptCommands(srv: Server, h: History, v: View, cut: nat) returns (kept: seq<Argv>)
    requires HistoryOk(srv, h, v) && CutAfterBase(h, |v.dbs|, cut)
    ensures Readable(srv, kept)
    ensures var file := EncodeAll(Text(h, |v.dbs|))[..cut];
            var r := Load(srv, file, |v.dbs|, true);
            && r.Loaded? && r.size <= |file|
            && file[..r.size] == EncodeAll(kept)
            && var s := Replay(srv, Start(|v.dbs|), kept);
            && s.view.dbs == r.session.view.dbs
            && (TornInsideTransaction(srv, h, v, cut) ==> s == r.session && s.multi)
            && (!TornInsideTransaction(srv, h, v, cut) ==> s == Session(s.view, false, []))
  {
    hide KindOf, LogUnit, LogUnits, Whole, EncodeAll, Replay, Load, ExecuteUnits, SelectIfNeeded, Translate, WithoutExpiry, WholeLog;
    var dbnum := |v.dbs|;
    var log := Text(h, dbnum);
    var whole := WholePart(h, dbnum, cut);
    TextReadable(srv, h, v);
    LoadCutLog(srv, log, cut, dbnum);
    WholeBounds(log, cut);
    LogPrefixBytes(log, |whole|);
    assert log[..|whole|] == whole;
    var j, p := SplitText(h, dbnum, cut);
    ReplayCut(srv, v, h.selected, h.units, j, p);
    ReplayConcat(srv, Start(dbnum), h.base, WholeLog(h.selected, h.units, dbnum, j, p));
    var s := Replay(srv, Start(dbnum), whole);
    var end := |EncodeAll(whole)|;
    kept := whole;
    if s.multi && cut == end {
      var sel := SelectIfNeeded(SelectedAt(h.selected, h.units, j), h.units[j].open);
      kept := TextUpTo(h, dbnum, j) + sel;
      KeptBeforeMulti(srv, h, v, j, s.queue);
      Regroup(h.base, LogUnits(h.selected, h.units[..j], dbnum), sel, [[MULTI]] + s.queue);
      assert whole == kept + ([[MULTI]] + s.queue);
      assert log[..|kept|] == kept;
      LogPrefixBytes(log, |kept|);
      LogPrefixBytes(whole, |kept|);
      assert whole[..|kept|] == kept;
    }
    var file := EncodeAll(log)[..cut];
    var n := |EncodeAll(kept)|;
    assert n <= end <= cut;
    assert file[..n] == EncodeAll(log)[..n];
  }

  lemma Regroup<T>(a: seq<T>, b: seq<T>, c: seq<T>, d: seq<T>)
    ensures a + (b + (c + d)) == (a + b) + (c + d) == (a + b + c) + d
  {
  }

  lemma KeptBeforeMulti(srv: Server, h: History, v: View, j: nat, queue: seq<Argv>)
    requires HistoryOk(srv, h, v) && j < |h.units| && h.units[j].Transaction? && NoControl(queue)
    ensures var a := TextUpTo(h, |v.dbs|, j);
            var sel := SelectIfNeeded(SelectedAt(h.selected, h.units, j), h.units[j].open);
            && Runnable(a) && Runnable(sel) && Runnable(a + sel) && Runnable(a + (sel + ([[MULTI]] + queue)))
            && BeforeMulti(0, a + (sel + ([[MULTI]] + queue)), 0) == |EncodeAll(a + sel)|
            && var s := Replay(srv, Start(|v.dbs|), a + sel);
               s == Session(s.view, false, []) && s.view.dbs == ExecuteUnits(srv, v.dbs, h.units[..j])
  {
    hide KindOf, LogUnit, EncodeAll, Replay1, RunLogged, SelectIfNeeded;
    var log := LogUnits(h.selected, h.units[..j], |v.dbs|);
    var at := SelectedAt(h.selected, h.units, j);
    var sel := SelectIfNeeded(at, h.units[j].open);
    TextReadable(srv, h, v);
    LogMeansExecution(srv, v, h.selected, h.units[..j]);
    var v1 := View(ExecuteUnits(srv, v.dbs, h.units[..j]), DbAfter(v.cur, h.units[..j]));
    SelectedIs(h.selected, v.cur, h.units[..j]);
    SelectSelects(srv, v1, at, h.units[j].open);
    SelectNoControl(at, h.units[j].open);
    ReplayPlain(srv, Session(v1, false, []), sel);
    ReplayConcat(srv, Start(|v.dbs|), h.base, log);
    ReplayConcat(srv, Start(|v.dbs|), h.base + log, sel);
    BeforeOpenMulti(h.base + log, sel, queue);
  }

  /** Commands that queue in a session whose transaction is still open. */
  lemma {:induction false} SinglesQueue(srv: Server, s: Session, selected: int, more: seq<Unit>, dbnum: nat)
    requires s.Valid() && s.multi && UnitsOk(more, dbnum) && |s.view.dbs| == dbnum
    requires forall i :: 0 <= i < |more| ==> more[i].Single?
    ensures NoControl(LogUnits(selected, more, dbnum))
    ensures Replay(srv, s, LogUnits(selected, more, dbnum)) == s.(queue := s.queue + LogUnits(selected, more, dbnum))
    decreases |more|
  {
    hide KindOf, SelectIfNeeded, Translate, Replay1, RunLogged;
    if more == [] {
      assert s.queue + [] == s.queue;
    } else {
      var c := more[0].c;
      var first := SelectIfNeeded(selected, c.dictid) + Translate(c);
      var rest := LogUnits(c.dictid, more[1..], dbnum);
      SelectNoControl(selected, c.dictid);
      TranslateMeans(srv, View(s.view.dbs, c.dictid), c);
      NoControlConcat(SelectIfNeeded(selected, c.dictid), Translate(c));
      ReplayQueues(srv, s, first);
      var s1 := s.(queue := s.queue + first);
      SinglesQueue(srv, s1, c.dictid, more[1..], dbnum);
      NoControlConcat(first, rest);
      ReplayConcat(srv, s, first, rest);
      assert s.queue + first + rest == s.queue + (first + rest);
    }
  }

  /** After a recovery that left a transaction open in the file, the commands
      logged next are all lost at the next load, which also cuts them off. */
  lemma TornLogLosesWrites(srv: Server, h: History, v: View, cut: nat, more: seq<Unit>)
    requires HistoryOk(srv, h, v) && CutAfterBase(h, |v.dbs|, cut) && TornInsideTransaction(srv, h, v, cut)
    requires AllLoggable(srv, more, |v.dbs|) && forall i :: 0 <= i < |more| ==> more[i].Single?
    ensures var file := EncodeAll(Text(h, |v.dbs|))[..cut];
            var r := Load(srv, file, |v.dbs|, true);
            && r.Loaded? && r.size <= |file|
            && var again := Load(srv, file[..r.size] + EncodeAll(Log(more, |v.dbs|)), |v.dbs|, true);
            again.Loaded? && again.session.view.dbs == r.session.view.dbs && again.session.multi
  {
    hide KindOf, LogUnit, LogUnits, Whole, EncodeAll, Replay, Load, SelectIfNeeded, TornInsideTransaction;
    var dbnum := |v.dbs|;
    var kept := KeptCommands(srv, h, v, cut);
    var log2 := kept + Log(more, dbnum);
    LogUnitsReadable(srv, -1, more, dbnum);
    ReadableConcat(srv, kept, Log(more, dbnum));
    EncodeAllConcat(kept, Log(more, dbnum));
    var s := Replay(srv, Start(dbnum), kept);
    StartSize(srv, kept, dbnum);
    SinglesQueue(srv, s, -1, more, dbnum);
    ReplayConcat(srv, Start(dbnum), kept, Log(more, dbnum));
    KeptNotEmpty(srv, kept, dbnum);
    LoadAllOf(srv, log2, dbnum);
  }

  lemma {:induction false} ReplayKeepsSize(srv: Server, s: Session, cmds: seq<Argv>)
    requires s.Valid() && Runnable(cmds)
    ensures |Replay(srv, s, cmds).view.dbs| == |s.view.dbs|
    decreases |cmds|
  {
    hide KindOf, RunLogged;
    if cmds != [] {
      ReplayKeepsSize(srv, Replay1(srv, s, cmds[0]), cmds[1..]);
    }
  }

  lemma StartSize(srv: Server, cmds: seq<Argv>, dbnum: nat)
    requires dbnum > 0 && Runnable(cmds)
    ensures |Replay(srv, Start(dbnum), cmds).view.dbs| == dbnum
  {
    ReplayKeepsSize(srv, Start(dbnum), cmds);
  }

  lemma KeptNotEmpty(srv: Server, kept: seq<Argv>, dbnum: nat)
    requires dbnum > 0 && Runnable(kept) && Replay(srv, Start(dbnum), kept).multi
    ensures kept != []
  {
  }

  /** Loading a complete list of commands replays it, open transaction or not. */
  lemma LoadAllOf(srv: Server, cmds: seq<Argv>, dbnum: nat)
    requires dbnum > 0 && cmds != [] && Readable(srv, cmds)
    ensures var r := Load(srv, EncodeAll(cmds), dbnum, true);
            r.Loaded? && r.session == Replay(srv, Start(dbnum), cmds)
  {
    hide KindOf, EncodeCommand, Replay, Load, Whole;
    WholeOfAll(cmds);
    assert cmds[..|cmds|] == cmds;
    assert EncodeAll(cmds)[..|EncodeAll(cmds)|] == EncodeAll(cmds);
    assert |EncodeAll(cmds)| > 0;
    LoadCutLog(srv, cmds, |EncodeAll(cmds)|, dbnum);
  }

  /** A transaction logged after such a recovery applies, at the next load, the
      part of the torn transaction that was left in the file: the transaction that
      was never committed takes effect in part. */
  lemma TornTransactionApplied(srv: Server, h: History, v: View, cut: nat, open: nat, body: seq<Fed>, close: nat)
    requires HistoryOk(srv, h, v) && CutAfterBase(h, |v.dbs|, cut) && TornInsideTransaction(srv, h, v, cut)
    requires AllLoggable(srv, [Transaction(open, body, close)], |v.dbs|)
    ensures var dbnum := |v.dbs|;
            var file := EncodeAll(Text(h, dbnum))[..cut];
            var r := Load(srv, file, dbnum, true);
            && r.Loaded? && r.size <= |file|
            && var torn := RunSeq(srv, r.session.view, r.session.queue).dbs;
            && AllExecuted(body, |torn|)
            && Rebuilds(srv, file[..r.size] + EncodeAll(Log([Transaction(open, body, close)], dbnum)),
                        ExecuteSeq(srv, torn, body), dbnum)
  {
    hide KindOf, LogUnit, LogUnits, Whole, EncodeAll, Replay, Load, SelectIfNeeded, ExecuteSeq, RunSeq, TornInsideTransaction;
    var dbnum := |v.dbs|;
    var next := [Transaction(open, body, close)];
    var kept := KeptCommands(srv, h, v, cut);
    LogUnitsReadable(srv, -1, next, dbnum);
    ReadableConcat(srv, kept, Log(next, dbnum));
    EncodeAllConcat(kept, Log(next, dbnum));
    var s := Replay(srv, Start(dbnum), kept);
    StartSize(srv, kept, dbnum);
    assert Loggable(srv, next[0], dbnum);
    TransactionInOpen(srv, s, open, body, close);
    ReplayConcat(srv, Start(dbnum), kept, Log(next, dbnum));
    KeptNotEmpty(srv, kept, dbnum);
    LoadAllOf(srv, kept + Log(next, dbnum), dbnum);
  }

  /** Inside an open transaction the next MULTI only queues, so its EXEC runs
      everything queued before it too. */
  lemma TransactionInOpen(srv: Server, s: Session, open: nat, body: seq<Fed>, close: nat)
    requires s.Valid() && s.multi && UnitOk(Transaction(open, body, close), |s.view.dbs|)
    ensures UnitsOk([Transaction(open, body, close)], |s.view.dbs|)
    ensures var log := LogUnits(-1, [Transaction(open, body, close)], |s.view.dbs|);
            && Runnable(log)
            && Replay(srv, s, log)
               == Session(View(ExecuteSeq(srv, RunSeq(srv, s.view, s.queue).dbs, body), close), false, [])
  {
    hide KindOf, SelectIfNeeded, RunLogged, Replay;
    var v := s.view;
    var sel := SelectIfNeeded(-1, open);
    var last := SelectedAfter(open, body);
    var inner := LogSeq(open, body) + SelectIfNeeded(last, close);
    LogOne(-1, Transaction(open, body, close), |v.dbs|);
    var v0 := RunSeq(srv, v, s.queue);
    SelectSelects(srv, v0, -1, open);
    SelectNoControl(-1, open);
    var v1 := v0.(cur := open);
    MultiRunsNothing(srv, v1);
    LogSeqMeans(srv, v1, open, body);
    SelectNoControl(last, close);
    var v2 := RunSeq(srv, v1, LogSeq(open, body));
    SelectSelects(srv, v2, last, close);
    RunSeqConcat(srv, v1, LogSeq(open, body), SelectIfNeeded(last, close));
    NoControlConcat(LogSeq(open, body), SelectIfNeeded(last, close));
    RunSeqConcat(srv, v1, [[MULTI]], inner);
    RunSeqConcat(srv, v0, sel, [[MULTI]] + inner);
    RunSeqConcat(srv, v, s.queue, sel + ([[MULTI]] + inner));
    QueueThenExec(srv, s, sel, inner);
  }

  lemma LogOne(selected: int, u: Unit, dbnum: nat)
    requires UnitOk(u, dbnum)
    ensures LogUnits(selected, [u], dbnum) == LogUnit(selected, u, dbnum)
  {
    hide LogUnit;
    assert [u][1..] == [];
    assert LogUnit(selected, u, dbnum) + [] == LogUnit(selected, u, dbnum);
  }

  lemma MultiRunsNothing(srv: Server, v: View)
    requires v.Valid()
    ensures RunSeq(srv, v, [[MULTI]]) == v
  {
    hide KindOf;
    KindsOfNames();
    assert [[MULTI]][1..] == [];
  }

  lemma QueueThenExec(srv: Server, s: Session, sel: seq<Argv>, inner: seq<Argv>)
    requires s.Valid() && s.multi && NoControl(sel) && NoControl(inner)
    ensures Runnable(sel + ([[MULTI]] + (inner + [[EXEC]])))
    ensures Runnable(s.queue + (sel + ([[MULTI]] + inner)))
    ensures Replay(srv, s, sel + ([[MULTI]] + (inner + [[EXEC]])))
            == Session(RunSeq(srv, s.view, s.queue + (sel + ([[MULTI]] + inner))), false, [])
  {
    hide KindOf, RunSeq;
    KindsOfNames();
    var tail := [[MULTI]] + (inner + [[EXEC]]);
    ReplayQueues(srv, s, sel);
    var s1 := s.(queue := s.queue + sel);
    ReplayConcat(srv, s, sel, tail);
    assert tail[1..] == inner + [[EXEC]];
    var s2 := s1.(queue := s1.queue + [[MULTI]]);
    assert Replay1(srv, s1, [MULTI]) == s2;
    ReplayQueues(srv, s2, inner);
    var s3 := s2.(queue := s2.queue + inner);
    ReplayConcat(srv, s2, inner, [[EXEC]]);
    assert [[EXEC]][1..] == [];
    assert Replay(srv, s3, [[EXEC]]) == Replay1(srv, s3, [EXEC]);
    assert s3.queue == s.queue + (sel + ([[MULTI]] + inner));
  }

  /** A write that changes the databases, whatever they hold. */
  function SomeWrite(dbs: Dbs): Fed
    requires |dbs| > 0
  {
    var v: Bytes := [0];
    var w: Bytes := [1];
    Fed(0, [SET, [], if [] in dbs[0] && dbs[0][[]] == Entry(Str(v), NO_EXPIRY) then w else v], 0)
  }

  lemma ExecuteSet(srv: Server, dbs: Dbs, text: Bytes)
    requires |dbs| > 0
    ensures Executed(Fed(0, [SET, [], text], 0))
    ensures Execute(srv, dbs, Fed(0, [SET, [], text], 0), 0) == dbs[0 := SetString(dbs[0], [], text)]
  {
    hide KindOf;
    KindsOfNames();
  }

  lemma SomeWriteChanges(srv: Server, dbs: Dbs)
    requires KnowsLogNames(srv) && |dbs| > 0 && Printable(|dbs|)
    ensures AllLoggable(srv, [Single(SomeWrite(dbs))], |dbs|)
    ensures ExecuteUnits(srv, dbs, [Single(SomeWrite(dbs))]) != dbs
  {
    hide KindOf, Executed, Execute;
    var c := SomeWrite(dbs);
    var text := c.argv[2];
    ExecuteSet(srv, dbs, text);
    assert c == Fed(0, [SET, [], text], 0);
    assert forall i :: 0 <= i < 3 ==> |c.argv[i]| <= 3;
    assert PrintableCommand(c.argv);
    assert [Single(c)][1..] == [];
    var after := Execute(srv, dbs, c, 0);
    var e: Entry := after[0][[]];
    assert e == Entry(Str(text), NO_EXPIRY);
    assert ExecuteUnits(srv, dbs, [Single(c)]) == after;
  }

  /** Exactly when a recovered file can be used again: every later write survives
      the next load if and only if the cut did not fall inside a command of an
      open transaction. */
  lemma AppendableAfterRecovery(srv: Server, h: History, v: View, cut: nat)
    requires HistoryOk(srv, h, v) && CutAfterBase(h, |v.dbs|, cut)
    ensures var file := EncodeAll(Text(h, |v.dbs|))[..cut];
            var r := Load(srv, file, |v.dbs|, true);
            && r.Loaded? && r.size <= |file| && |r.session.view.dbs| == |v.dbs|
            && (Appendable(srv, file[..r.size], r.session.view.dbs, |v.dbs|)
                <==> !TornInsideTransaction(srv, h, v, cut))
  {
    hide KindOf, LogUnit, LogUnits, Whole, EncodeAll, Replay, Load, SelectIfNeeded, ExecuteUnits, SomeWrite, TornInsideTransaction;
    var dbnum := |v.dbs|;
    var kept := KeptCommands(srv, h, v, cut);
    var file := EncodeAll(Text(h, dbnum))[..cut];
    var r := Load(srv, file, dbnum, true);
    StartSize(srv, kept, dbnum);
    if TornInsideTransaction(srv, h, v, cut) {
      var more := [Single(SomeWrite(r.session.view.dbs))];
      SomeWriteChanges(srv, r.session.view.dbs);
      TornLogLosesWrites(srv, h, v, cut, more);
      assert !Rebuilds(srv, file[..r.size] + EncodeAll(Log(more, dbnum)), ExecuteUnits(srv, r.session.view.dbs, more), dbnum);
    } else {
      forall more: seq<Unit> | more != [] && AllLoggable(srv, more, dbnum)
        ensures Rebuilds(srv, file[..r.size] + EncodeAll(Log(more, dbnum)), ExecuteUnits(srv, r.session.view.dbs, more), dbnum)
      {
        AppendedRebuilds(srv, kept, more, dbnum);
      }
    }
  }

  lemma AppendedRebuilds(srv: Server, kept: seq<Argv>, more: seq<Unit>, dbnum: nat)
    requires dbnum > 0 && Readable(srv, kept) && more != [] && AllLoggable(srv, more, dbnum)
    requires var s := Replay(srv, Start(dbnum), kept); s == Session(s.view, false, [])
    ensures |Replay(srv, Start(dbnum), kept).view.dbs| == dbnum
    ensures Rebuilds(srv, EncodeAll(kept) + EncodeAll(Log(more, dbnum)),
                     ExecuteUnits(srv, Replay(srv, Start(dbnum), kept).view.dbs, more), dbnum)
  {
    hide KindOf, LogUnit, EncodeAll, Replay, Load, ExecuteUnits;
    StartSize(srv, kept, dbnum);
    LogUnitsReadable(srv, -1, more, dbnum);
    ReadableConcat(srv, kept, Log(more, dbnum));
    EncodeAllConcat(kept, Log(more, dbnum));
    LogMeansExecution(srv, Replay(srv, Start(dbnum), kept).view, -1, more);
    ReplayConcat(srv, Start(dbnum), kept, Log(more, dbnum));
    LogNotEmpty(more, dbnum);
    LoadAllOf(srv, kept + Log(more, dbnum), dbnum);
  }

  lemma LogNotEmpty(more: seq<Unit>, dbnum: nat)
    requires UnitsOk(more, dbnum) && more != []
    ensures Log(more, dbnum) != []
  {
    hide KindOf;
    assert |LogUnit(-1, more[0], dbnum)| > 0;
  }

  /** Such cuts exist: a fresh log of an empty transaction, cut inside its EXEC. */
  lemma TornExample(srv: Server, dbnum: nat) returns (cut: nat)
    requires KnowsLogNames(srv) && dbnum > 0 && Printable(dbnum)
    ensures Start(dbnum).view.Valid()
    ensures var h := History([], -1, [Transaction(0, [], 0)]);
            var v := Start(dbnum).view;
            && |v.dbs| == dbnum && HistoryOk(srv, h, v) && CutAfterBase(h, dbnum, cut) && cut < |EncodeAll(Text(h, dbnum))|
            && TornInsideTransaction(srv, h, v, cut)
  {
    hide KindOf, EncodeAll, Start, Whole, Replay, EncodeCommand, LogUnits, HistoryOk, Runnable;
    var u := Transaction(0, [], 0);
    var h := History([], -1, [u]);
    var whole := SelectIfNeeded(-1, 0) + [[MULTI]];
    FreshHistory(srv, dbnum);
    LogOne(-1, u, dbnum);
    assert Text(h, dbnum) == LogUnit(-1, u, dbnum) == whole + [[EXEC]];
    EncodeNone();
    cut := CutInLastCommand(whole, [EXEC]);
    assert WholePart(h, dbnum, cut) == whole;
    PartOfTransaction(srv, Start(dbnum).view, -1, 0, [], 0, 2);
    assert LogUnit(-1, u, dbnum)[..2] == whole;
  }

  /** The first byte of the last command is there, the rest is not. */
  lemma CutInLastCommand(whole: seq<Argv>, last: Argv) returns (cut: nat)
    ensures |EncodeAll(whole)| < cut < |EncodeAll(whole + [last])|
    ensures Whole(whole + [last], cut) == |whole|
  {
    hide EncodeAll, EncodeCommand;
    EncodeAllConcat(whole, [last]);
    EncodeAllSingle(last);
    cut := |EncodeAll(whole)| + 1;
    WholeConcat(whole, [last], cut);
    LongerThanOne(last);
    assert Whole([last], 1) == 0;
  }

  lemma FreshHistory(srv: Server, dbnum: nat)
    requires KnowsLogNames(srv) && dbnum > 0 && Printable(dbnum)
    ensures Start(dbnum).view.Valid() && |Start(dbnum).view.dbs| == dbnum
    ensures Start(dbnum) == Session(Start(dbnum).view, false, [])
    ensures HistoryOk(srv, History([], -1, [Transaction(0, [], 0)]), Start(dbnum).view)
  {
    hide KindOf, EncodeAll;
  }

  lemma EncodeNone()
    ensures EncodeAll([]) == []
  {
  }

  lemma LongerThanOne(argv: Argv)
    ensures |EncodeCommand(argv)| > 1
  {
  }
}
