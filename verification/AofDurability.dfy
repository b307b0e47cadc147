/** The server and its rewrite child as one state machine, and what holds in every
    run of it: the log, file and buffer together, always rebuilds the databases; the
    file alone rebuilds what some executed prefix of the writes made of them; a
    finished rewrite holds the dump and every byte logged since the fork. */
module AofDurability {
  import opened Resp
  import opened Dataset
  import opened AofFeed
  import opened AofLoad
  import opened AofRecovery
  import opened AofDump
  import opened AofServer

  // ---------------------------------------------------------------- feeding units

  /** The calls by which the server logs a unit. */
  function Calls(u: Unit): seq<Fed> {
    match u
    case Single(c) => [c]
    case Transaction(open, body, close) => [Fed(open, [MULTI], 0)] + body + [Fed(close, [EXEC], 0)]
  }

  predicate AllFeedable(cs: seq<Fed>) {
    forall i :: 0 <= i < |cs| ==> Feedable(cs[i])
  }

  function FeedMany(a: Aof, cs: seq<Fed>): Aof
    requires AllFeedable(cs)
    decreases |cs|
  {
    if cs == [] then a else FeedMany(FeedOne(a, cs[0]), cs[1..])
  }

  lemma {:induction false} FeedManyConcat(a: Aof, x: seq<Fed>, y: seq<Fed>)
    requires AllFeedable(x) && AllFeedable(y)
    ensures AllFeedable(x + y)
    ensures FeedMany(a, x + y) == FeedMany(FeedMany(a, x), y)
    decreases |x|
  {
    hide FeedOne, Feedable;
    if x == [] {
      assert x + y == y;
    } else {
      assert (x + y)[1..] == x[1..] + y;
      FeedManyConcat(FeedOne(a, x[0]), x[1..], y);
    }
  }

  lemma AppendNothing(a: Aof)
    ensures Append(a, [], a.selected) == a
  {
    assert a.buf + [] == a.buf && a.residual + [] == a.residual;
  }

  lemma AppendTwice(a: Aof, e: Bytes, d: int, f: Bytes, d2: int)
    ensures Append(Append(a, e, d), f, d2) == Append(a, e + f, d2)
  {
    ConcatAssoc(a.buf, e, f);
    ConcatAssoc(a.residual, e, f);
  }

  lemma {:induction false} FeedBody(a: Aof, body: seq<Fed>)
    requires forall i :: 0 <= i < |body| ==> Executed(body[i])
    ensures AllFeedable(body)
    ensures FeedMany(a, body) == Append(a, EncodeAll(LogSeq(a.selected, body)), SelectedAfter(a.selected, body))
    decreases |body|
  {
    hide EncodeAll, KindOf, Translate, SelectIfNeeded, ReadOptions;
    if body == [] {
      NoneEncoded();
      AppendNothing(a);
    } else {
      var c := body[0];
      var first := SelectIfNeeded(a.selected, c.dictid) + Translate(c);
      var rest := LogSeq(c.dictid, body[1..]);
      FeedBody(FeedOne(a, c), body[1..]);
      EncodeAllConcat(first, rest);
      AppendTwice(a, EncodeAll(first), c.dictid, EncodeAll(rest), SelectedAfter(c.dictid, body[1..]));
    }
  }

  lemma ControlFeedable(dictid: nat)
    ensures var c := Fed(dictid, [MULTI], 0); Feedable(c) && !Executed(c)
    ensures var c := Fed(dictid, [EXEC], 0); Feedable(c) && !Executed(c)
  {
    KindsOfNames();
  }

  lemma FeedControl(a: Aof, c: Fed)
    requires Feedable(c) && !Executed(c)
    ensures AllFeedable([c])
    ensures FeedMany(a, [c]) == Append(a, EncodeAll(SelectIfNeeded(a.selected, c.dictid) + [c.argv]), c.dictid)
  {
    hide Executed, Feedable, SelectIfNeeded, EncodeAll;
    assert [c][1..] == [];
  }

  /** Feeding a unit call by call logs exactly the unit's commands. */
  lemma FeedUnit(a: Aof, u: Unit, dbnum: nat)
    requires UnitOk(u, dbnum)
    ensures AllFeedable(Calls(u))
    ensures FeedMany(a, Calls(u)) == Append(a, EncodeAll(LogUnit(a.selected, u, dbnum)), UnitDb(u))
  {
    hide EncodeAll, KindOf, Translate, SelectIfNeeded, Executed;
    match u
    case Single(c) =>
      FeedBody(a, [c]);
      assert [c][1..] == [];
      var one := SelectIfNeeded(a.selected, c.dictid) + Translate(c);
      assert LogSeq(a.selected, [c]) == one + [] == one;
    case Transaction(open, body, close) =>
      FeedTransaction(a, open, body, close, dbnum);
  }

  lemma FeedTransaction(a: Aof, open: nat, body: seq<Fed>, close: nat, dbnum: nat)
    requires UnitOk(Transaction(open, body, close), dbnum)
    ensures var u := Transaction(open, body, close);
            && AllFeedable(Calls(u))
            && FeedMany(a, Calls(u)) == Append(a, EncodeAll(LogUnit(a.selected, u, dbnum)), close)
  {
    hide EncodeAll, Executed, Feedable, FeedMany, SelectIfNeeded, LogSeq, Append, SelectedAfter;
    var m, e := Fed(open, [MULTI], 0), Fed(close, [EXEC], 0);
    ControlFeedable(open);
    ControlFeedable(close);
    var x := SelectIfNeeded(a.selected, open) + [[MULTI]];
    var y := LogSeq(open, body);
    var last := SelectedAfter(open, body);
    var z := SelectIfNeeded(last, close) + [[EXEC]];
    FeedControl(a, m);
    var a1 := Append(a, EncodeAll(x), open);
    assert a1.selected == open by { AppendSelects(a, EncodeAll(x), open); }
    FeedBody(a1, body);
    var a2 := Append(a1, EncodeAll(y), last);
    assert a2.selected == last by { AppendSelects(a1, EncodeAll(y), last); }
    FeedControl(a2, e);
    FeedManyConcat(a, [m], body);
    FeedManyConcat(a, [m] + body, [e]);
    AppendTwice(a, EncodeAll(x), open, EncodeAll(y), last);
    AppendTwice(a, EncodeAll(x) + EncodeAll(y), last, EncodeAll(z), close);
    EncodeAllConcat(x, y);
    EncodeAllConcat(x + y, z);
    assert (x + y) + z == LogUnit(a.selected, Transaction(open, body, close), dbnum);
  }

  lemma AppendSelects(a: Aof, e: Bytes, d: int)
    ensures Append(a, e, d).selected == d
  {
  }

  // ---------------------------------------------------------------- the state machine

  datatype Phase =
    | NoChild
    | Dumping                // writing the dump, reading differences now and then
    | Asked                  // wrote '!', waiting for the parent's '!'
    | Acked                  // reading what is left in the pipe
    | Exited(temp: Bytes)    // exit status 0, this is its file

  datatype World = World(
    dbs: Dbs, aof: Aof,
    phase: Phase, snapshot: Bytes, diff: Bytes,
    ask: bool, ack: bool,    // a '!' under way to the parent, to the child
    fed: Bytes,              // all that was logged since the fork
    start: Dbs, past: seq<Unit>,  // the databases at the start, the units executed since
    floor: nat)              // how much of the file was there before the first of them it logs

  /** The output of the child's dump of `dbs`. */
  ghost predicate Dumps(srv: Dataset.Server, dbs: Dbs, cmds: seq<Argv>) {
    && |dbs| > 0 && Readable(srv, cmds) && NoControl(cmds)
    && RunSeq(srv, View(EmptyDbs(|dbs|), 0), cmds).dbs == dbs
  }

  /** The dump loop produces such an output for databases of printable values
      without empty collections, which the server never keeps. */
  method ChildDump(dbs: Dbs, k: nat, ghost srv: Dataset.Server) returns (out: Bytes)
    requires k > 0 && |dbs| > 0 && CompactAll(dbs) == dbs && KnowsDumpNames(srv) && DbsPrintable(dbs, k)
    ensures exists cmds :: Dumps(srv, dbs, cmds) && out == EncodeAll(cmds)
  {
    hide CompactAll, DbsPrintable, RunSeq, EncodeAll;
    out := RewriteAppendOnlyFileRio(dbs, k, srv);
    ghost var cmds :| DumpOf(srv, dbs, k, out, cmds);
    assert Dumps(srv, dbs, cmds);
  }

  datatype Step =
    | Run(u: Unit)                   // execute and log a unit
    | Flush
    | StartChild(cmds: seq<Argv>)    // the commands the child will dump
    | Send
    | ChildReads(n: nat)
    | ChildAsks
    | ParentAcks(arrives: bool)
    | ChildHears
    | ChildExits
    | ChildFails
    | Installs
    | InstallFails

  ghost predicate Next(srv: Dataset.Server, w: World, t: World, step: Step) {
    match step
    case Run(u) =>
      && KnowsLogNames(srv) && Printable(|w.dbs|) && Loggable(srv, u, |w.dbs|)
      && AllFeedable(Calls(u))
      && t == w.(dbs := ExecuteUnit(srv, w.dbs, u),
                 aof := FeedMany(w.aof, Calls(u)),
                 fed := w.fed + EncodeAll(LogUnit(w.aof.selected, u, |w.dbs|)),
                 past := w.past + [u])
    case Flush => Flushes(w.aof, t.aof) && t == w.(aof := t.aof)
    case StartChild(cmds) =>
      && !w.aof.forked && Dumps(srv, w.dbs, cmds)
      && t == w.(aof := Fork(w.aof), phase := Dumping, snapshot := EncodeAll(cmds), diff := [],
                 ask := false, ack := false, fed := [])
    case Send => w.aof.forked && Sends(w.aof, t.aof) && t == w.(aof := t.aof)
    case ChildReads(n) =>
      && (w.phase.Dumping? || w.phase.Acked?) && n <= |w.aof.pipe|
      && t == w.(diff := w.diff + w.aof.pipe[..n], aof := w.aof.(pipe := w.aof.pipe[n..]))
    case ChildAsks => w.phase.Dumping? && t == w.(phase := Asked, ask := true)
    case ParentAcks(arrives) => w.ask && t == w.(ask := false, ack := arrives, aof := w.aof.(stop := true))
    case ChildHears => w.phase.Asked? && w.ack && t == w.(phase := Acked, ack := false)
    case ChildExits => w.phase.Acked? && w.aof.pipe == [] && t == w.(phase := Exited(w.snapshot + w.diff))
    case ChildFails =>
      !w.phase.NoChild? && !w.phase.Exited? && t == w.(phase := NoChild, ask := false, ack := false, aof := Cleanup(w.aof))
    case Installs =>
      w.phase.Exited? && t == w.(phase := NoChild, ask := false, ack := false, aof := Install(w.aof, w.phase.temp),
                                   floor := |w.snapshot|)
    case InstallFails =>
      w.phase.Exited? && t == w.(phase := NoChild, ask := false, ack := false, aof := Cleanup(w.aof))
  }

  // ---------------------------------------------------------------- the invariant

  /** `bytes` are a log that rebuilds `dbs`, and the commands appended next, with
      `selected` remembered, will find their database. */
  ghost predicate IsLog(srv: Dataset.Server, bytes: Bytes, dbs: Dbs, selected: int, cmds: seq<Argv>) {
    && |dbs| > 0 && bytes == EncodeAll(cmds) && Readable(srv, cmds)
    && var s := Replay(srv, Start(|dbs|), cmds);
    s.view.dbs == dbs && !s.multi && s.queue == [] && (selected == -1 || selected == s.view.cur)
  }

  ghost predicate LogOf(srv: Dataset.Server, bytes: Bytes, dbs: Dbs, selected: int) {
    exists cmds :: IsLog(srv, bytes, dbs, selected, cmds)
  }

  /** What the child will have written if it exits now plus all it was not told. */
  function Rewritten(w: World): Bytes {
    (w.snapshot + w.diff) + (w.aof.pipe + w.aof.residual)
  }

  predicate Protocol(w: World) {
    && (w.aof.forked <==> !w.phase.NoChild?)
    && (w.ask || w.ack ==> w.phase.Asked?) && !(w.ask && w.ack)
    && (w.ack || w.phase.Acked? || w.phase.Exited? ==> w.aof.stop)
    && (w.phase.Exited? ==> w.aof.pipe == [] && w.phase.temp == w.snapshot + w.diff)
    && (w.aof.forked ==> w.diff + w.aof.pipe + w.aof.residual == w.fed)
  }

  /** Loading `bytes` ends with the databases after the first `j` of the units, the
      next possibly without its expiry. */
  predicate LoadsTo(srv: Dataset.Server, bytes: Bytes, start: Dbs, past: seq<Unit>, j: nat)
    requires |start| > 0 && UnitsOk(past, |start|) && j <= |past|
  {
    var r := Load(srv, bytes, |start|, true);
    r.Loaded? && Recovered(srv, start, past, j, r.session.view.dbs)
  }

  ghost predicate LoadsPrefix(srv: Dataset.Server, bytes: Bytes, start: Dbs, past: seq<Unit>)
    requires |start| > 0 && UnitsOk(past, |start|)
  {
    exists j: nat :: j <= |past| && LoadsTo(srv, bytes, start, past, j)
  }

  /** So does every cut of `bytes` at or after `floor`. */
  ghost predicate CutsLoad(srv: Dataset.Server, bytes: Bytes, floor: nat, start: Dbs, past: seq<Unit>)
    requires |start| > 0 && UnitsOk(past, |start|)
  {
    && floor <= |bytes|
    && forall c :: floor <= c <= |bytes| && c > 0 ==> LoadsPrefix(srv, bytes[..c], start, past)
  }

  /** The databases are what the units executed since the start made of them. */
  predicate PastOk(srv: Dataset.Server, w: World) {
    && |w.start| == |w.dbs| > 0 && UnitsOk(w.past, |w.start|)
    && w.dbs == ExecuteUnits(srv, w.start, w.past)
  }

  ghost predicate Inv(srv: Dataset.Server, w: World) {
    && PastOk(srv, w) && w.aof.size == |w.aof.file|
    && Protocol(w)
    && (w.aof.on ==> w.floor <= |w.aof.file| && CutsLoad(srv, w.aof.file + w.aof.buf, w.floor, w.start, w.past))
    && (w.aof.forked ==> CutsLoad(srv, Rewritten(w), |w.snapshot|, w.start, w.past))
    && (w.aof.on ==> LogOf(srv, w.aof.file + w.aof.buf, w.dbs, w.aof.selected))
    && (w.aof.forked ==> LogOf(srv, Rewritten(w), w.dbs, w.aof.selected))
  }

  /** A server that starts: no rewrite; its log, if it is on, rebuilds its databases. */
  ghost predicate Init(srv: Dataset.Server, w: World) {
    && |w.dbs| > 0 && w.phase.NoChild? && !w.ask && !w.ack
    && !w.aof.forked && w.aof.buf == [] && w.aof.selected == -1 && w.aof.size == |w.aof.file| == w.floor
    && w.start == w.dbs && w.past == []
    && (w.aof.on ==> if w.aof.file == [] then w.dbs == EmptyDbs(|w.dbs|) else LogOf(srv, w.aof.file, w.dbs, -1))
  }

  lemma EmptyLogOf(srv: Dataset.Server, dbnum: nat)
    requires dbnum > 0
    ensures LogOf(srv, [], EmptyDbs(dbnum), -1)
  {
    assert IsLog(srv, [], EmptyDbs(dbnum), -1, []);
  }

  lemma LogUnselected(srv: Dataset.Server, bytes: Bytes, dbs: Dbs, selected: int)
    requires LogOf(srv, bytes, dbs, selected)
    ensures LogOf(srv, bytes, dbs, -1)
  {
    var cmds :| IsLog(srv, bytes, dbs, selected, cmds);
    assert IsLog(srv, bytes, dbs, -1, cmds);
  }

  /** A log extended by what is logged for a unit is the log of what executing the
      unit made of the databases. */
  lemma LogGrows(srv: Dataset.Server, bytes: Bytes, dbs: Dbs, selected: int, u: Unit)
    requires LogOf(srv, bytes, dbs, selected)
    requires KnowsLogNames(srv) && Printable(|dbs|) && Loggable(srv, u, |dbs|)
    ensures LogOf(srv, bytes + EncodeAll(LogUnit(selected, u, |dbs|)), ExecuteUnit(srv, dbs, u), UnitDb(u))
  {
    hide EncodeAll, LogUnit, Replay, KindOf, Start, ExecuteUnit;
    var cmds :| IsLog(srv, bytes, dbs, selected, cmds);
    var more := LogUnit(selected, u, |dbs|);
    var s := Replay(srv, Start(|dbs|), cmds);
    assert s == Session(View(dbs, s.view.cur), false, []);
    LogUnitMeans(srv, s.view, selected, u);
    LogUnitReadable(srv, selected, u, |dbs|);
    ReadableConcat(srv, cmds, more);
    ReplayConcat(srv, Start(|dbs|), cmds, more);
    EncodeAllConcat(cmds, more);
    assert IsLog(srv, bytes + EncodeAll(more), ExecuteUnit(srv, dbs, u), UnitDb(u), cmds + more);
  }

  lemma DumpIsLog(srv: Dataset.Server, dbs: Dbs, cmds: seq<Argv>)
    requires Dumps(srv, dbs, cmds)
    ensures LogOf(srv, EncodeAll(cmds), dbs, -1)
  {
    hide EncodeAll, KindOf;
    ReplayPlain(srv, Start(|dbs|), cmds);
    assert Start(|dbs|).view == View(EmptyDbs(|dbs|), 0);
    assert IsLog(srv, EncodeAll(cmds), dbs, -1, cmds);
  }

  lemma {:induction false} ExecuteOneMore(srv: Dataset.Server, dbs: Dbs, units: seq<Unit>, u: Unit)
    requires UnitsOk(units, |dbs|) && UnitOk(u, |dbs|)
    ensures UnitsOk(units + [u], |dbs|)
    ensures ExecuteUnits(srv, dbs, units + [u]) == ExecuteUnit(srv, ExecuteUnits(srv, dbs, units), u)
    decreases |units|
  {
    hide ExecuteUnit, UnitOk;
    if units == [] {
      assert units + [u] == [u] && [u][1..] == [];
    } else {
      assert (units + [u])[1..] == units[1..] + [u];
      ExecuteOneMore(srv, ExecuteUnit(srv, dbs, units[0]), units[1..], u);
    }
  }

  lemma RecoveredStill(srv: Dataset.Server, dbs: Dbs, units: seq<Unit>, u: Unit, j: nat, loaded: Dbs)
    requires UnitsOk(units, |dbs|) && UnitOk(u, |dbs|) && j <= |units| && Recovered(srv, dbs, units, j, loaded)
    ensures Recovered(srv, dbs, units + [u], j, loaded)
  {
    hide ExecuteUnits, WithoutExpiry, UnitOk;
    assert (units + [u])[..j] == units[..j];
  }

  /** Recovery of the one unit logged last, seen from the start. */
  lemma RecoveredLast(srv: Dataset.Server, dbs: Dbs, units: seq<Unit>, u: Unit, j: nat, loaded: Dbs)
    requires UnitsOk(units, |dbs|) && UnitOk(u, |dbs|) && j <= 1
    requires Recovered(srv, ExecuteUnits(srv, dbs, units), [u], j, loaded)
    ensures Recovered(srv, dbs, units + [u], |units| + j, loaded)
  {
    hide WithoutExpiry, UnitOk, ExecuteUnit, ExecuteUnits;
    var all := units + [u];
    if j == 0 {
      assert all[..|units|] == units && [u][..0] == [];
      ExecuteNone(srv, ExecuteUnits(srv, dbs, units));
    } else {
      assert all[..|all|] == all && [u][..1] == [] + [u];
      ExecuteOneMore(srv, dbs, units, u);
      ExecuteOneMore(srv, ExecuteUnits(srv, dbs, units), [], u);
      ExecuteNone(srv, ExecuteUnits(srv, dbs, units));
    }
  }

  lemma ExecuteNone(srv: Dataset.Server, dbs: Dbs)
    ensures ExecuteUnits(srv, dbs, []) == dbs
  {
  }

  /** A cut inside or after what was logged for the last unit. */
  lemma CutInLast(srv: Dataset.Server, bytes: Bytes, start: Dbs, past: seq<Unit>, selected: int, u: Unit, c: nat)
    requires |start| > 0 && UnitsOk(past, |start|) && LogOf(srv, bytes, ExecuteUnits(srv, start, past), selected)
    requires KnowsLogNames(srv) && Printable(|start|) && Loggable(srv, u, |start|)
    requires |bytes| <= c <= |bytes + EncodeAll(LogUnit(selected, u, |start|))| && c > 0
    ensures LoadsPrefix(srv, (bytes + EncodeAll(LogUnit(selected, u, |start|)))[..c], start, past + [u])
  {
    hide EncodeAll, LogUnit, Replay, KindOf, Start, ExecuteUnits, Load, Recovered;
    var dbs := ExecuteUnits(srv, start, past);
    var cmds :| IsLog(srv, bytes, dbs, selected, cmds);
    var v := Replay(srv, Start(|dbs|), cmds).view;
    var h := AofRecovery.History(cmds, selected, [u]);
    LogOne(selected, u, |start|);
    EncodeAllConcat(cmds, LogUnit(selected, u, |start|));
    var j := CutLogRecovers(srv, h, v, c);
    var r := Load(srv, EncodeAll(Text(h, |start|))[..c], |start|, true);
    RecoveredLast(srv, start, past, u, j, r.session.view.dbs);
    assert LoadsTo(srv, EncodeAll(Text(h, |start|))[..c], start, past + [u], |past| + j);
  }

  lemma CutBefore(srv: Dataset.Server, bytes: Bytes, more: Bytes, start: Dbs, past: seq<Unit>, u: Unit, c: nat)
    requires |start| > 0 && UnitsOk(past, |start|) && UnitOk(u, |start|) && c <= |bytes|
    requires LoadsPrefix(srv, bytes[..c], start, past)
    ensures LoadsPrefix(srv, (bytes + more)[..c], start, past + [u])
  {
    hide Load, Recovered, UnitOk;
    assert (bytes + more)[..c] == bytes[..c];
    var j: nat :| j <= |past| && LoadsTo(srv, bytes[..c], start, past, j);
    RecoveredStill(srv, start, past, u, j, Load(srv, bytes[..c], |start|, true).session.view.dbs);
    assert LoadsTo(srv, bytes[..c], start, past + [u], j);
  }

  /** Logging a unit keeps every cut of the log loadable. */
  lemma CutsGrow(srv: Dataset.Server, bytes: Bytes, floor: nat, start: Dbs, past: seq<Unit>, selected: int, u: Unit)
    requires |start| > 0 && UnitsOk(past, |start|) && CutsLoad(srv, bytes, floor, start, past)
    requires LogOf(srv, bytes, ExecuteUnits(srv, start, past), selected)
    requires KnowsLogNames(srv) && Printable(|start|) && Loggable(srv, u, |start|)
    ensures UnitsOk(past + [u], |start|)
    ensures CutsLoad(srv, bytes + EncodeAll(LogUnit(selected, u, |start|)), floor, start, past + [u])
  {
    hide EncodeAll, LogUnit, LogOf, LoadsPrefix, ExecuteUnits, UnitOk;
    var more := EncodeAll(LogUnit(selected, u, |start|));
    assert UnitOk(u, |start|);
    forall c | floor <= c <= |bytes + more| && c > 0 ensures LoadsPrefix(srv, (bytes + more)[..c], start, past + [u]) {
      if c <= |bytes| {
        CutBefore(srv, bytes, more, start, past, u, c);
      } else {
        CutInLast(srv, bytes, start, past, selected, u, c);
      }
    }
  }

  /** A log that is all there at the start, or a dump just taken: no proper cut. */
  lemma CutsOfWhole(srv: Dataset.Server, bytes: Bytes, start: Dbs, past: seq<Unit>, selected: int)
    requires |start| > 0 && UnitsOk(past, |start|) && LogOf(srv, bytes, ExecuteUnits(srv, start, past), selected)
    ensures CutsLoad(srv, bytes, |bytes|, start, past)
  {
    hide EncodeAll, Load, KindOf, ExecuteUnits, Replay, WithoutExpiry;
    var dbs := ExecuteUnits(srv, start, past);
    var cmds :| IsLog(srv, bytes, dbs, selected, cmds);
    if |bytes| > 0 {
      assert cmds != [] by { NoneEncoded(); }
      LoadWholeLog(srv, cmds, |dbs|);
      assert past[..|past|] == past && bytes[..|bytes|] == bytes;
      assert LoadsTo(srv, bytes, start, past, |past|);
      assert LoadsPrefix(srv, bytes[..|bytes|], start, past);
    }
  }

  lemma InitInv(srv: Dataset.Server, w: World)
    requires Init(srv, w)
    ensures Inv(srv, w)
  {
    hide LogOf, CutsLoad;
    assert w.aof.file + w.aof.buf == w.aof.file;
    EmptyLogOf(srv, |w.dbs|);
    if w.aof.on {
      CutsOfWhole(srv, w.aof.file, w.start, w.past, -1);
    }
  }

  lemma RunKeeps(srv: Dataset.Server, w: World, t: World, u: Unit)
    requires Inv(srv, w) && Next(srv, w, t, Run(u))
    ensures Inv(srv, t)
  {
    hide EncodeAll, LogOf, LogUnit, ExecuteUnit, FeedMany, Calls, CutsLoad, ExecuteUnits, UnitsOk;
    var e := EncodeAll(LogUnit(w.aof.selected, u, |w.dbs|));
    FeedUnit(w.aof, u, |w.dbs|);
    ExecuteOneMore(srv, w.start, w.past, u);
    if w.aof.on {
      LogGrows(srv, w.aof.file + w.aof.buf, w.dbs, w.aof.selected, u);
      CutsGrow(srv, w.aof.file + w.aof.buf, w.floor, w.start, w.past, w.aof.selected, u);
      ConcatAssoc(w.aof.file, w.aof.buf, e);
    }
    if w.aof.forked {
      LogGrows(srv, Rewritten(w), w.dbs, w.aof.selected, u);
      CutsGrow(srv, Rewritten(w), |w.snapshot|, w.start, w.past, w.aof.selected, u);
      ConcatAssoc(w.aof.pipe, w.aof.residual, e);
      ConcatAssoc(w.snapshot + w.diff, w.aof.pipe + w.aof.residual, e);
      ConcatAssoc(w.diff + w.aof.pipe, w.aof.residual, e);
    }
  }

  lemma StartKeeps(srv: Dataset.Server, w: World, t: World, cmds: seq<Argv>)
    requires Inv(srv, w) && Next(srv, w, t, StartChild(cmds))
    ensures Inv(srv, t)
  {
    hide EncodeAll, LogOf, Dumps, CutsLoad, ExecuteUnits;
    DumpIsLog(srv, w.dbs, cmds);
    assert Rewritten(t) == EncodeAll(cmds);
    CutsOfWhole(srv, Rewritten(t), t.start, t.past, -1);
    if w.aof.on {
      LogUnselected(srv, w.aof.file + w.aof.buf, w.dbs, w.aof.selected);
    }
  }

  lemma SendKeeps(srv: Dataset.Server, w: World, t: World)
    requires Inv(srv, w) && Next(srv, w, t, Send)
    ensures Inv(srv, t)
  {
    hide LogOf, CutsLoad, ExecuteUnits;
    ConcatAssoc(w.diff, w.aof.pipe, w.aof.residual);
    ConcatAssoc(t.diff, t.aof.pipe, t.aof.residual);
    assert Rewritten(t) == Rewritten(w);
  }

  lemma ReadKeeps(srv: Dataset.Server, w: World, t: World, n: nat)
    requires Inv(srv, w) && Next(srv, w, t, ChildReads(n))
    ensures Inv(srv, t)
  {
    hide LogOf, CutsLoad, ExecuteUnits;
    var got, left := w.aof.pipe[..n], w.aof.pipe[n..];
    assert w.aof.pipe == got + left;
    ConcatAssoc(w.diff, got, left);
    ConcatAssoc(got, left, w.aof.residual);
    ConcatAssoc(w.snapshot, w.diff, got);
    ConcatAssoc(w.snapshot + w.diff, got, left + w.aof.residual);
    assert Rewritten(t) == Rewritten(w);
  }

  /** The installed file is the dump followed by everything logged since the fork,
      and it is the log from here on. */
  lemma InstallKeeps(srv: Dataset.Server, w: World, t: World)
    requires Inv(srv, w) && Next(srv, w, t, Installs)
    ensures Inv(srv, t)
    ensures t.aof.file == w.snapshot + w.fed && t.aof.buf == []
  {
    hide LogOf, CutsLoad, ExecuteUnits;
    LogUnselected(srv, Rewritten(w), w.dbs, w.aof.selected);
    assert w.aof.pipe + w.aof.residual == w.aof.residual;
    assert w.diff + w.aof.pipe == w.diff;
    ConcatAssoc(w.snapshot, w.diff, w.aof.residual);
    assert t.aof.file == Rewritten(w);
    assert t.aof.file + t.aof.buf == t.aof.file;
  }

  lemma NextKeeps(srv: Dataset.Server, w: World, t: World, step: Step)
    requires Inv(srv, w) && Next(srv, w, t, step)
    ensures Inv(srv, t)
  {
    hide LogOf, EncodeAll, Dumps, Loggable, FeedMany, Calls, ExecuteUnit, LogUnit, CutsLoad, ExecuteUnits, UnitsOk;
    match step
    case Run(u) => RunKeeps(srv, w, t, u);
    case Flush =>
    case StartChild(cmds) => StartKeeps(srv, w, t, cmds);
    case Send => SendKeeps(srv, w, t);
    case ChildReads(n) => ReadKeeps(srv, w, t, n);
    case ChildAsks =>
    case ParentAcks(_) =>
    case ChildHears =>
    case ChildExits =>
    case ChildFails =>
    case Installs => InstallKeeps(srv, w, t);
    case InstallFails =>
  }

  // ---------------------------------------------------------------- all runs

  ghost predicate IsRun(srv: Dataset.Server, run: seq<World>, steps: seq<Step>) {
    && |run| == |steps| + 1 && Init(srv, run[0])
    && forall i :: 0 <= i < |steps| ==> Next(srv, run[i], run[i + 1], steps[i])
  }

  lemma {:induction false} RunInv(srv: Dataset.Server, run: seq<World>, steps: seq<Step>, i: nat)
    requires IsRun(srv, run, steps) && i < |run|
    ensures Inv(srv, run[i])
    decreases i
  {
    hide Next, Inv, Init;
    if i == 0 {
      InitInv(srv, run[0]);
    } else {
      RunInv(srv, run, steps, i - 1);
      assert Next(srv, run[i - 1], run[i - 1 + 1], steps[i - 1]);
      NextKeeps(srv, run[i - 1], run[i], steps[i - 1]);
    }
  }

  /** Durability: in every run, at every moment and whatever the rewrite is doing,
      loading the log (what is in the file and what is still buffered) rebuilds
      exactly the databases the server holds. */
  lemma Durable(srv: Dataset.Server, run: seq<World>, steps: seq<Step>, i: nat)
    requires IsRun(srv, run, steps) && i < |run| && run[i].aof.on
    ensures |run[i].dbs| > 0
    ensures var log := run[i].aof.file + run[i].aof.buf;
            if log == [] then run[i].dbs == EmptyDbs(|run[i].dbs|)
            else Rebuilds(srv, log, run[i].dbs, |run[i].dbs|)
  {
    hide EncodeAll, Load, KindOf, IsRun;
    RunInv(srv, run, steps, i);
    var w := run[i];
    var cmds :| IsLog(srv, w.aof.file + w.aof.buf, w.dbs, w.aof.selected, cmds);
    if cmds == [] {
      NoneEncoded();
    } else {
      SomethingEncoded(cmds);
      LoadWholeLog(srv, cmds, |w.dbs|);
    }
  }

  lemma SomethingEncoded(cmds: seq<Argv>)
    requires cmds != []
    ensures EncodeAll(cmds) != []
  {
  }

  /** The units executed by the steps. */
  function Ran(steps: seq<Step>): seq<Unit> {
    if steps == [] then []
    else
      var last := steps[|steps| - 1];
      Ran(steps[..|steps| - 1]) + if last.Run? then [last.u] else []
  }

  lemma {:induction false} PastIsRan(srv: Dataset.Server, run: seq<World>, steps: seq<Step>, i: nat)
    requires IsRun(srv, run, steps) && i < |run|
    ensures run[i].past == Ran(steps[..i]) && run[i].start == run[0].dbs
    decreases i
  {
    hide Next, Init;
    if i == 0 {
      InitPast(srv, run[0]);
    } else {
      PastIsRan(srv, run, steps, i - 1);
      assert Next(srv, run[i - 1], run[i - 1 + 1], steps[i - 1]);
      NextPast(srv, run[i - 1], run[i], steps[i - 1]);
      assert steps[..i][..i - 1] == steps[..i - 1] && steps[..i][i - 1] == steps[i - 1];
    }
  }

  lemma InitPast(srv: Dataset.Server, w: World)
    requires Init(srv, w)
    ensures w.past == [] && w.start == w.dbs
  {
  }

  lemma NextPast(srv: Dataset.Server, w: World, t: World, step: Step)
    requires Next(srv, w, t, step)
    ensures t.past == w.past + (if step.Run? then [step.u] else []) && t.start == w.start
  {
    hide EncodeAll, FeedMany, Calls, ExecuteUnit, LogUnit, Loggable, Dumps;
  }

  /** A crash at any moment of any run loses at most a tail of the executed units:
      loading the file alone rebuilds what the first `j` of them made of the databases
      the server started with, unless the next is one command logged as SET and
      PEXPIREAT, which can come back without its expiry. */
  lemma CrashRecovers(srv: Dataset.Server, run: seq<World>, steps: seq<Step>, i: nat) returns (j: nat)
    requires IsRun(srv, run, steps) && i < |run| && run[i].aof.on && run[i].aof.file != []
    ensures |run[0].dbs| > 0 && UnitsOk(Ran(steps[..i]), |run[0].dbs|) && j <= |Ran(steps[..i])|
    ensures var r := Load(srv, run[i].aof.file, |run[0].dbs|, true);
            r.Loaded? && Recovered(srv, run[0].dbs, Ran(steps[..i]), j, r.session.view.dbs)
  {
    hide Load, IsRun, LogOf, Recovered, UnitsOk;
    RunInv(srv, run, steps, i);
    PastIsRan(srv, run, steps, i);
    var w := run[i];
    assert (w.aof.file + w.aof.buf)[..|w.aof.file|] == w.aof.file;
    assert LoadsPrefix(srv, w.aof.file, w.start, w.past);
    j :| j <= |w.past| && LoadsTo(srv, w.aof.file, w.start, w.past, j);
  }

  /** Conservation: while a child runs, what it received, what is in the pipe and
      what the parent still buffers are, in this order, all that was logged since
      the fork; once it exited successfully its file holds all that was ever sent. */
  lemma NothingLost(srv: Dataset.Server, run: seq<World>, steps: seq<Step>, i: nat)
    requires IsRun(srv, run, steps) && i < |run| && run[i].aof.forked
    ensures var w := run[i];
            && w.diff + w.aof.pipe + w.aof.residual == w.fed
            && (w.phase.Exited? ==> w.phase.temp + w.aof.residual == w.snapshot + w.fed)
  {
    hide IsRun, LogOf;
    RunInv(srv, run, steps, i);
    var w := run[i];
    if w.phase.Exited? {
      assert w.diff + w.aof.pipe == w.diff;
      ConcatAssoc(w.snapshot, w.diff, w.aof.residual);
    }
  }
}
