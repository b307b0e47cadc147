/** What a logged command means: databases of keys with a value and an expiry,
    and the client session in which a log is replayed. */
module Dataset {
  import opened Basics
  import opened Resp

  datatype Value =
    | Str(text: Bytes)
    | List(items: seq<Bytes>)
    | Set(members: set<Bytes>)
    | Hash(fields: map<Bytes, Bytes>)

  /** What `getExpire` answers for a key without an expiry. */
  const NO_EXPIRY := -1

  /** `expiry` is an absolute time in milliseconds, as `getExpire` reports it. */
  datatype Entry = Entry(value: Value, expiry: int)

  type Db = map<Bytes, Entry>
  type Dbs = seq<Db>

  // ---------------------------------------------------------------- command names

  const SELECT: Bytes := [83, 69, 76, 69, 67, 84]
  const MULTI: Bytes := [77, 85, 76, 84, 73]
  const EXEC: Bytes := [69, 88, 69, 67]
  const SET: Bytes := [83, 69, 84]
  const SETEX: Bytes := [83, 69, 84, 69, 88]
  const PSETEX: Bytes := [80, 83, 69, 84, 69, 88]
  const EXPIRE: Bytes := [69, 88, 80, 73, 82, 69]
  const PEXPIRE: Bytes := [80, 69, 88, 80, 73, 82, 69]
  const EXPIREAT: Bytes := [69, 88, 80, 73, 82, 69, 65, 84]
  const PEXPIREAT: Bytes := [80, 69, 88, 80, 73, 82, 69, 65, 84]
  const RPUSH: Bytes := [82, 80, 85, 83, 72]
  const SADD: Bytes := [83, 65, 68, 68]
  const HMSET: Bytes := [72, 77, 83, 69, 84]

  datatype Kind =
    | KSelect | KMulti | KExec
    | KSet | KSetEx | KPSetEx | KExpire | KPExpire | KExpireAt | KPExpireAt
    | KRPush | KSAdd | KHMSet
    | KOther

  function UpperByte(b: Byte): Byte {
    if 97 <= b <= 122 then b - 32 else b
  }

  /** Command and option names are compared without regard to case. */
  function Upper(s: Bytes): (u: Bytes)
    ensures |u| == |s|
  {
    seq(|s|, i requires 0 <= i < |s| => UpperByte(s[i]))
  }

  function KindOf(name: Bytes): Kind {
    var u := Upper(name);
    if u == SELECT then KSelect
    else if u == MULTI then KMulti
    else if u == EXEC then KExec
    else if u == SET then KSet
    else if u == SETEX then KSetEx
    else if u == PSETEX then KPSetEx
    else if u == EXPIRE then KExpire
    else if u == PEXPIRE then KPExpire
    else if u == EXPIREAT then KExpireAt
    else if u == PEXPIREAT then KPExpireAt
    else if u == RPUSH then KRPush
    else if u == SADD then KSAdd
    else if u == HMSET then KHMSet
    else KOther
  }

  lemma KindsOfNames()
    ensures KindOf(SELECT) == KSelect && KindOf(MULTI) == KMulti && KindOf(EXEC) == KExec
    ensures KindOf(SET) == KSet && KindOf(PEXPIREAT) == KPExpireAt
    ensures KindOf(RPUSH) == KRPush && KindOf(SADD) == KSAdd && KindOf(HMSET) == KHMSet
  {
    assert Upper(SELECT) == SELECT;
    assert Upper(MULTI) == MULTI;
    assert Upper(EXEC) == EXEC;
    assert Upper(SET) == SET;
    assert Upper(PEXPIREAT) == PEXPIREAT && |PEXPIREAT| == 9;
    assert Upper(RPUSH) == RPUSH && RPUSH[0] == 82;
    assert Upper(SADD) == SADD && SADD[0] == 83;
    assert Upper(HMSET) == HMSET && HMSET[0] == 72;
  }

  // ---------------------------------------------------------------- one command

  /** The server's command table: which names exist, and what the commands that
      need no translation do. They may touch every database but do not depend on
      the clock. */
  datatype Server = Server(known: Bytes -> bool, run: (Dbs, nat, Argv) -> Dbs)

  function PairsToMap(kv: seq<Bytes>): map<Bytes, Bytes>
    requires |kv| % 2 == 0
    decreases |kv|
  {
    if kv == [] then map[] else PairsToMap(kv[..|kv| - 2])[kv[|kv| - 2] := kv[|kv| - 1]]
  }

  function SetString(db: Db, key: Bytes, text: Bytes): Db {
    db[key := Entry(Str(text), NO_EXPIRY)]
  }

  function SetExpiry(db: Db, key: Bytes, when: int): Db {
    if key in db then db[key := db[key].(expiry := when)] else db
  }

  /** Appending to a missing list, set or hash creates it; a key of another type
      is left alone (the command replies with an error). */
  function PushTail(db: Db, key: Bytes, items: seq<Bytes>): Db {
    if key !in db then db[key := Entry(List(items), NO_EXPIRY)]
    else if db[key].value.List? then db[key := db[key].(value := List(db[key].value.items + items))]
    else db
  }

  function AddMembers(db: Db, key: Bytes, items: seq<Bytes>): Db {
    if key !in db then db[key := Entry(Set(Elements(items)), NO_EXPIRY)]
    else if db[key].value.Set? then db[key := db[key].(value := Set(db[key].value.members + Elements(items)))]
    else db
  }

  function SetFields(db: Db, key: Bytes, kv: seq<Bytes>): Db
    requires |kv| % 2 == 0
  {
    if key !in db then db[key := Entry(Hash(PairsToMap(kv)), NO_EXPIRY)]
    else if db[key].value.Hash? then db[key := db[key].(value := Hash(db[key].value.fields + PairsToMap(kv)))]
    else db
  }

  function RunOther(srv: Server, dbs: Dbs, cur: nat, argv: Argv): (r: Dbs)
    ensures |r| == |dbs|
  {
    var r := srv.run(dbs, cur, argv);
    if |r| == |dbs| then r else dbs
  }

  /** Running one command outside MULTI that is not SELECT. */
  function RunWrite(srv: Server, dbs: Dbs, cur: nat, argv: Argv): (r: Dbs)
    requires cur < |dbs| && |argv| >= 1
    ensures |r| == |dbs|
  {
    var db := dbs[cur];
    match KindOf(argv[0])
    case KSelect => dbs
    case KMulti => dbs
    case KExec => dbs
    case KSet =>
      if |argv| == 3 then dbs[cur := SetString(db, argv[1], argv[2])] else RunOther(srv, dbs, cur, argv)
    case KPExpireAt =>
      if |argv| == 3 then dbs[cur := SetExpiry(db, argv[1], ParseInt(argv[2]))] else RunOther(srv, dbs, cur, argv)
    case KRPush =>
      if |argv| >= 3 then dbs[cur := PushTail(db, argv[1], argv[2..])] else RunOther(srv, dbs, cur, argv)
    case KSAdd =>
      if |argv| >= 3 then dbs[cur := AddMembers(db, argv[1], argv[2..])] else RunOther(srv, dbs, cur, argv)
    case KHMSet =>
      if |argv| >= 4 && |argv| % 2 == 0 then dbs[cur := SetFields(db, argv[1], argv[2..])] else RunOther(srv, dbs, cur, argv)
    case _ => RunOther(srv, dbs, cur, argv)
  }

  /** The databases and the selected one. */
  datatype View = View(dbs: Dbs, cur: nat) {
    predicate Valid() { cur < |dbs| }
  }

  /** One command of a log, run outside a transaction; MULTI and EXEC found there
      only reply with an error. */
  function RunLogged(srv: Server, v: View, argv: Argv): (r: View)
    requires v.Valid() && |argv| >= 1
    ensures r.Valid() && |r.dbs| == |v.dbs|
  {
    if KindOf(argv[0]).KSelect? then
      if |argv| == 2 && 0 <= ParseInt(argv[1]) < |v.dbs| then v.(cur := ParseInt(argv[1])) else v
    else
      v.(dbs := RunWrite(srv, v.dbs, v.cur, argv))
  }

  predicate Runnable(cmds: seq<Argv>) {
    forall i :: 0 <= i < |cmds| ==> |cmds[i]| >= 1
  }

  function RunSeq(srv: Server, v: View, cmds: seq<Argv>): (r: View)
    requires v.Valid() && Runnable(cmds)
    ensures r.Valid() && |r.dbs| == |v.dbs|
    decreases |cmds|
  {
    if cmds == [] then v else RunSeq(srv, RunLogged(srv, v, cmds[0]), cmds[1..])
  }

  lemma {:induction false} RunSeqConcat(srv: Server, v: View, a: seq<Argv>, b: seq<Argv>)
    requires v.Valid() && Runnable(a) && Runnable(b)
    ensures Runnable(a + b)
    ensures RunSeq(srv, v, a + b) == RunSeq(srv, RunSeq(srv, v, a), b)
    decreases |a|
  {
    if a == [] {
      assert a + b == b;
    } else {
      assert (a + b)[1..] == a[1..] + b;
      RunSeqConcat(srv, RunLogged(srv, v, a[0]), a[1..], b);
    }
  }

  // ---------------------------------------------------------------- the replay session

  /** The fake client: its databases, and the commands queued since MULTI. */
  datatype Session = Session(view: View, multi: bool, queue: seq<Argv>) {
    predicate Valid() { view.Valid() && Runnable(queue) }
  }

  /** One command read from the log: queued inside MULTI, otherwise run. */
  function Replay1(srv: Server, s: Session, argv: Argv): (r: Session)
    requires s.Valid() && |argv| >= 1
    ensures r.Valid()
  {
    var kind := KindOf(argv[0]);
    if s.multi && !kind.KExec? then s.(queue := s.queue + [argv])
    else if kind.KMulti? then s.(multi := true, queue := [])
    else if kind.KExec? then
      if s.multi then Session(RunSeq(srv, s.view, s.queue), false, []) else s
    else s.(view := RunLogged(srv, s.view, argv))
  }

  function Replay(srv: Server, s: Session, cmds: seq<Argv>): (r: Session)
    requires s.Valid() && Runnable(cmds)
    ensures r.Valid()
    decreases |cmds|
  {
    if cmds == [] then s else Replay(srv, Replay1(srv, s, cmds[0]), cmds[1..])
  }

  lemma {:induction false} ReplayConcat(srv: Server, s: Session, a: seq<Argv>, b: seq<Argv>)
    requires s.Valid() && Runnable(a) && Runnable(b)
    ensures Runnable(a + b)
    ensures Replay(srv, s, a + b) == Replay(srv, Replay(srv, s, a), b)
    decreases |a|
  {
    if a == [] {
      assert a + b == b;
    } else {
      assert (a + b)[1..] == a[1..] + b;
      ReplayConcat(srv, Replay1(srv, s, a[0]), a[1..], b);
    }
  }

  predicate NoControl(cmds: seq<Argv>) {
    forall i :: 0 <= i < |cmds| ==>
      |cmds[i]| >= 1 && !KindOf(cmds[i][0]).KMulti? && !KindOf(cmds[i][0]).KExec?
  }

  /** Outside MULTI, replaying is running. */
  lemma {:induction false} ReplayPlain(srv: Server, s: Session, cmds: seq<Argv>)
    requires s.Valid() && !s.multi && NoControl(cmds)
    ensures Replay(srv, s, cmds) == s.(view := RunSeq(srv, s.view, cmds))
    decreases |cmds|
  {
    if cmds != [] {
      ReplayPlain(srv, Replay1(srv, s, cmds[0]), cmds[1..]);
    }
  }

  /** Inside MULTI, commands only queue. */
  lemma {:induction false} ReplayQueues(srv: Server, s: Session, cmds: seq<Argv>)
    requires s.Valid() && s.multi && NoControl(cmds)
    ensures Replay(srv, s, cmds) == s.(queue := s.queue + cmds)
    decreases |cmds|
  {
    if cmds == [] {
      assert s.queue + cmds == s.queue;
    } else {
      var s1 := Replay1(srv, s, cmds[0]);
      assert s1.queue == s.queue + [cmds[0]];
      assert s1.queue + cmds[1..] == s.queue + cmds;
      ReplayQueues(srv, s1, cmds[1..]);
    }
  }
}
