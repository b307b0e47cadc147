/** Rewriting the append-only file: the shortest log of a dataset, with at most
    K items per command. Whatever the iteration order and K, replaying the output
    on an empty server rebuilds the dataset. */
module AofDump {
  import opened Basics
  import opened Resp
  import opened Dataset
  import opened AofFeed
  import opened AofRecovery

  // ---------------------------------------------------------------- chunks

  /** The arguments of a run of items (one per list element or set member, two per
      hash field). */
  function Concat(items: seq<Argv>): Argv {
    if items == [] then [] else items[0] + Concat(items[1..])
  }

  predicate Width(items: seq<Argv>, w: nat) {
    forall i :: 0 <= i < |items| ==> |items[i]| == w
  }

  lemma {:induction false} ConcatSplit(a: seq<Argv>, b: seq<Argv>)
    ensures Concat(a + b) == Concat(a) + Concat(b)
    decreases |a|
  {
    if a == [] {
      assert a + b == b;
    } else {
      assert (a + b)[1..] == a[1..] + b;
      ConcatSplit(a[1..], b);
    }
  }

  lemma {:induction false} ConcatWidth(items: seq<Argv>, w: nat)
    requires Width(items, w)
    ensures |Concat(items)| == Times(|items|, w)
  {
    if items != [] {
      ConcatWidth(items[1..], w);
    }
  }

  /** The arguments that `n` items of width `w` take. */
  function Times(n: nat, w: nat): nat {
    if n == 0 then 0 else w + Times(n - 1, w)
  }

  function Min(a: nat, b: nat): nat {
    if a < b then a else b
  }

  /** `name key item ...` commands of at most `k` items each. */
  function Chunks(name: Bytes, key: Bytes, items: seq<Argv>, k: nat): seq<Argv>
    requires k > 0
    decreases |items|
  {
    if items == [] then []
    else
      var n := Min(k, |items|);
      [[name, key] + Concat(items[..n])] + Chunks(name, key, items[n..], k)
  }

  /** What is still to be printed at item `i`: the items up to `end` of the
      command whose header is already printed, then whole commands. */
  function Left(name: Bytes, key: Bytes, items: seq<Argv>, k: nat, i: nat, end: nat): Bytes
    requires k > 0 && i <= end <= |items|
  {
    EncodeBulks(Concat(items[i..end])) + EncodeAll(Chunks(name, key, items[end..], k))
  }

  lemma EncodeTwo(a: Bytes, b: Bytes)
    ensures EncodeBulks([a, b]) == EncodeBulk(a) + EncodeBulk(b)
  {
    hide EncodeBulk;
    assert [a, b][1..] == [b];
    assert [b][1..] == [];
    assert EncodeBulks([b]) == EncodeBulk(b) + EncodeBulks([]);
    assert EncodeBulks([a, b]) == EncodeBulk(a) + EncodeBulks([b]);
  }

  lemma EncodeNamed(name: Bytes, key: Bytes, args: Argv)
    ensures EncodeCommand([name, key] + args)
            == NumberLine(STAR, 2 + |args|) + EncodeBulk(name) + EncodeBulk(key) + EncodeBulks(args)
  {
    hide EncodeBulk, NumberLine, EncodeBulks;
    var head := NumberLine(STAR, 2 + |args|);
    EncodeBulksConcat([name, key], args);
    EncodeTwo(name, key);
    var two := EncodeBulk(name) + EncodeBulk(key);
    ConcatAssoc(head, two, EncodeBulks(args));
    ConcatAssoc(head, EncodeBulk(name), EncodeBulk(key));
  }

  lemma EncodeChunk(name: Bytes, key: Bytes, chunk: seq<Argv>, w: nat)
    requires Width(chunk, w)
    ensures EncodeCommand([name, key] + Concat(chunk))
            == NumberLine(STAR, 2 + Times(|chunk|, w)) + EncodeBulk(name) + EncodeBulk(key) + EncodeBulks(Concat(chunk))
  {
    hide EncodeBulk, NumberLine, Concat, EncodeBulks, EncodeCommand;
    ConcatWidth(chunk, w);
    EncodeNamed(name, key, Concat(chunk));
  }

  /** A header announces exactly the items that will follow it. */
  lemma StartChunk(name: Bytes, key: Bytes, items: seq<Argv>, k: nat, i: nat, w: nat)
    requires k > 0 && i < |items| && Width(items, w)
    ensures var n := Min(k, |items| - i);
            Left(name, key, items, k, i, i)
            == NumberLine(STAR, 2 + Times(n, w)) + EncodeBulk(name) + EncodeBulk(key) + Left(name, key, items, k, i, i + n)
  {
    hide EncodeBulk, NumberLine, EncodeBulks, EncodeCommand, Concat, Times;
    var rest := items[i..];
    var n := Min(k, |rest|);
    var chunk := items[i..i + n];
    assert rest[..n] == chunk && rest[n..] == items[i + n..];
    EncodeChunk(name, key, chunk, w);
    NothingLeft(items, i);
    var more := Chunks(name, key, items[i + n..], k);
    assert Chunks(name, key, rest, k)[1..] == more;
  }

  lemma NothingLeft(items: seq<Argv>, i: nat)
    requires i <= |items|
    ensures EncodeBulks(Concat(items[i..i])) == []
  {
  }

  lemma NextItem(name: Bytes, key: Bytes, items: seq<Argv>, k: nat, i: nat, end: nat)
    requires k > 0 && i < end <= |items|
    ensures Left(name, key, items, k, i, end) == EncodeBulks(items[i]) + Left(name, key, items, k, i + 1, end)
  {
    hide EncodeBulk;
    assert items[i..end][0] == items[i] && items[i..end][1..] == items[i + 1..end];
    EncodeBulksConcat(items[i], Concat(items[i + 1..end]));
  }

  lemma LeftEnds(name: Bytes, key: Bytes, items: seq<Argv>, k: nat)
    requires k > 0
    ensures Left(name, key, items, k, 0, 0) == EncodeAll(Chunks(name, key, items, k))
    ensures Left(name, key, items, k, |items|, |items|) == []
  {
    assert items[0..] == items;
    NothingLeft(items, 0);
    NothingLeft(items, |items|);
    assert items[|items|..] == [];
  }

  /** The loop shared by the list, set and hash writers: a header whenever
      `count` is zero, announcing the items that are left but at most `k`. */
  method RewriteItems(out: Bytes, name: Bytes, key: Bytes, items: seq<Argv>, k: nat, w: nat) returns (r: Bytes)
    requires k > 0 && Width(items, w)
    ensures r == out + EncodeAll(Chunks(name, key, items, k))
  {
    hide EncodeBulk, NumberLine, Left, Chunks, EncodeAll, EncodeBulks;
    r := out;
    var count, left := 0, |items|;
    ghost var end: nat := 0;
    ghost var goal := out + EncodeAll(Chunks(name, key, items, k));
    LeftEnds(name, key, items, k);
    for i := 0 to |items|
      invariant 0 <= count < k && count <= i <= end <= |items| && left == |items| - i
      invariant count == 0 ==> end == i
      invariant count > 0 ==> end == i - count + Min(k, |items| - (i - count))
      invariant r + Left(name, key, items, k, i, end) == goal
    {
      if count == 0 {
        StartChunk(name, key, items, k, i, w);
        var head := NumberLine(STAR, 2 + Times(Min(k, left), w)) + EncodeBulk(name) + EncodeBulk(key);
        end := i + Min(k, left);
        ConcatAssoc(r, head, Left(name, key, items, k, i, end));
        r := r + head;
      }
      NextItem(name, key, items, k, i, end);
      ConcatAssoc(r, EncodeBulks(items[i]), Left(name, key, items, k, i + 1, end));
      r := r + EncodeBulks(items[i]);
      count := count + 1;
      if count == k {
        count := 0;
      }
      left := left - 1;
    }
    assert r + [] == r;
  }

  // ---------------------------------------------------------------- what a chunk does

  predicate IsCollection(kind: Kind) {
    kind.KRPush? || kind.KSAdd? || kind.KHMSet?
  }

  function ItemWidth(kind: Kind): nat {
    if kind.KHMSet? then 2 else 1
  }

  function ValueOf(kind: Kind, args: Argv): Value
    requires IsCollection(kind) && (kind.KHMSet? ==> |args| % 2 == 0)
  {
    if kind.KRPush? then List(args) else if kind.KSAdd? then Set(Elements(args)) else Hash(PairsToMap(args))
  }

  lemma {:induction false} TimesTwo(n: nat)
    ensures Times(n, 2) == 2 * n && Times(n, 1) == n
  {
    if n > 0 { TimesTwo(n - 1); }
  }

  lemma EvenItems(kind: Kind, items: seq<Argv>)
    requires IsCollection(kind) && Width(items, ItemWidth(kind))
    ensures kind.KHMSet? ==> |Concat(items)| % 2 == 0
    ensures items != [] ==> |Concat(items)| >= ItemWidth(kind)
  {
    ConcatWidth(items, ItemWidth(kind));
    TimesTwo(|items|);
  }

  lemma {:induction false} PairsConcat(a: seq<Bytes>, b: seq<Bytes>)
    requires |a| % 2 == 0 && |b| % 2 == 0
    ensures PairsToMap(a + b) == PairsToMap(a) + PairsToMap(b)
    decreases |b|
  {
    if b == [] {
      assert a + b == a;
    } else {
      var n := |b| - 2;
      assert (a + b)[..|a| + n] == a + b[..n];
      PairsConcat(a, b[..n]);
    }
  }

  /** Adding items to a collection is concatenating their arguments. */
  lemma ValueGrows(kind: Kind, a: Argv, b: Argv)
    requires IsCollection(kind) && (kind.KHMSet? ==> |a| % 2 == 0 && |b| % 2 == 0)
    ensures ValueOf(kind, a + b) ==
              if kind.KRPush? then List(ValueOf(kind, a).items + b)
              else if kind.KSAdd? then Set(ValueOf(kind, a).members + Elements(b))
              else Hash(ValueOf(kind, a).fields + PairsToMap(b))
  {
    if kind.KSAdd? {
      assert Elements(a + b) == Elements(a) + Elements(b);
    } else if kind.KHMSet? {
      PairsConcat(a, b);
    }
  }

  /** The key after `done` of its items were replayed: absent before the first. */
  function Partial(db: Db, key: Bytes, kind: Kind, done: Argv): Db
    requires IsCollection(kind) && (kind.KHMSet? ==> |done| % 2 == 0)
  {
    if done == [] then db else db[key := Entry(ValueOf(kind, done), NO_EXPIRY)]
  }

  lemma RunChunk(srv: Server, v: View, db: Db, name: Bytes, key: Bytes, done: Argv, args: Argv)
    requires v.Valid() && IsCollection(KindOf(name)) && key !in db && |args| >= ItemWidth(KindOf(name))
    requires KindOf(name).KHMSet? ==> |done| % 2 == 0 && |args| % 2 == 0
    requires v.dbs[v.cur] == Partial(db, key, KindOf(name), done)
    ensures RunLogged(srv, v, [name, key] + args) == v.(dbs := v.dbs[v.cur := Partial(db, key, KindOf(name), done + args)])
  {
    hide KindOf, PairsToMap;
    var kind := KindOf(name);
    var cmd := [name, key] + args;
    assert cmd[0] == name && cmd[1] == key && cmd[2..] == args;
    if done == [] {
      assert done + args == args;
    } else {
      ValueGrows(kind, done, args);
      var was := Entry(ValueOf(kind, done), NO_EXPIRY);
      var now := Entry(ValueOf(kind, done + args), NO_EXPIRY);
      assert db[key := was][key := now] == db[key := now];
    }
  }

  lemma ChunksCons(name: Bytes, key: Bytes, items: seq<Argv>, k: nat)
    requires k > 0 && items != []
    ensures var n := Min(k, |items|);
            var all := Chunks(name, key, items, k);
            && all != [] && all[0] == [name, key] + Concat(items[..n]) && all[1..] == Chunks(name, key, items[n..], k)
            && Concat(items) == Concat(items[..n]) + Concat(items[n..])
  {
    var n := Min(k, |items|);
    assert items == items[..n] + items[n..];
    ConcatSplit(items[..n], items[n..]);
  }

  lemma {:induction false} ChunksRun(srv: Server, v: View, db: Db, name: Bytes, key: Bytes, done: Argv, items: seq<Argv>, k: nat)
    requires v.Valid() && IsCollection(KindOf(name)) && key !in db && k > 0
    requires Width(items, ItemWidth(KindOf(name))) && (KindOf(name).KHMSet? ==> |done| % 2 == 0)
    requires v.dbs[v.cur] == Partial(db, key, KindOf(name), done)
    ensures NoControl(Chunks(name, key, items, k))
    ensures KindOf(name).KHMSet? ==> |Concat(items)| % 2 == 0
    ensures RunSeq(srv, v, Chunks(name, key, items, k))
            == v.(dbs := v.dbs[v.cur := Partial(db, key, KindOf(name), done + Concat(items))])
    decreases |items|
  {
    hide KindOf, PairsToMap, RunLogged, ValueOf, Chunks, Concat, Partial;
    EvenItems(KindOf(name), items);
    if items == [] {
      assert Chunks(name, key, items, k) == [] && Concat(items) == [] by { NoChunks(name, key, k); }
      assert done + [] == done;
    } else {
      var n := Min(k, |items|);
      ChunksCons(name, key, items, k);
      var args := Concat(items[..n]);
      EvenItems(KindOf(name), items[..n]);
      RunChunk(srv, v, db, name, key, done, args);
      var v1 := v.(dbs := v.dbs[v.cur := Partial(db, key, KindOf(name), done + args)]);
      ChunksRun(srv, v1, db, name, key, done + args, items[n..], k);
      assert done + args + Concat(items[n..]) == done + Concat(items);
    }
  }

  lemma NoChunks(name: Bytes, key: Bytes, k: nat)
    requires k > 0
    ensures Chunks(name, key, [], k) == [] && Concat([]) == []
  {
  }

  // ---------------------------------------------------------------- iteration orders

  /** The dictionary iterators yield every element once, in some order. */
  method Enumerate(s: set<Bytes>) returns (order: seq<Bytes>)
    ensures Elements(order) == s && |order| == |s|
  {
    order := [];
    var left := s;
    while left != {}
      invariant Elements(order) + left == s && |order| + |left| == |s|
      decreases |left|
    {
      var x :| x in left;
      left := left - {x};
      order := order + [x];
    }
  }

  function Singles(xs: seq<Bytes>): (items: seq<Argv>)
    ensures Width(items, 1) && |items| == |xs|
  {
    seq(|xs|, i requires 0 <= i < |xs| => [xs[i]])
  }

  function Fields(m: map<Bytes, Bytes>, order: seq<Bytes>): (items: seq<Argv>)
    requires Elements(order) <= m.Keys
    ensures Width(items, 2) && |items| == |order|
  {
    assert forall i :: 0 <= i < |order| ==> order[i] in Elements(order);
    seq(|order|, i requires 0 <= i < |order| => [order[i], m[order[i]]])
  }

  lemma {:induction false} ConcatSingles(xs: seq<Bytes>)
    ensures Concat(Singles(xs)) == xs
    decreases |xs|
  {
    if xs != [] {
      assert Singles(xs)[1..] == Singles(xs[1..]);
      ConcatSingles(xs[1..]);
    }
  }

  lemma {:induction false} ConcatFields(m: map<Bytes, Bytes>, order: seq<Bytes>)
    requires Elements(order) <= m.Keys
    ensures var args := Concat(Fields(m, order));
            && |args| % 2 == 0
            && PairsToMap(args) == map f | f in Elements(order) :: m[f]
    decreases |order|
  {
    EvenItems(KHMSet, Fields(m, order));
    if order != [] {
      var n := |order| - 1;
      var init := order[..n];
      assert forall x :: x in Elements(init) ==> x in Elements(order);
      assert order[n] in Elements(order);
      var one: seq<Argv> := [[order[n], m[order[n]]]];
      assert Fields(m, order) == Fields(m, init) + one;
      ConcatFields(m, init);
      ConcatSplit(Fields(m, init), one);
      assert Concat(one) == one[0] by { assert one[1..] == []; assert one[0] + [] == one[0]; }
      var args := Concat(Fields(m, init));
      PairsConcat(args, one[0]);
      assert PairsToMap(one[0]) == map[order[n] := m[order[n]]] by { assert one[0][..0] == []; }
      assert Elements(order) == Elements(init) + {order[n]};
    }
  }

  // ---------------------------------------------------------------- one key

  predicate IsEmptyCollection(v: Value) {
    match v
    case Str(_) => false
    case List(items) => items == []
    case Set(members) => members == {}
    case Hash(fields) => fields == map[]
  }

  /** A key as the rewritten log restores it: the server keeps no empty
      collection, and nothing is printed for one. */
  function Restore(db: Db, key: Bytes, e: Entry): Db {
    if IsEmptyCollection(e.value) then db else db[key := e]
  }

  function ExpiryCommands(key: Bytes, expiry: int): seq<Argv> {
    if expiry != NO_EXPIRY then [ExpireAt(key, expiry)] else []
  }

  /** The commands for a value, given the order its members are iterated in. */
  function ValueCommands(key: Bytes, v: Value, order: seq<Bytes>, k: nat): seq<Argv>
    requires k > 0 && (v.Hash? ==> Elements(order) <= v.fields.Keys)
  {
    match v
    case Str(text) => [[SET, key, text]]
    case List(items) => Chunks(RPUSH, key, Singles(items), k)
    case Set(_) => Chunks(SADD, key, Singles(order), k)
    case Hash(fields) => Chunks(HMSET, key, Fields(fields, order), k)
  }

  predicate OrderOf(v: Value, order: seq<Bytes>) {
    && (v.Set? ==> Elements(order) == v.members)
    && (v.Hash? ==> Elements(order) == v.fields.Keys)
  }

  lemma ElementsEmpty(s: seq<Bytes>)
    ensures Elements(s) == {} <==> s == []
  {
    if s != [] { assert s[0] in Elements(s); }
  }

  lemma ValueRuns(srv: Server, v: View, key: Bytes, value: Value, order: seq<Bytes>, k: nat)
    requires v.Valid() && k > 0 && key !in v.dbs[v.cur] && OrderOf(value, order)
    ensures NoControl(ValueCommands(key, value, order, k))
    ensures RunSeq(srv, v, ValueCommands(key, value, order, k))
            == v.(dbs := v.dbs[v.cur := Restore(v.dbs[v.cur], key, Entry(value, NO_EXPIRY))])
  {
    hide KindOf, RunLogged;
    KindsOfNames();
    var db := v.dbs[v.cur];
    match value
    case Str(text) =>
      RunSeq1(srv, v, [SET, key, text]);
      RunSet(srv, v, SET, key, text);
    case List(items) =>
      ConcatSingles(items);
      ChunksRun(srv, v, db, RPUSH, key, [], Singles(items), k);
      assert [] + items == items;
    case Set(members) =>
      ConcatSingles(order);
      ElementsEmpty(order);
      ChunksRun(srv, v, db, SADD, key, [], Singles(order), k);
      assert [] + order == order;
    case Hash(fields) =>
      HashRuns(srv, v, key, fields, order, k);
  }

  lemma HashRuns(srv: Server, v: View, key: Bytes, fields: map<Bytes, Bytes>, order: seq<Bytes>, k: nat)
    requires v.Valid() && k > 0 && key !in v.dbs[v.cur] && Elements(order) == fields.Keys
    ensures NoControl(ValueCommands(key, Hash(fields), order, k))
    ensures RunSeq(srv, v, ValueCommands(key, Hash(fields), order, k))
            == v.(dbs := v.dbs[v.cur := Restore(v.dbs[v.cur], key, Entry(Hash(fields), NO_EXPIRY))])
  {
    hide KindOf, RunLogged, PairsToMap, Chunks, RunSeq;
    KindsOfNames();
    var db := v.dbs[v.cur];
    var args := Concat(Fields(fields, order));
    ConcatFields(fields, order);
    assert (map f | f in Elements(order) :: fields[f]) == fields;
    ElementsEmpty(order);
    EvenItems(KHMSet, Fields(fields, order));
    assert fields == map[] <==> order == [] by {
      if order == [] { assert fields.Keys == {}; }
    }
    assert order == [] ==> args == [];
    ChunksRun(srv, v, db, HMSET, key, [], Fields(fields, order), k);
    assert [] + args == args;
  }

  /** The printed commands of one key, its members iterated in `order`. */
  ghost predicate EntryPrinted(key: Bytes, e: Entry, order: seq<Bytes>, k: nat, printed: Bytes)
    requires k > 0
  {
    OrderOf(e.value, order) && printed == EncodeAll(ValueCommands(key, e.value, order, k) + ExpiryCommands(key, e.expiry))
  }

  /** One key: its value, then its expiry if it has one. */
  method RewriteEntry(out: Bytes, key: Bytes, e: Entry, k: nat) returns (r: Bytes)
    requires k > 0
    ensures |out| <= |r| && r[..|out|] == out && exists order :: EntryPrinted(key, e, order, k, r[|out|..])
  {
    hide EncodeCommand, Chunks, EncodeAll, KindOf, ValueCommands;
    ghost var order: seq<Bytes>;
    r, order := RewriteValue(out, key, e.value, k);
    ghost var cmds := ValueCommands(key, e.value, order, k);
    EncodeAllConcat(cmds, ExpiryCommands(key, e.expiry));
    if e.expiry != NO_EXPIRY {
      r := CatAppendOnlyGenericCommand(r, ExpireAt(key, e.expiry));
      EncodeAllSingle(ExpireAt(key, e.expiry));
    } else {
      NoBytes();
    }
    assert r == out + EncodeAll(cmds + ExpiryCommands(key, e.expiry));
    assert EntryPrinted(key, e, order, k, r[|out|..]);
  }

  method RewriteValue(out: Bytes, key: Bytes, v: Value, k: nat) returns (r: Bytes, ghost order: seq<Bytes>)
    requires k > 0
    ensures OrderOf(v, order) && r == out + EncodeAll(ValueCommands(key, v, order, k))
  {
    hide EncodeCommand, Chunks, EncodeAll, KindOf;
    order := [];
    match v {
      case Str(text) =>
        var cmd := CatAppendOnlyGenericCommand(out, [SET, key, text]);
        EncodeAllSingle([SET, key, text]);
        r := cmd;
      case List(items) =>
        r := RewriteItems(out, RPUSH, key, Singles(items), k, 1);
      case Set(members) =>
        var o := Enumerate(members);
        r := RewriteItems(out, SADD, key, Singles(o), k, 1);
        order := o;
      case Hash(fields) =>
        var o := Enumerate(fields.Keys);
        r := RewriteItems(out, HMSET, key, Fields(fields, o), k, 2);
        order := o;
    }
  }

  lemma NoBytes()
    ensures EncodeAll([]) == []
  {
  }

  lemma EntryRuns(srv: Server, v: View, key: Bytes, e: Entry, order: seq<Bytes>, k: nat)
    requires v.Valid() && k > 0 && key !in v.dbs[v.cur] && OrderOf(e.value, order)
    ensures var cmds := ValueCommands(key, e.value, order, k) + ExpiryCommands(key, e.expiry);
            && NoControl(cmds)
            && RunSeq(srv, v, cmds) == v.(dbs := v.dbs[v.cur := Restore(v.dbs[v.cur], key, e)])
  {
    hide KindOf, RunLogged, ValueCommands;
    var cmds := ValueCommands(key, e.value, order, k);
    var exp := ExpiryCommands(key, e.expiry);
    var db := v.dbs[v.cur];
    ValueRuns(srv, v, key, e.value, order, k);
    var v1 := v.(dbs := v.dbs[v.cur := Restore(db, key, Entry(e.value, NO_EXPIRY))]);
    KindsOfNames();
    NoControlConcat(cmds, exp);
    RunSeqConcat(srv, v, cmds, exp);
    if e.expiry != NO_EXPIRY {
      RunSeq1(srv, v1, ExpireAt(key, e.expiry));
      RunExpireAt(srv, v1, key, e.expiry);
      assert SetExpiry(v1.dbs[v.cur], key, e.expiry) == Restore(db, key, e);
    }
  }

  // ---------------------------------------------------------------- readable output

  predicate KnowsDumpNames(srv: Server) {
    KnowsLogNames(srv) && srv.known(RPUSH) && srv.known(SADD) && srv.known(HMSET)
  }

  predicate ArgsPrintable(argv: Argv) {
    forall i :: 0 <= i < |argv| ==> Printable(|argv[i]|)
  }

  predicate ValuePrintable(v: Value) {
    match v
    case Str(text) => Printable(|text|)
    case List(items) => ArgsPrintable(items)
    case Set(members) => forall x :: x in members ==> Printable(|x|)
    case Hash(fields) => forall f :: f in fields ==> Printable(|f|) && Printable(|fields[f]|)
  }

  predicate EntryPrintable(key: Bytes, e: Entry) {
    && Printable(|key|) && ValuePrintable(e.value)
    && -0x8000_0000_0000_0000 <= e.expiry < 0x8000_0000_0000_0000
  }

  /** String lengths, chunk sizes and expiries are 64-bit numbers. */
  predicate DbsPrintable(dbs: Dbs, k: nat) {
    && Printable(|dbs|) && Printable(2 + 2 * k)
    && forall i, key :: 0 <= i < |dbs| && key in dbs[i] ==> EntryPrintable(key, dbs[i][key])
  }

  lemma {:induction false} ConcatPrintable(items: seq<Argv>)
    requires forall i :: 0 <= i < |items| ==> ArgsPrintable(items[i])
    ensures ArgsPrintable(Concat(items))
  {
    if items != [] {
      ConcatPrintable(items[1..]);
    }
  }

  lemma {:induction false} ChunksReadable(srv: Server, name: Bytes, key: Bytes, items: seq<Argv>, k: nat, w: nat)
    requires k > 0 && srv.known(name) && Printable(|name|) && Printable(|key|) && Printable(2 + 2 * k)
    requires 1 <= w <= 2 && Width(items, w) && forall i :: 0 <= i < |items| ==> ArgsPrintable(items[i])
    ensures Readable(srv, Chunks(name, key, items, k))
    decreases |items|
  {
    hide Concat, Chunks;
    if items == [] {
      NoChunks(name, key, k);
    } else {
      var n := Min(k, |items|);
      ChunksCons(name, key, items, k);
      ConcatPrintable(items[..n]);
      ConcatWidth(items[..n], w);
      TimesTwo(n);
      var cmd := [name, key] + Concat(items[..n]);
      assert |cmd| <= 2 + 2 * k;
      assert PrintableCommand(cmd);
      ChunksReadable(srv, name, key, items[n..], k, w);
      var all := Chunks(name, key, items, k);
      assert all == [all[0]] + all[1..];
      ReadableConcat(srv, [cmd], all[1..]);
    }
  }

  lemma EntryReadable(srv: Server, key: Bytes, e: Entry, order: seq<Bytes>, k: nat)
    requires k > 0 && KnowsDumpNames(srv) && EntryPrintable(key, e) && OrderOf(e.value, order) && Printable(2 + 2 * k)
    ensures Readable(srv, ValueCommands(key, e.value, order, k) + ExpiryCommands(key, e.expiry))
  {
    hide Chunks;
    if e.expiry != NO_EXPIRY {
      ExpireAtReadable(srv, key, e.expiry);
    }
    assert forall i :: 0 <= i < |order| ==> order[i] in Elements(order);
    match e.value {
      case Str(text) =>
        assert PrintableCommand([SET, key, text]);
      case List(items) =>
        ChunksReadable(srv, RPUSH, key, Singles(items), k, 1);
      case Set(members) =>
        ChunksReadable(srv, SADD, key, Singles(order), k, 1);
      case Hash(fields) =>
        ChunksReadable(srv, HMSET, key, Fields(fields, order), k, 2);
    }
    ReadableConcat(srv, ValueCommands(key, e.value, order, k), ExpiryCommands(key, e.expiry));
  }

  // ---------------------------------------------------------------- the whole dataset

  function EmptyDbs(n: nat): Dbs {
    seq(n, _ => map[])
  }

  /** A database without its empty collections. */
  function Compact(db: Db): Db {
    map key | key in db && !IsEmptyCollection(db[key].value) :: db[key]
  }

  function CompactAll(dbs: Dbs): (r: Dbs)
    ensures |r| == |dbs|
  {
    seq(|dbs|, i requires 0 <= i < |dbs| => Compact(dbs[i]))
  }

  /** What is restored once databases before `j` and the keys `done` of database
      `j` are written. */
  function Restored(dbs: Dbs, j: nat, done: set<Bytes>): (r: Dbs)
    ensures |r| == |dbs|
  {
    seq(|dbs|, i requires 0 <= i < |dbs| =>
      if i < j then Compact(dbs[i])
      else if i == j then (map key | key in dbs[i] && key in done && !IsEmptyCollection(dbs[i][key].value) :: dbs[i][key])
      else map[])
  }

  lemma RestoredNext(dbs: Dbs, j: nat)
    requires j < |dbs|
    ensures Restored(dbs, j, dbs[j].Keys) == Restored(dbs, j + 1, {})
    ensures dbs[j] == map[] ==> Restored(dbs, j, {}) == Restored(dbs, j + 1, {})
  {
    assert Restored(dbs, j, dbs[j].Keys)[j] == Compact(dbs[j]);
    if dbs[j] == map[] {
      assert dbs[j].Keys == {};
    }
  }

  lemma RestoredKey(dbs: Dbs, j: nat, done: set<Bytes>, key: Bytes)
    requires j < |dbs| && key in dbs[j] && key !in done
    ensures key !in Restored(dbs, j, done)[j]
    ensures Restored(dbs, j, done)[j := Restore(Restored(dbs, j, done)[j], key, dbs[j][key])] == Restored(dbs, j, done + {key})
  {
    assert Restore(Restored(dbs, j, done)[j], key, dbs[j][key]) == Restored(dbs, j, done + {key})[j];
  }

  /** The output so far is the printed form of `cmds`, which take an empty server
      to `v`, and which the loader can read. */
  ghost predicate Written(srv: Server, dbs: Dbs, k: nat, out: Bytes, cmds: seq<Argv>, v: View) {
    && |dbs| > 0 && out == EncodeAll(cmds) && NoControl(cmds)
    && RunSeq(srv, View(EmptyDbs(|dbs|), 0), cmds) == v
    && (KnowsDumpNames(srv) && DbsPrintable(dbs, k) ==> Readable(srv, cmds))
  }

  ghost predicate RestoredUpTo(srv: Server, dbs: Dbs, k: nat, out: Bytes, next: nat, cur: nat) {
    exists cmds :: Written(srv, dbs, k, out, cmds, View(Restored(dbs, next, {}), cur))
  }

  lemma WriteMore(srv: Server, dbs: Dbs, k: nat, out: Bytes, cmds: seq<Argv>, v: View, more: seq<Argv>)
    requires Written(srv, dbs, k, out, cmds, v) && NoControl(more)
    requires KnowsDumpNames(srv) && DbsPrintable(dbs, k) ==> Readable(srv, more)
    ensures v.Valid() && Written(srv, dbs, k, out + EncodeAll(more), cmds + more, RunSeq(srv, v, more))
  {
    hide EncodeAll, KindOf, RunLogged, DbsPrintable, KnowsDumpNames, EmptyDbs;
    EncodeAllConcat(cmds, more);
    RunSeqConcat(srv, View(EmptyDbs(|dbs|), 0), cmds, more);
    NoControlConcat(cmds, more);
    if Readable(srv, cmds) && Readable(srv, more) { ReadableConcat(srv, cmds, more); }
  }

  /** SELECT, then every key of one database. */
  method RewriteDb(out: Bytes, dbs: Dbs, j: nat, k: nat, ghost srv: Server, ghost cmds: seq<Argv>, ghost cur: nat)
    returns (r: Bytes)
    requires k > 0 && j < |dbs| && cur < |dbs|
    requires Written(srv, dbs, k, out, cmds, View(Restored(dbs, j, {}), cur))
    ensures RestoredUpTo(srv, dbs, k, r, j + 1, j)
  {
    hide KindOf, RunLogged, ValueCommands, EncodeAll, EncodeCommand, Restored, Restore, RunSeq, SelectIfNeeded, Written, DbsPrintable, KnowsDumpNames;
    ghost var sel := SelectIfNeeded(-1, j);
    SelectSelects(srv, View(Restored(dbs, j, {}), cur), -1, j);
    SelectNoControl(-1, j);
    SelectBytes(j);
    SelectDump(srv, dbs, j, k);
    WriteMore(srv, dbs, k, out, cmds, View(Restored(dbs, j, {}), cur), sel);
    r := CatAppendOnlyGenericCommand(out, [SELECT, Decimal(j)]);
    ghost var all := cmds + sel;
    var left := dbs[j].Keys;
    assert dbs[j].Keys - left == {};
    while left != {}
      invariant left <= dbs[j].Keys
      invariant Written(srv, dbs, k, r, all, View(Restored(dbs, j, dbs[j].Keys - left), j))
      decreases |left|
    {
      var key :| key in left;
      ghost var done := dbs[j].Keys - left;
      ghost var before := r;
      r := RewriteEntry(r, key, dbs[j][key], k);
      ghost var order :| EntryPrinted(key, dbs[j][key], order, k, r[|before|..]);
      assert r == before + r[|before|..];
      ghost var entry := ValueCommands(key, dbs[j][key].value, order, k) + ExpiryCommands(key, dbs[j][key].expiry);
      RestoredKey(dbs, j, done, key);
      EntryRuns(srv, View(Restored(dbs, j, done), j), key, dbs[j][key], order, k);
      EntryDump(srv, dbs, j, key, order, k);
      WriteMore(srv, dbs, k, before, all, View(Restored(dbs, j, done), j), entry);
      all := all + entry;
      left := left - {key};
      assert dbs[j].Keys - left == done + {key};
    }
    assert dbs[j].Keys - left == dbs[j].Keys;
    RestoredNext(dbs, j);
  }

  lemma SelectDump(srv: Server, dbs: Dbs, j: nat, k: nat)
    requires j < |dbs|
    ensures KnowsDumpNames(srv) && DbsPrintable(dbs, k) ==> Readable(srv, SelectIfNeeded(-1, j))
  {
    if KnowsDumpNames(srv) && DbsPrintable(dbs, k) { SelectReadable(srv, -1, j, |dbs|); }
  }

  lemma EntryDump(srv: Server, dbs: Dbs, j: nat, key: Bytes, order: seq<Bytes>, k: nat)
    requires k > 0 && j < |dbs| && key in dbs[j] && OrderOf(dbs[j][key].value, order)
    ensures KnowsDumpNames(srv) && DbsPrintable(dbs, k) ==>
              Readable(srv, ValueCommands(key, dbs[j][key].value, order, k) + ExpiryCommands(key, dbs[j][key].expiry))
  {
    hide ValueCommands, Readable, EntryPrintable;
    if KnowsDumpNames(srv) && DbsPrintable(dbs, k) { EntryReadable(srv, key, dbs[j][key], order, k); }
  }

  /** The output is the printed form of `cmds`, which take an empty server to the
      databases, and which the loader can read. */
  ghost predicate DumpOf(srv: Server, dbs: Dbs, k: nat, out: Bytes, cmds: seq<Argv>) {
    && |dbs| > 0 && out == EncodeAll(cmds) && NoControl(cmds)
    && RunSeq(srv, View(EmptyDbs(|dbs|), 0), cmds).dbs == CompactAll(dbs)
    && (KnowsDumpNames(srv) && DbsPrintable(dbs, k) ==> Readable(srv, cmds))
  }

  /** The rewrite loop over databases and keys, in any iteration order. Replaying
      its output on an empty server restores every string, list, set, hash and
      expiry of every database; the loader can read all of it. */
  method RewriteAppendOnlyFileRio(dbs: Dbs, k: nat, ghost srv: Server) returns (out: Bytes)
    requires k > 0 && |dbs| > 0
    ensures exists cmds :: DumpOf(srv, dbs, k, out, cmds)
  {
    hide KindOf, RunLogged, EncodeAll, Restored, RunSeq, DbsPrintable;
    out := [];
    ghost var cmds: seq<Argv> := [];
    ghost var cur: nat := 0;
    StartRestored(srv, dbs);
    for j := 0 to |dbs|
      invariant cur < |dbs|
      invariant Written(srv, dbs, k, out, cmds, View(Restored(dbs, j, {}), cur))
    {
      if dbs[j] == map[] {
        RestoredNext(dbs, j);
        continue;
      }
      out := RewriteDb(out, dbs, j, k, srv, cmds, cur);
      ghost var next := j + 1;
      cmds :| Written(srv, dbs, k, out, cmds, View(Restored(dbs, next, {}), j));
      cur := j;
    }
    AllRestored(dbs);
    assert DumpOf(srv, dbs, k, out, cmds);
  }

  lemma SelectBytes(j: nat)
    ensures EncodeAll(SelectIfNeeded(-1, j)) == EncodeCommand([SELECT, Decimal(j)])
  {
    EncodeAllSingle([SELECT, Decimal(j)]);
  }

  lemma StartRestored(srv: Server, dbs: Dbs)
    requires |dbs| > 0
    ensures EncodeAll([]) == []
    ensures RunSeq(srv, View(EmptyDbs(|dbs|), 0), []) == View(Restored(dbs, 0, {}), 0)
  {
    assert EmptyDbs(|dbs|) == Restored(dbs, 0, {});
  }

  lemma AllRestored(dbs: Dbs)
    ensures Restored(dbs, |dbs|, {}) == CompactAll(dbs)
  {
  }
}
