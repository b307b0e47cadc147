/** What the drain does for its clients, told without its functions: a drain is a
    sequence of deliveries, moves, refusals and silent steps; no element is lost or
    made, and each client that is freed gets exactly one reply. */
module Delivery {
  import opened Basics
  import opened Adlist
  import opened Blocking
  import opened ReadyKeys

  // ---------------------------------------------------------------- the steps

  /** The client waits first for `k`, a list that has elements. */
  predicate First(a: State, c: Id, k: Key) {
    && k in a.db && a.db[k].ListObj? && a.db[k].items != []
    && k in a.w && a.w[k] != [] && a.w[k][0] == c
    && c in a.clients && a.clients[c].kind.OnList?
  }

  /** The element a client gets: BLPOP the first of the list, the others the last. */
  function Due(a: State, c: Id, k: Key): Value
    requires First(a, c, k)
  {
    var items := a.db[k].items;
    if c in a.blpop then items[0] else items[|items| - 1]
  }

  /** The list without it. */
  function Others(a: State, c: Id, k: Key): seq<Value>
    requires First(a, c, k)
  {
    var items := a.db[k].items;
    if c in a.blpop then items[1..] else items[..|items| - 1]
  }

  /** The client, and nobody else, leaves all lists and is no longer blocked. */
  ghost predicate Leaves(a: State, b: State, c: Id) {
    && (forall j :: WaitersOf(b.w, j) == Drop(WaitersOf(a.w, j), c))
    && c in a.clients && b.clients == a.clients[c := Client(map[], NotBlocked, None)] && b.blpop == a.blpop
  }

  ghost predicate Delivers(a: State, b: State, c: Id, k: Key) {
    && First(a, c, k) && a.clients[c].target == None && Leaves(a, b, c)
    && b.db == a.db[k := ListObj(Others(a, c, k))]
    && b.replies == a.replies + [Element(c, k, Due(a, c, k))] && b.queue == a.queue
  }

  ghost predicate Moves(a: State, b: State, c: Id, k: Key, dst: Key) {
    && First(a, c, k) && a.clients[c].target == Some(dst) && Leaves(a, b, c)
    && (dst in a.db ==> a.db[dst].ListObj?)
    && (var rest := if dst == k then Others(a, c, k) else if dst in a.db then a.db[dst].items else [];
        b.db == a.db[k := ListObj(Others(a, c, k))][dst := ListObj([Due(a, c, k)] + rest)])
    && b.replies == a.replies + [Moved(c, Due(a, c, k))]
    && b.queue == if dst !in a.db && dst in b.w && dst !in a.queue then a.queue + [dst] else a.queue
  }

  ghost predicate Refuses(a: State, b: State, c: Id, k: Key, dst: Key) {
    && First(a, c, k) && a.clients[c].target == Some(dst) && Leaves(a, b, c)
    && dst in a.db && a.db[dst].OtherObj?
    && b.db == a.db && b.replies == a.replies + [WrongType(c)] && b.queue == a.queue
  }

  /** A waiter that wants no list goes last, a key leaves the queue, or an empty list
      is deleted. */
  ghost predicate Silent(a: State, b: State) {
    && b.replies == a.replies && b.clients == a.clients && b.blpop == a.blpop
    && (b.db == a.db || exists k :: k in a.db && a.db[k] == ListObj([]) && b.db == a.db - {k})
  }

  ghost predicate Step(a: State, b: State) {
    || Silent(a, b)
    || (exists c, k :: Delivers(a, b, c, k))
    || (exists c, k, dst :: Moves(a, b, c, k, dst))
    || (exists c, k, dst :: Refuses(a, b, c, k, dst))
  }

  ghost predicate Trace(run: seq<State>, s: State, t: State) {
    && |run| > 0 && run[0] == s && run[|run| - 1] == t
    && forall i, j :: 0 <= i < |run| && 0 <= j < |run| && j == i + 1 ==> Step(run[i], run[j])
  }

  lemma TraceJoin(x: seq<State>, y: seq<State>, s: State, u: State, t: State)
    requires Trace(x, s, u) && Trace(y, u, t)
    ensures Trace(x + y[1..], s, t)
  {
    hide Step;
    var z := x + y[1..];
    assert forall i :: |x| - 1 <= i < |z| ==> z[i] == y[i - |x| + 1];
    forall i, j | 0 <= i < |z| && 0 <= j < |z| && j == i + 1 ensures Step(z[i], z[j]) {
      if j < |x| {
        assert z[i] == x[i] && z[j] == x[j];
      } else {
        assert z[i] == y[i - |x| + 1] && z[j] == y[j - |x| + 1];
      }
    }
  }

  lemma TraceOne(s: State, t: State)
    requires Step(s, t)
    ensures Trace([s, t], s, t)
  {
    hide Step;
  }

  // ---------------------------------------------------------------- the drain takes them

  lemma FreedLeaves(s: State, t: State, c: Id)
    requires c in s.clients && t.w == DroppedAll(s.w, c) && t.clients == s.clients[c := Freed(s.clients[c])] && t.blpop == s.blpop
    ensures Leaves(s, t, c)
  {
    hide Drop;
    DropNone(c);
  }

  lemma DropNone(c: Id)
    ensures Drop([], c) == []
  {
  }

  lemma ServeOneSteps(s: State, k: Key)
    requires Ok(s) && HasList(s, k) && s.db[k].items != [] && k in s.w && WaitsForList(s, k)
    ensures Step(s, ServeOne(s, k))
  {
    hide DroppedAll, Ok, Leaves;
    var c := FirstWaiter(s, k);
    var t := ServeOne(s, k);
    assert First(s, c, k);
    FreedLeaves(s, t, c);
    match s.clients[c].target
    case None => assert Delivers(s, t, c, k);
    case Some(dst) =>
      if Pushable(s.db, dst) {
        MoveIs(s, t, c, k, dst);
      } else {
        assert Refuses(s, t, c, k, dst);
      }
  }

  lemma MoveIs(s: State, t: State, c: Id, k: Key, dst: Key)
    requires Ok(s) && First(s, c, k) && s.clients[c].target == Some(dst) && Pushable(s.db, dst)
    requires t == ServeOne(s, k) && Leaves(s, t, c)
    ensures Moves(s, t, c, k, dst)
  {
    hide Ok, Leaves, DroppedAll;
    var popped := s.db[k := ListObj(Others(s, c, k))];
    assert Popped(s.db[k].items, c in s.blpop) == Due(s, c, k) && Rest(s.db[k].items, c in s.blpop) == Others(s, c, k);
    assert Pushable(popped, dst);
    assert t.w == DroppedAll(s.w, c);
  }

  lemma TurnSteps(s: State, k: Key)
    requires Ok(s) && HasList(s, k) && k in s.w && (WaitsForList(s, k) ==> s.db[k].items != [])
    ensures Step(s, Turn(s, k))
  {
    hide Ok, ServeOne, Rotated, Delivers, Moves, Refuses;
    if WaitsForList(s, k) {
      ServeOneSteps(s, k);
    } else {
      assert Silent(s, Turn(s, k));
    }
  }

  lemma {:induction false} ServeTrace(s: State, k: Key, n: nat) returns (run: seq<State>)
    requires Ok(s) && HasList(s, k) && Tidy(s.db, k)
    ensures |run| > 0 && Trace(run, s, Serve(s, k, n))
    decreases n
  {
    hide Ok, Turn, Tidy, Step;
    if n == 0 || k !in s.w || (WaitsForList(s, k) && s.db[k].items == []) {
      run := [s];
    } else {
      TurnOk(s, k);
      var u := Turn(s, k);
      TurnSteps(s, k);
      TraceOne(s, u);
      var rest := ServeTrace(u, k, n - 1);
      TraceJoin([s, u], rest, s, u, Serve(u, k, n - 1));
      run := [s, u] + rest[1..];
    }
  }

  lemma EmptiedStep(s: State, k: Key)
    requires HasList(s, k)
    ensures Step(s, Emptied(s, k))
  {
    hide Delivers, Moves, Refuses;
    assert Silent(s, Emptied(s, k));
  }

  lemma QueueStep(s: State, t: State)
    requires t == s.(queue := t.queue)
    ensures Step(s, t)
  {
    hide Delivers, Moves, Refuses;
    assert Silent(s, t);
  }

  lemma VisitTrace(s: State) returns (run: seq<State>)
    requires Ok(s) && AllTidy(s.db) && s.queue != []
    ensures Trace(run, s, Visit(s))
  {
    hide Ok, Serve, Step, Trace;
    var k := s.queue[0];
    var u := s.(queue := s.queue[1..]);
    QueueOk(s);
    QueueStep(s, u);
    TraceOne(s, u);
    run := [s, u];
    if HasList(u, k) {
      var n := |WaitersOf(u.w, k)|;
      var served := ServeTrace(u, k, n);
      ServeKeeps(u, k, n);
      var r := Serve(u, k, n);
      TraceJoin(run, served, s, u, r);
      EmptiedStep(r, k);
      TraceOne(r, Emptied(r, k));
      TraceJoin(run + served[1..], [r, Emptied(r, k)], s, r, Emptied(r, k));
      run := run + served[1..] + [r, Emptied(r, k)][1..];
    }
  }

  /** A drain is a sequence of deliveries, moves, refusals and silent steps. */
  lemma {:induction false} DrainTrace(s: State) returns (run: seq<State>)
    requires Ok(s) && AllTidy(s.db)
    ensures Trace(run, s, Drain(s))
    decreases |BlockedAll(s.clients)|, |s.queue|
  {
    hide Ok, AllTidy, Visit, BlockedAll, Step;
    if s.queue == [] {
      run := [s];
    } else {
      VisitKeeps(s);
      var first := VisitTrace(s);
      var rest := DrainTrace(Visit(s));
      TraceJoin(first, rest, s, Visit(s), Drain(Visit(s)));
      run := first + rest[1..];
    }
  }

  // ---------------------------------------------------------------- nothing lost

  ghost function Pick(db: Keyspace): Key
    requires db != map[]
    ensures Pick(db) in db
  {
    var k :| k in db;
    k
  }

  /** All elements of all lists. */
  ghost function Total(db: Keyspace): multiset<Value>
    decreases |db|
  {
    if db == map[] then multiset{} else Elems(db, Pick(db)) + Total(db - {Pick(db)})
  }

  lemma {:induction false} TotalSplit(db: Keyspace, k: Key)
    requires k in db
    ensures Total(db) == Elems(db, k) + Total(db - {k})
    decreases |db|
  {
    hide Elems;
    var z := Pick(db);
    if k != z {
      TotalSplit(db - {z}, k);
      TotalSplit(db - {k}, z);
      ElemsElsewhere(db, z, k);
      ElemsElsewhere(db, k, z);
      assert (db - {z}) - {k} == (db - {k}) - {z};
    }
  }

  lemma ElemsElsewhere(db: Keyspace, k: Key, j: Key)
    requires j != k
    ensures Elems(db - {k}, j) == Elems(db, j)
  {
  }

  lemma TotalSet(db: Keyspace, k: Key, items: seq<Value>)
    ensures Total(db[k := ListObj(items)]) == multiset(items) + Total(db - {k})
  {
    var t := db[k := ListObj(items)];
    TotalSplit(t, k);
    assert t - {k} == db - {k};
  }

  lemma TotalHere(db: Keyspace, k: Key)
    ensures Total(db) == Elems(db, k) + Total(db - {k})
  {
    if k in db {
      TotalSplit(db, k);
    } else {
      assert db - {k} == db;
    }
  }

  /** The elements handed to clients. */
  function Delivered(replies: seq<Reply>): multiset<Value> {
    if replies == [] then multiset{}
    else
      var last := replies[|replies| - 1];
      Delivered(replies[..|replies| - 1]) + if last.Element? then multiset{last.value} else multiset{}
  }

  lemma DeliveredMore(replies: seq<Reply>, r: Reply)
    ensures Delivered(replies + [r]) == Delivered(replies) + if r.Element? then multiset{r.value} else multiset{}
  {
    assert (replies + [r])[..|replies|] == replies;
  }

  lemma DueSplits(a: State, c: Id, k: Key)
    requires First(a, c, k)
    ensures multiset(a.db[k].items) == multiset(Others(a, c, k)) + multiset{Due(a, c, k)}
  {
    var items := a.db[k].items;
    assert items == [items[0]] + items[1..] == items[..|items| - 1] + [items[|items| - 1]];
  }

  lemma DeliverConserves(a: State, b: State, c: Id, k: Key)
    requires Delivers(a, b, c, k)
    ensures Total(b.db) + Delivered(b.replies) == Total(a.db) + Delivered(a.replies)
  {
    hide Total, Delivered, Leaves;
    DueSplits(a, c, k);
    TotalHere(a.db, k);
    TotalSet(a.db, k, Others(a, c, k));
    DeliveredMore(a.replies, Element(c, k, Due(a, c, k)));
  }

  lemma MoveIsPush(a: State, b: State, c: Id, k: Key, dst: Key)
    requires Moves(a, b, c, k, dst)
    ensures var popped := a.db[k := ListObj(Others(a, c, k))];
            b.db == popped[dst := ListObj([Due(a, c, k)] + ItemsOf(popped, dst))]
  {
    hide Leaves, Due, Others;
  }

  lemma PushTotal(db: Keyspace, dst: Key, v: Value)
    ensures Total(db[dst := ListObj([v] + ItemsOf(db, dst))]) == Total(db) + multiset{v}
  {
    hide Total;
    TotalHere(db, dst);
    TotalSet(db, dst, [v] + ItemsOf(db, dst));
    PushAdds(v, ItemsOf(db, dst));
  }

  lemma PopTotal(a: State, c: Id, k: Key)
    requires First(a, c, k)
    ensures Total(a.db) == Total(a.db[k := ListObj(Others(a, c, k))]) + multiset{Due(a, c, k)}
  {
    hide Total, Due, Others;
    DueSplits(a, c, k);
    TotalHere(a.db, k);
    TotalSet(a.db, k, Others(a, c, k));
  }

  lemma MoveConserves(a: State, b: State, c: Id, k: Key, dst: Key)
    requires Moves(a, b, c, k, dst)
    ensures Total(b.db) + Delivered(b.replies) == Total(a.db) + Delivered(a.replies)
  {
    hide Total, Delivered, Leaves, Due, Others, ItemsOf;
    PopTotal(a, c, k);
    MoveIsPush(a, b, c, k, dst);
    PushTotal(a.db[k := ListObj(Others(a, c, k))], dst, Due(a, c, k));
    DeliveredMore(a.replies, Moved(c, Due(a, c, k)));
  }

  lemma SilentConserves(a: State, b: State)
    requires Silent(a, b)
    ensures Total(b.db) == Total(a.db)
  {
    hide Total;
    if b.db != a.db {
      var k :| k in a.db && a.db[k] == ListObj([]) && b.db == a.db - {k};
      TotalHere(a.db, k);
      assert ItemsOf(a.db, k) == [];
    }
  }

  lemma StepConserves(a: State, b: State)
    requires Step(a, b)
    ensures Total(b.db) + Delivered(b.replies) == Total(a.db) + Delivered(a.replies)
  {
    hide Total, Delivered, Delivers, Moves;
    if c, k :| Delivers(a, b, c, k) {
      DeliverConserves(a, b, c, k);
    } else if c, k, dst :| Moves(a, b, c, k, dst) {
      MoveConserves(a, b, c, k, dst);
    } else if c, k, dst :| Refuses(a, b, c, k, dst) {
      DeliveredMore(a.replies, WrongType(c));
    } else {
      assert Silent(a, b);
      SilentConserves(a, b);
    }
  }

  lemma {:induction false} TraceConserves(run: seq<State>, s: State, t: State)
    requires Trace(run, s, t)
    ensures Total(t.db) + Delivered(t.replies) == Total(s.db) + Delivered(s.replies)
    decreases |run|
  {
    hide Step, Total, Delivered;
    if |run| > 1 {
      var n := |run| - 1;
      assert Trace(run[..n], s, run[n - 1]);
      TraceConserves(run[..n], s, run[n - 1]);
      assert Step(run[n - 1], run[n]);
      StepConserves(run[n - 1], run[n]);
    }
  }

  /** No element is lost or made: what the lists held before a drain is what they hold
      after it and what it handed to clients. */
  lemma DrainConserves(s: State)
    requires Ok(s) && AllTidy(s.db)
    ensures Total(Drain(s).db) + Delivered(Drain(s).replies) == Total(s.db) + Delivered(s.replies)
  {
    hide Ok, AllTidy, Drain, Total, Delivered, Trace;
    var run := DrainTrace(s);
    TraceConserves(run, s, Drain(s));
  }

  // ---------------------------------------------------------------- one reply each

  /** How many replies went to `c`. */
  function To(replies: seq<Reply>, c: Id): nat {
    if replies == [] then 0
    else To(replies[..|replies| - 1], c) + if replies[|replies| - 1].to == c then 1 else 0
  }

  lemma ToMore(replies: seq<Reply>, r: Reply, c: Id)
    ensures To(replies + [r], c) == To(replies, c) + if r.to == c then 1 else 0
  {
    assert (replies + [r])[..|replies|] == replies;
  }

  predicate IsBlocked(s: State, c: Id) {
    c in s.clients && !s.clients[c].kind.NotBlocked?
  }

  /** Replies were only added; a client that was freed got one, any other none; and
      nobody was blocked. */
  predicate Answered(s: State, t: State, c: Id) {
    && s.replies <= t.replies && (IsBlocked(t, c) ==> IsBlocked(s, c))
    && To(t.replies, c) == To(s.replies, c) + if IsBlocked(s, c) && !IsBlocked(t, c) then 1 else 0
  }

  lemma StepAnswers(a: State, b: State, d: Id)
    requires Step(a, b)
    ensures Answered(a, b, d)
  {
    hide To;
    if c, k :| Delivers(a, b, c, k) {
      ToMore(a.replies, Element(c, k, Due(a, c, k)), d);
    } else if c, k, dst :| Moves(a, b, c, k, dst) {
      ToMore(a.replies, Moved(c, Due(a, c, k)), d);
    } else if c, k, dst :| Refuses(a, b, c, k, dst) {
      ToMore(a.replies, WrongType(c), d);
    }
  }

  lemma {:induction false} TraceAnswers(run: seq<State>, s: State, t: State, c: Id)
    requires Trace(run, s, t)
    ensures Answered(s, t, c)
    decreases |run|
  {
    hide Step, To;
    if |run| > 1 {
      var n := |run| - 1;
      assert Trace(run[..n], s, run[n - 1]);
      TraceAnswers(run[..n], s, run[n - 1], c);
      assert Step(run[n - 1], run[n]);
      StepAnswers(run[n - 1], run[n], c);
    }
  }

  /** Each client a drain frees gets exactly one reply, and nobody else gets any. */
  lemma DrainAnswers(s: State, c: Id)
    requires Ok(s) && AllTidy(s.db)
    ensures Answered(s, Drain(s), c)
  {
    hide Ok, AllTidy, Drain, Trace, Answered;
    var run := DrainTrace(s);
    TraceAnswers(run, s, Drain(s), c);
  }
}
