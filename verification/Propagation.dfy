/** What the drain sends to the log and the replicas: pops and pushes which, run as
    ordinary commands, make of their copy of the keyspace what the drain made of it. */
module Propagation {
  import opened Basics
  import opened Blocking
  import opened ReadyKeys

  /** LPOP and RPOP delete a list they empty; LPUSH creates one. */
  function Apply(db: Keyspace, p: Propagated): Keyspace {
    match p
    case Pops(head, k) =>
      var items := ItemsOf(db, k);
      if items == [] then db
      else if |items| == 1 then db - {k}
      else db[k := ListObj(Rest(items, head))]
    case Pushes(k, v) => if Pushable(db, k) then db[k := ListObj([v] + ItemsOf(db, k))] else db
  }

  function ApplyAll(db: Keyspace, log: seq<Propagated>): Keyspace {
    if log == [] then db else Apply(ApplyAll(db, log[..|log| - 1]), log[|log| - 1])
  }

  lemma ApplyMore(db: Keyspace, log: seq<Propagated>, p: Propagated)
    ensures ApplyAll(db, log + [p]) == Apply(ApplyAll(db, log), p)
  {
    hide Apply;
    assert (log + [p])[..|log|] == log;
  }

  /** Without the lists the drain empties and deletes only when it leaves the key. */
  function Compact(db: Keyspace): Keyspace {
    map k | k in db && (db[k].ListObj? ==> db[k].items != []) :: db[k]
  }

  lemma CompactTidy(db: Keyspace)
    requires AllTidy(db)
    ensures Compact(db) == db
  {
  }

  lemma PopCompact(db: Keyspace, k: Key, head: bool)
    requires k in db && db[k].ListObj? && db[k].items != []
    ensures Apply(Compact(db), Pops(head, k)) == Compact(db[k := ListObj(Rest(db[k].items, head))])
  {
  }

  lemma PushCompact(db: Keyspace, k: Key, v: Value)
    requires Pushable(db, k)
    ensures Apply(Compact(db), Pushes(k, v)) == Compact(db[k := ListObj([v] + ItemsOf(db, k))])
  {
  }

  /** The commands that move an element pop from the tail. */
  predicate MovesFromTail(s: State) {
    forall c :: c in s.clients && s.clients[c].target.Some? ==> c !in s.blpop
  }

  /** A copy that started as `base` and ran what was propagated is the keyspace. */
  predicate InStep(base: Keyspace, s: State) {
    ApplyAll(base, s.log) == Compact(s.db) && MovesFromTail(s)
  }

  lemma SignalKeeps(s: State, k: Key)
    ensures Signal(s, k).db == s.db && Signal(s, k).log == s.log && Signal(s, k).clients == s.clients && Signal(s, k).blpop == s.blpop
  {
  }

  lemma GaveInStep(base: Keyspace, s: State, c: Id, k: Key, target: Option<Key>)
    requires InStep(base, s) && HasList(s, k) && s.db[k].items != [] && (target.Some? ==> c !in s.blpop)
    ensures InStep(base, Gave(s, c, k, target))
  {
    hide Compact, Apply, ApplyAll, Signal, Pushable;
    var head := c in s.blpop;
    var v := Popped(s.db[k].items, head);
    var popped := s.db[k := ListObj(Rest(s.db[k].items, head))];
    PopCompact(s.db, k, head);
    ApplyMore(base, s.log, Pops(head, k));
    match target
    case None =>
    case Some(dst) =>
      PushableStill(s.db, k, Rest(s.db[k].items, head), dst);
      SignalKeeps(s.(db := Served(s.db, k, head, target)), dst);
      if Pushable(s.db, dst) {
        PushCompact(popped, dst, v);
        ApplyMore(base, s.log + [Pops(false, k)], Pushes(dst, v));
        assert s.log + [Pops(false, k)] + [Pushes(dst, v)] == s.log + [Pops(false, k), Pushes(dst, v)];
      }
  }

  lemma PushableStill(db: Keyspace, k: Key, items: seq<Value>, dst: Key)
    requires k in db && db[k].ListObj?
    ensures Pushable(db[k := ListObj(items)], dst) == Pushable(db, dst)
  {
  }

  lemma TurnInStep(base: Keyspace, s: State, k: Key)
    requires Ok(s) && HasList(s, k) && k in s.w && (WaitsForList(s, k) ==> s.db[k].items != []) && InStep(base, s)
    ensures InStep(base, Turn(s, k))
  {
    hide ApplyAll, Compact, Gave, DroppedAll, Rotated;
    if WaitsForList(s, k) {
      var c := FirstWaiter(s, k);
      var u := s.(w := DroppedAll(s.w, c), clients := s.clients[c := Freed(s.clients[c])]);
      assert MovesFromTail(u);
      GaveInStep(base, u, c, k, s.clients[c].target);
    }
  }

  lemma {:induction false} ServeInStep(base: Keyspace, s: State, k: Key, n: nat)
    requires Ok(s) && HasList(s, k) && Tidy(s.db, k) && InStep(base, s)
    ensures InStep(base, Serve(s, k, n))
    decreases n
  {
    hide InStep, Ok, Turn, Tidy;
    if !(n == 0 || k !in s.w || (WaitsForList(s, k) && s.db[k].items == [])) {
      TurnOk(s, k);
      TurnInStep(base, s, k);
      ServeInStep(base, Turn(s, k), k, n - 1);
    }
  }

  lemma EmptiedCompact(s: State, k: Key)
    requires HasList(s, k)
    ensures Compact(Emptied(s, k).db) == Compact(s.db)
  {
  }

  lemma VisitInStep(base: Keyspace, s: State)
    requires Ok(s) && AllTidy(s.db) && s.queue != [] && InStep(base, s)
    ensures InStep(base, Visit(s))
  {
    hide ApplyAll, Compact, Ok, Serve;
    var k := s.queue[0];
    var u := s.(queue := s.queue[1..]);
    QueueOk(s);
    if HasList(u, k) {
      ServeInStep(base, u, k, |WaitersOf(u.w, k)|);
      ServeKeeps(u, k, |WaitersOf(u.w, k)|);
      EmptiedCompact(Serve(u, k, |WaitersOf(u.w, k)|), k);
    }
  }

  lemma {:induction false} DrainInStep(base: Keyspace, s: State)
    requires Ok(s) && AllTidy(s.db) && InStep(base, s)
    ensures InStep(base, Drain(s))
    decreases |BlockedAll(s.clients)|, |s.queue|
  {
    hide InStep, Ok, BlockedAll, Visit, AllTidy;
    if s.queue != [] {
      VisitKeeps(s);
      VisitInStep(base, s);
      DrainInStep(base, Visit(s));
    }
  }

  /** The drain is propagated faithfully: running what it propagated on the keyspace it
      started from gives the keyspace it ended with. */
  lemma DrainPropagates(s: State)
    requires Ok(s) && AllTidy(s.db) && MovesFromTail(s) && s.log == []
    ensures ApplyAll(s.db, Drain(s).log) == Drain(s).db
  {
    hide Ok, AllTidy, MovesFromTail, Drain;
    CompactTidy(s.db);
    DrainInStep(s.db, s);
    DrainFeeds(s);
    CompactTidy(Drain(s).db);
  }
}
