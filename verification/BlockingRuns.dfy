/** Everything that happens around blocked clients as one state machine: clients block
    and leave, keys come, change and go, ready keys are drained. In exactly which runs
    no list client is left waiting for a list that has elements. */
module BlockingRuns {
  import opened Basics
  import opened Adlist
  import opened Blocking
  import opened ReadyKeys

  datatype Step =
    | Blocks(c: Id, kind: Kind, keys: seq<Key>, target: Option<Key>, head: bool)
    | Unblocks(c: Id)                // served elsewhere, timed out, or gone
    | Adds(k: Key, o: Obj)           // a key that did not exist
    | Overwrites(k: Key, o: Obj)     // one that did gets another value
    | Deletes(k: Key)
    | Drains

  /** A value that is kept: no empty list is. */
  predicate Kept(o: Obj) { o.ListObj? ==> o.items != [] }

  /** A list command blocks only if none of its keys exists: a list would be popped at
      once, and a value of another type is an error. */
  predicate MayBlock(s: State, kind: Kind, keys: seq<Key>) {
    WaitsForKeys(kind) && keys != [] && (kind.OnList? ==> forall k :: k in keys ==> k !in s.db)
  }

  /** The client joined the waiters of the keys. */
  ghost predicate BlocksFor(s: State, t: State, c: Id, kind: Kind, keys: seq<Key>, target: Option<Key>, head: bool) {
    && c in s.clients && s.clients[c].kind.NotBlocked? && MayBlock(s, kind, keys) && (head ==> target.None?)
    && Joined(s.w, t.w, Elements(keys), c) && (forall k :: k in t.w ==> t.w[k] != [])
    && c in t.clients && t.clients == s.clients[c := Client(t.clients[c].keys, kind, target)]
    && t == s.(w := t.w, clients := t.clients, blpop := if head then s.blpop + {c} else s.blpop - {c})
  }

  ghost predicate Next(s: State, t: State, step: Step) {
    match step
    case Blocks(c, kind, keys, target, head) => BlocksFor(s, t, c, kind, keys, target, head)
    case Unblocks(c) =>
      && c in s.clients && !s.clients[c].kind.NotBlocked?
      && t == s.(w := DroppedAll(s.w, c), clients := s.clients[c := Freed(s.clients[c])])
    case Adds(k, o) =>
      // a list always announces itself; of the other types only a sorted set does
      && k !in s.db && Kept(o)
      && (t == Signal(s.(db := s.db[k := o]), k) || (o.OtherObj? && t == s.(db := s.db[k := o])))
    case Overwrites(k, o) => k in s.db && Kept(o) && t == s.(db := s.db[k := o])
    case Deletes(k) => t == s.(db := s.db - {k})
    case Drains => Ok(s) && AllTidy(s.db) && t == Drain(s)
  }

  /** Every list that has elements and is awaited by a list client is queued. */
  ghost predicate Fed(s: State) {
    forall k :: Hungry(s, k) ==> k in s.queue
  }

  /** A value of another type, awaited as a list and not queued, is not replaced by a
      list. Replacing a value does not announce the key, adding one does. */
  predicate Careful(s: State, step: Step) {
    step.Overwrites? && step.o.ListObj? && step.k in s.db && s.db[step.k].OtherObj? && ListWaiter(s, step.k) ==>
      step.k in s.queue
  }

  ghost predicate NoneHungry(s: State) {
    forall k :: !Hungry(s, k)
  }

  ghost predicate Sound(s: State) { Ok(s) && AllTidy(s.db) }

  // ---------------------------------------------------------------- one step

  lemma WaiterBlocked(s: State, k: Key, c: Id)
    requires Ok(s) && c in WaitersOf(s.w, k)
    ensures c in s.clients && !s.clients[c].kind.NotBlocked?
  {
  }

  lemma BlockKeepsOk(s: State, t: State, c: Id, kind: Kind, keys: seq<Key>, target: Option<Key>, head: bool)
    requires Ok(s) && BlocksFor(s, t, c, kind, keys, target, head)
    ensures Ok(t)
  {
    forall k | k in t.w ensures Distinct(t.w[k]) && c !in WaitersOf(s.w, k) {
      if c in WaitersOf(s.w, k) { WaiterBlocked(s, k, c); }
      assert t.w[k] == WaitersOf(t.w, k) == WaitersOf(s.w, k) + if k in Elements(keys) then [c] else [];
    }
    forall k, i | k in t.w && 0 <= i < |t.w[k]| ensures t.w[k][i] in t.clients && !t.clients[t.w[k][i]].kind.NotBlocked? {
      assert t.w[k] == WaitersOf(t.w, k) == WaitersOf(s.w, k) + if k in Elements(keys) then [c] else [];
      if i < |WaitersOf(s.w, k)| { WaiterBlocked(s, k, t.w[k][i]); }
    }
  }

  /** A new waiter makes no list hungry: the keys it waits for are not there, and the
      other waiters are those of before. */
  lemma BlockKeepsFed(s: State, t: State, c: Id, kind: Kind, keys: seq<Key>, target: Option<Key>, head: bool)
    requires Ok(s) && Fed(s) && BlocksFor(s, t, c, kind, keys, target, head)
    ensures Fed(t)
  {
    forall k | Hungry(t, k) ensures k in t.queue {
      var d :| d in WaitersOf(t.w, k) && d in t.clients && t.clients[d].kind.OnList?;
      assert WaitersOf(t.w, k) == WaitersOf(s.w, k) + if k in Elements(keys) then [c] else [];
      if d == c {
        if c in WaitersOf(s.w, k) { WaiterBlocked(s, k, c); }
      } else {
        assert d in WaitersOf(s.w, k);
        assert ListWaiter(s, k);
      }
    }
  }

  lemma UnblockKeeps(s: State, t: State, c: Id)
    requires Ok(s) && Fed(s) && Next(s, t, Unblocks(c))
    ensures Ok(t) && Fed(t)
  {
    DropOk(s, c, Freed(s.clients[c]));
    forall k | Hungry(t, k) ensures k in t.queue {
      FewerWaiters(s, t, c, Freed(s.clients[c]), k);
    }
  }

  /** Writing one key can only make that key hungry. */
  lemma WriteHunger(s: State, t: State, k: Key)
    requires t.w == s.w && t.clients == s.clients
    requires forall j :: j != k ==> ItemsOf(t.db, j) == ItemsOf(s.db, j)
    ensures forall j :: j != k ==> (Hungry(t, j) <==> Hungry(s, j))
    ensures ListWaiter(t, k) == ListWaiter(s, k)
  {
  }

  lemma AddKeeps(s: State, t: State, k: Key, o: Obj)
    requires Sound(s) && Fed(s) && Next(s, t, Adds(k, o))
    ensures Sound(t) && Fed(t)
  {
    var u := s.(db := s.db[k := o]);
    SignalOk(u, k) by { SameOk(s, u); }
    SameOk(s, u);
    WriteHunger(s, t, k);
    if Hungry(t, k) {
      assert ListWaiter(s, k);
      assert k in s.w;
    }
  }

  /** An overwritten key leaves every hungry list queued exactly when it was careful. */
  lemma OverwriteKeepsIff(s: State, t: State, k: Key, o: Obj)
    requires Sound(s) && Fed(s) && Next(s, t, Overwrites(k, o))
    ensures Sound(t) && (Fed(t) <==> Careful(s, Overwrites(k, o)))
  {
    SameOk(s, t);
    WriteHunger(s, t, k);
    assert ListWaiter(t, k) && o.ListObj? ==> Hungry(t, k);
    if s.db[k].ListObj? && ListWaiter(s, k) {
      assert Hungry(s, k);
    }
  }

  lemma DeleteKeeps(s: State, t: State, k: Key)
    requires Sound(s) && Fed(s) && Next(s, t, Deletes(k))
    ensures Sound(t) && Fed(t)
  {
    SameOk(s, t);
    WriteHunger(s, t, k);
  }

  /** Draining a fed state leaves no list hungry. */
  lemma DrainLeavesNone(s: State)
    requires Sound(s) && Fed(s)
    ensures Sound(Drain(s)) && Drain(s).queue == [] && NoneHungry(Drain(s))
  {
    hide Ok, Hungry, AllTidy, Drain;
    DrainFeeds(s);
  }

  /** From a state in which every hungry list is queued, a step leads to such a state
      if and only if it is careful. */
  lemma NextFedIff(s: State, t: State, step: Step)
    requires Sound(s) && Fed(s) && Next(s, t, step)
    ensures Sound(t) && (Fed(t) <==> Careful(s, step))
  {
    hide Ok, Hungry, AllTidy, Drain, Joined, DroppedAll, Signal;
    match step
    case Blocks(c, kind, keys, target, head) =>
      BlockKeepsOk(s, t, c, kind, keys, target, head);
      BlockKeepsFed(s, t, c, kind, keys, target, head);
    case Unblocks(c) => UnblockKeeps(s, t, c);
    case Adds(k, o) => AddKeeps(s, t, k, o);
    case Overwrites(k, o) => OverwriteKeepsIff(s, t, k, o);
    case Deletes(k) => DeleteKeeps(s, t, k);
    case Drains => DrainLeavesNone(s);
  }

  // ---------------------------------------------------------------- all runs

  predicate Initial(s: State) {
    && s.w == map[] && s.queue == [] && AllTidy(s.db)
    && forall c :: c in s.clients ==> s.clients[c].kind.NotBlocked?
  }

  ghost predicate IsRun(run: seq<State>, steps: seq<Step>) {
    && |run| == |steps| + 1 && Initial(run[0])
    && forall i :: 0 <= i < |steps| ==> Next(run[i], run[i + 1], steps[i])
  }

  predicate CarefulUpTo(run: seq<State>, steps: seq<Step>, k: nat)
    requires |run| == |steps| + 1 && k <= |steps|
  {
    forall i :: 0 <= i < k ==> Careful(run[i], steps[i])
  }

  lemma InitialFed(s: State)
    requires Initial(s)
    ensures Sound(s) && Fed(s)
  {
  }

  /** No waiter is forgotten, exactly: up to state `k` of a run every list that has
      elements and is awaited by a list client is queued for serving if and only if
      every step up to there is careful. */
  lemma {:induction false} AllFedIffCareful(run: seq<State>, steps: seq<Step>, k: nat)
    requires IsRun(run, steps) && k < |run|
    ensures (forall i :: 0 <= i <= k ==> Fed(run[i])) <==> CarefulUpTo(run, steps, k)
    ensures CarefulUpTo(run, steps, k) ==> Sound(run[k])
    decreases k
  {
    hide Next, Fed, Sound, Careful;
    if k == 0 {
      InitialFed(run[0]);
    } else {
      AllFedIffCareful(run, steps, k - 1);
      assert Next(run[k - 1], run[k - 1 + 1], steps[k - 1]);
      if CarefulUpTo(run, steps, k - 1) {
        assert Fed(run[k - 1]);
        NextFedIff(run[k - 1], run[k], steps[k - 1]);
      }
    }
  }

  /** So after every drain of a careful run nobody waits for a list that has elements. */
  lemma NobodyStarves(run: seq<State>, steps: seq<Step>, i: nat)
    requires IsRun(run, steps) && i < |steps| && steps[i].Drains? && CarefulUpTo(run, steps, i)
    ensures run[i + 1].queue == [] && NoneHungry(run[i + 1])
  {
    hide Fed, Sound, Careful, Hungry, Drain;
    AllFedIffCareful(run, steps, i);
    assert Next(run[i], run[i + 1], steps[i]);
    DrainLeavesNone(run[i]);
  }

  /** The careless step is possible: a client waits for a key, a command stores a
      string there, another replaces it by a list; the drain passes the list over. */
  lemma ForgottenWaiter(node: ListNode<Id>, k: Key, v: Value) returns (run: seq<State>, steps: seq<Step>)
    ensures IsRun(run, steps) && |run| == |steps| + 1 && run[|steps|].queue == [] && Hungry(run[|steps|], k)
  {
    hide Next, Hungry, IsRun;
    var free, waits := Client(map[], NotBlocked, None), Client(map[k := node], OnList, None);
    var s0 := State(map[], map[], map[1 := free], {}, [], [], []);
    var s1 := s0.(w := map[k := [1]], clients := map[1 := waits], blpop := {1});
    var s2 := s1.(db := map[k := OtherObj]);
    var s3 := s1.(db := map[k := ListObj([v])]);
    var a, b := Blocks(1, OnList, [k], None, true), Adds(k, OtherObj);
    var c, d := Overwrites(k, ListObj([v])), Drains;
    FirstBlocks(s0, s1, node, k);
    ThenReplaced(s1, s2, s3, k, v);
    LeftHungry(s3, k, v);
    FourSteps(s0, s1, s2, s3, s3, a, b, c, d);
    run, steps := [s0, s1, s2, s3, s3], [a, b, c, d];
  }

  lemma FourSteps(s0: State, s1: State, s2: State, s3: State, s4: State, a: Step, b: Step, c: Step, d: Step)
    requires Initial(s0) && Next(s0, s1, a) && Next(s1, s2, b) && Next(s2, s3, c) && Next(s3, s4, d)
    ensures IsRun([s0, s1, s2, s3, s4], [a, b, c, d])
  {
    hide Next;
  }

  lemma FirstBlocks(s: State, t: State, node: ListNode<Id>, k: Key)
    requires s == State(map[], map[], map[1 := Client(map[], NotBlocked, None)], {}, [], [], [])
    requires t == s.(w := map[k := [1]], clients := map[1 := Client(map[k := node], OnList, None)], blpop := {1})
    ensures Next(s, t, Blocks(1, OnList, [k], None, true))
  {
    ElementsAre([k]);
    assert Joined(s.w, t.w, Elements([k]), 1);
    assert s.clients[1 := t.clients[1]] == t.clients && {} + {1} == t.blpop;
  }

  lemma ThenReplaced(s: State, t: State, u: State, k: Key, v: Value)
    requires s.db == map[] && t == s.(db := map[k := OtherObj]) && u == s.(db := map[k := ListObj([v])])
    ensures Next(s, t, Adds(k, OtherObj)) && Next(t, u, Overwrites(k, ListObj([v])))
  {
    assert t.db[k := ListObj([v])] == u.db;
  }

  lemma LeftHungry(s: State, k: Key, v: Value)
    requires s.w == map[k := [1]] && 1 in s.clients && s.clients[1].kind.OnList? && s.queue == []
    requires s.db == map[k := ListObj([v])]
    ensures Next(s, s, Drains) && Hungry(s, k)
  {
    assert Distinct([1]) && Ok(s);
    assert 1 in WaitersOf(s.w, k) && ListWaiter(s, k);
  }
}
