/** Serving clients blocked on lists: keys that got data are queued as ready; the drain
    pops their elements for the waiting clients, in order. Serving a client may push
    to another list, which may make that key ready in turn. */
module ReadyKeys {
  import opened Basics
  import opened Adlist
  import opened Blocking

  type Value = seq<char>

  datatype Obj = ListObj(items: seq<Value>) | OtherObj

  type Keyspace = map<Key, Obj>

  datatype Reply = Element(to: Id, key: Key, value: Value) | Moved(to: Id, value: Value) | WrongType(to: Id)

  /** A command sent to the log and the replicas. */
  datatype Propagated = Pops(head: bool, key: Key) | Pushes(key: Key, value: Value)

  // ---------------------------------------------------------------- one client

  function Popped(items: seq<Value>, head: bool): Value
    requires items != []
  {
    if head then items[0] else items[|items| - 1]
  }

  function Rest(items: seq<Value>, head: bool): seq<Value>
    requires items != []
  {
    if head then items[1..] else items[..|items| - 1]
  }

  predicate Pushable(db: Keyspace, dst: Key) {
    dst in db ==> db[dst].ListObj?
  }

  function ItemsOf(db: Keyspace, k: Key): seq<Value> {
    if k in db && db[k].ListObj? then db[k].items else []
  }

  /** The keyspace after serving one client from the list at `k`: its element is gone,
      or has become the first of the target list; a target of another type leaves
      everything as it was. */
  function Served(db: Keyspace, k: Key, head: bool, target: Option<Key>): Keyspace
    requires k in db && db[k].ListObj? && db[k].items != []
  {
    var items := db[k].items;
    var popped := db[k := ListObj(Rest(items, head))];
    match target
    case None => popped
    case Some(dst) =>
      if Pushable(popped, dst) then popped[dst := ListObj([Popped(items, head)] + ItemsOf(popped, dst))] else db
  }

  predicate AllTidy(db: Keyspace) {
    forall j :: j in db && db[j].ListObj? ==> db[j].items != []
  }

  /** No empty list is kept, except for `k`. */
  predicate Tidy(db: Keyspace, k: Key) {
    forall j :: j in db && j != k && db[j].ListObj? ==> db[j].items != []
  }

  lemma PopSplits(items: seq<Value>, head: bool)
    requires items != []
    ensures multiset(items) == multiset(Rest(items, head)) + multiset{Popped(items, head)}
  {
    if head {
      assert items == [items[0]] + items[1..];
    } else {
      assert items == items[..|items| - 1] + [items[|items| - 1]];
    }
  }

  function Elems(db: Keyspace, k: Key): multiset<Value> {
    multiset(ItemsOf(db, k))
  }

  ghost predicate SameElsewhere(db: Keyspace, r: Keyspace, k: Key, dst: Key) {
    forall j :: j != k && j != dst ==> (j in r <==> j in db) && (j in r ==> r[j] == db[j])
  }

  /** Serving loses and makes no element: without a target it goes to the client. */
  lemma ServedToClient(db: Keyspace, k: Key, head: bool)
    requires k in db && db[k].ListObj? && db[k].items != []
    ensures var r := Served(db, k, head, None);
            && Elems(db, k) == Elems(r, k) + multiset{Popped(db[k].items, head)}
            && SameElsewhere(db, r, k, k)
  {
    PopSplits(db[k].items, head);
  }

  /** With one, it goes to the target list. */
  lemma ServedToList(db: Keyspace, k: Key, head: bool, dst: Key)
    requires k in db && db[k].ListObj? && db[k].items != [] && dst != k && Pushable(db, dst)
    ensures var r, v := Served(db, k, head, Some(dst)), multiset{Popped(db[k].items, head)};
            && Elems(db, k) == Elems(r, k) + v && Elems(r, dst) == Elems(db, dst) + v
            && SameElsewhere(db, r, k, dst)
  {
    hide Popped, Rest;
    var items := db[k].items;
    PopSplits(items, head);
    PushAdds(Popped(items, head), ItemsOf(db, dst));
    var r := Served(db, k, head, Some(dst));
    assert ItemsOf(r, k) == Rest(items, head);
    assert ItemsOf(r, dst) == [Popped(items, head)] + ItemsOf(db, dst);
  }

  /** Or back where it came from: to the same list, or for want of a list to push to. */
  lemma ServedBack(db: Keyspace, k: Key, head: bool, dst: Key)
    requires k in db && db[k].ListObj? && db[k].items != [] && (dst == k || !Pushable(db, dst))
    ensures var r := Served(db, k, head, Some(dst)); Elems(r, k) == Elems(db, k) && SameElsewhere(db, r, k, k)
  {
    hide Popped, Rest;
    var items := db[k].items;
    if dst == k {
      PopSplits(items, head);
      PushAdds(Popped(items, head), Rest(items, head));
      assert ItemsOf(Served(db, k, head, Some(dst)), k) == [Popped(items, head)] + Rest(items, head);
    }
  }

  lemma PushAdds(v: Value, items: seq<Value>)
    ensures multiset([v] + items) == multiset(items) + multiset{v}
  {
  }

  // ---------------------------------------------------------------- the drain on values

  datatype State = State(
    db: Keyspace, w: Waiters, clients: map<Id, Client>,
    blpop: set<Id>,          // clients whose command pops from the head
    queue: seq<Key>,         // ready keys
    replies: seq<Reply>,
    log: seq<Propagated>)    // what was propagated

  predicate ListWaiter(s: State, k: Key) {
    exists c :: c in WaitersOf(s.w, k) && c in s.clients && s.clients[c].kind.OnList?
  }

  /** A list that is not empty and still awaited by a list client. */
  predicate Hungry(s: State, k: Key) {
    ItemsOf(s.db, k) != [] && ListWaiter(s, k)
  }

  function Signal(s: State, k: Key): State {
    if k in s.w && k !in s.queue then s.(queue := s.queue + [k]) else s
  }

  /** What the waiters look like: no empty list, nobody twice, everybody blocked. */
  predicate Ok(s: State) {
    && (forall k :: k in s.w ==> s.w[k] != [] && Distinct(s.w[k]))
    && (forall k, i :: k in s.w && 0 <= i < |s.w[k]| ==> s.w[k][i] in s.clients && !s.clients[s.w[k][i]].kind.NotBlocked?)
    && Distinct(s.queue)
  }

  predicate HasList(s: State, k: Key) { k in s.db && s.db[k].ListObj? }

  function Freed(x: Client): Client { x.(keys := map[], target := None, kind := NotBlocked) }

  /** One element of the list at `k` given to `c`. */
  function Gave(s: State, c: Id, k: Key, target: Option<Key>): State
    requires HasList(s, k) && s.db[k].items != []
  {
    var v := Popped(s.db[k].items, c in s.blpop);
    var t := s.(db := Served(s.db, k, c in s.blpop, target));
    match target
    case None => t.(replies := t.replies + [Element(c, k, v)], log := t.log + [Pops(c in s.blpop, k)])
    case Some(dst) =>
      if !Pushable(s.db, dst) then t.(replies := t.replies + [WrongType(c)])
      else
        var u := if dst in s.db then t else Signal(t, dst);
        u.(replies := t.replies + [Moved(c, v)], log := t.log + [Pops(false, k), Pushes(dst, v)])
  }

  /** The second half of serving a client that has a target: `items` are what the list
      at `k` held before the element was popped. */
  function Pushed(u: State, c: Id, k: Key, items: seq<Value>, head: bool, dst: Key): State
    requires items != []
  {
    var v := Popped(items, head);
    if !Pushable(u.db, dst) then u.(db := u.db[k := ListObj(items)], replies := u.replies + [WrongType(c)])
    else
      var t := u.(db := u.db[dst := ListObj([v] + ItemsOf(u.db, dst))]);
      (if dst in u.db then t else Signal(t, dst))
      .(replies := u.replies + [Moved(c, v)], log := u.log + [Pops(false, k), Pushes(dst, v)])
  }

  lemma PushedIsGave(s: State, u: State, c: Id, k: Key, dst: Key)
    requires HasList(s, k) && s.db[k].items != []
    requires u == s.(db := s.db[k := ListObj(Rest(s.db[k].items, c in s.blpop))])
    ensures Pushed(u, c, k, s.db[k].items, c in s.blpop, dst) == Gave(s, c, k, Some(dst))
  {
    hide Popped, Rest, Signal;
    assert u.db[k := ListObj(s.db[k].items)] == s.db;
  }

  /** The first waiter takes one element and leaves. */
  function ServeOne(s: State, k: Key): State
    requires Ok(s) && HasList(s, k) && s.db[k].items != [] && k in s.w
  {
    var c := s.w[k][0];
    Gave(s.(w := DroppedAll(s.w, c), clients := s.clients[c := Freed(s.clients[c])]), c, k, s.clients[c].target)
  }

  predicate WaitsForList(s: State, k: Key)
    requires Ok(s) && k in s.w
  {
    s.clients[s.w[k][0]].kind.OnList?
  }

  /** The first waiter is served, or goes to the tail if it does not wait for a list. */
  function Turn(s: State, k: Key): State
    requires Ok(s) && HasList(s, k) && k in s.w && (WaitsForList(s, k) ==> s.db[k].items != [])
  {
    if WaitsForList(s, k) then ServeOne(s, k) else s.(w := Rotated(s.w, k))
  }

  // ---------------------------------------------------------------- one turn

  lemma DropFirst(s: State, k: Key)
    requires Ok(s) && k in s.w
    ensures var c := s.w[k][0];
            && WaitersOf(DroppedAll(s.w, c), k) == s.w[k][1..]
            && (forall j :: WaitersOf(DroppedAll(s.w, c), j) == Drop(WaitersOf(s.w, j), c))
  {
    DropIsWithout(s.w[k], s.w[k][0], 0);
    assert Without(s.w[k], 0) == s.w[k][1..];
  }

  lemma {:induction false} DropDistinct(s: seq<Id>, c: Id)
    requires Distinct(s)
    ensures Distinct(Drop(s, c))
    decreases |s|
  {
    if s != [] {
      DropDistinct(s[1..], c);
      DropKeeps(s[1..], c);
      assert s[0] !in s[1..];
      assert s[0] !in Drop(s[1..], c);
    }
  }

  /** Dropping a freed client everywhere keeps the waiters in order. */
  lemma DropOk(s: State, c: Id, x: Client)
    requires Ok(s) && c in s.clients
    ensures Ok(s.(w := DroppedAll(s.w, c), clients := s.clients[c := x]))
  {
    var t := s.(w := DroppedAll(s.w, c), clients := s.clients[c := x]);
    forall k | k in t.w ensures Distinct(t.w[k]) {
      DropDistinct(s.w[k], c);
    }
    forall k, i | k in t.w && 0 <= i < |t.w[k]|
      ensures t.w[k][i] in t.clients && !t.clients[t.w[k][i]].kind.NotBlocked?
    {
      DropKeeps(s.w[k], c);
      assert t.w[k][i] in t.w[k];
      assert t.w[k][i] != c && t.w[k][i] in s.w[k];
    }
  }

  lemma SignalOk(s: State, k: Key)
    requires Ok(s)
    ensures Ok(Signal(s, k)) && s.queue <= Signal(s, k).queue
  {
  }

  /** What one served client means: the waiters stay in order, one client fewer is
      blocked, and a key that newly has elements for a list client is queued. */
  lemma ServeOneEffect(s: State, k: Key)
    requires Ok(s) && HasList(s, k) && s.db[k].items != [] && k in s.w && Tidy(s.db, k) && WaitsForList(s, k)
    ensures var t := ServeOne(s, k);
            && Ok(t) && HasList(t, k) && Tidy(t.db, k) && s.queue <= t.queue && t.blpop == s.blpop
            && WaitersOf(t.w, k) == s.w[k][1..]
            && t.clients == s.clients[s.w[k][0] := Freed(s.clients[s.w[k][0]])]
            && |BlockedAll(t.clients)| < |BlockedAll(s.clients)|
            && forall j :: j != k && Hungry(t, j) ==> Hungry(s, j) || j in t.queue
  {
    hide Served, DroppedAll, Ok, Hungry, BlockedAll;
    var c := FirstWaiter(s, k);
    var x := Freed(s.clients[c]);
    DropFirst(s, k);
    DropOk(s, c, x);
    KindChanges(s.clients, c, x, OnList);
    FirstBlocked(s, c);
    ServedEffects(s.db, k, c in s.blpop, s.clients[c].target);
    var t := ServeOne(s, k);
    var u := s.(w := DroppedAll(s.w, c), clients := s.clients[c := x], db := t.db, replies := t.replies, log := t.log);
    SameOk(s.(w := u.w, clients := u.clients), u);
    if s.clients[c].target.Some? {
      SignalOk(u, s.clients[c].target.value);
      assert t == u || t == Signal(u, s.clients[c].target.value);
    } else {
      assert t == u;
    }
    forall j | j != k && Hungry(t, j) ensures Hungry(s, j) || j in t.queue {
      HungryBefore(s, t, k, c, x, j);
    }
  }

  lemma FirstWaiter(s: State, k: Key) returns (c: Id)
    requires Ok(s) && k in s.w
    ensures s.w[k] != [] && c == s.w[k][0] && c in s.clients && !s.clients[c].kind.NotBlocked? && Distinct(s.w[k])
  {
    c := s.w[k][0];
  }

  lemma FirstBlocked(s: State, c: Id)
    requires c in s.clients && !s.clients[c].kind.NotBlocked?
    ensures c in BlockedAll(s.clients)
  {
  }

  lemma SameOk(s: State, t: State)
    requires Ok(s) && t.w == s.w && t.clients == s.clients && t.queue == s.queue
    ensures Ok(t)
  {
  }

  lemma ServedEffects(db: Keyspace, k: Key, head: bool, target: Option<Key>)
    requires k in db && db[k].ListObj? && db[k].items != [] && Tidy(db, k)
    ensures var r := Served(db, k, head, target);
            && k in r && r[k].ListObj? && Tidy(r, k)
            && forall j :: j != k && ItemsOf(r, j) != [] ==> ItemsOf(db, j) != [] || (j !in db && target == Some(j))
  {
  }

  lemma FewerWaiters(s: State, t: State, c: Id, x: Client, j: Key)
    requires t.w == DroppedAll(s.w, c) && t.clients == s.clients[c := x] && ListWaiter(t, j)
    ensures ListWaiter(s, j) && j in t.w
  {
    if j in s.w {
      DropKeeps(s.w[j], c);
    }
  }

  lemma HungryBefore(s: State, t: State, k: Key, c: Id, x: Client, j: Key)
    requires Ok(s) && HasList(s, k) && s.db[k].items != [] && k in s.w && Tidy(s.db, k)
    requires s.w[k] != [] && c == s.w[k][0] && c in s.clients && x == Freed(s.clients[c]) && t == ServeOne(s, k)
    requires j != k && Hungry(t, j)
    ensures Hungry(s, j) || j in t.queue
  {
    hide Served, DroppedAll, Ok, ListWaiter, Tidy;
    ServedEffects(s.db, k, c in s.blpop, s.clients[c].target);
    FewerWaiters(s, t, c, x, j);
  }

  lemma RotateEffect(s: State, k: Key)
    requires Ok(s) && k in s.w && !WaitsForList(s, k)
    ensures var t := s.(w := Rotated(s.w, k));
            && Ok(t) && WaitersOf(t.w, k) == s.w[k][1..] + [s.w[k][0]]
            && forall j :: j != k ==> (Hungry(t, j) <==> Hungry(s, j))
  {
    var v := s.w[k];
    var r := v[1..] + [v[0]];
    assert |v| == 1 ==> v == r;
    assert forall i :: 0 <= i < |r| ==> r[i] == v[if i + 1 < |v| then i + 1 else 0];
    assert forall j :: j != k ==> WaitersOf(Rotated(s.w, k), j) == WaitersOf(s.w, j);
  }

  // ---------------------------------------------------------------- one key

  /** The serving loop with `n` waiters still to look at: it ends early when there is
      nothing to pop. */
  function Serve(s: State, k: Key, n: nat): State
    requires Ok(s) && HasList(s, k) && Tidy(s.db, k)
    decreases n
  {
    if n == 0 || k !in s.w || (WaitsForList(s, k) && s.db[k].items == []) then s
    else
      TurnOk(s, k);
      Serve(Turn(s, k), k, n - 1)
  }

  lemma TurnOk(s: State, k: Key)
    requires Ok(s) && HasList(s, k) && k in s.w && (WaitsForList(s, k) ==> s.db[k].items != []) && Tidy(s.db, k)
    ensures var t := Turn(s, k); Ok(t) && HasList(t, k) && Tidy(t.db, k)
  {
    hide Ok, ServeOne, Rotated, Hungry;
    if WaitsForList(s, k) {
      ServeOneEffect(s, k);
    } else {
      RotateEffect(s, k);
    }
  }

  /** The queue only grows, and only when a client was freed. */
  predicate Progress(s: State, t: State) {
    && s.queue <= t.queue && |BlockedAll(t.clients)| <= |BlockedAll(s.clients)|
    && (|BlockedAll(t.clients)| == |BlockedAll(s.clients)| ==> t.queue == s.queue)
  }

  ghost predicate NoNewHunger(s: State, t: State, k: Key) {
    forall j :: j != k && Hungry(t, j) ==> Hungry(s, j) || j in t.queue
  }

  lemma {:induction false} ServeKeeps(s: State, k: Key, n: nat)
    requires Ok(s) && HasList(s, k) && Tidy(s.db, k)
    ensures var t := Serve(s, k, n);
            Ok(t) && HasList(t, k) && Tidy(t.db, k) && Progress(s, t) && NoNewHunger(s, t, k)
    decreases n
  {
    hide Ok, ServeOne, Rotated, Hungry, BlockedAll;
    if !(n == 0 || k !in s.w || (WaitsForList(s, k) && s.db[k].items == [])) {
      TurnOk(s, k);
      var u := Turn(s, k);
      if WaitsForList(s, k) {
        ServeOneEffect(s, k);
      } else {
        RotateEffect(s, k);
      }
      ServeKeeps(u, k, n - 1);
      var t := Serve(u, k, n - 1);
      forall j | j != k && Hungry(t, j) ensures Hungry(s, j) || j in t.queue {
        assert Hungry(u, j) || j in t.queue;
      }
    }
  }

  /** Those that do not wait for a list, in order. */
  function Passed(clients: map<Id, Client>, s: seq<Id>): seq<Id> {
    if s == [] then []
    else (if s[0] in clients && clients[s[0]].kind.OnList? then [] else [s[0]]) + Passed(clients, s[1..])
  }

  lemma {:induction false} PassedSame(clients: map<Id, Client>, clients2: map<Id, Client>, s: seq<Id>)
    requires forall i :: 0 <= i < |s| ==> s[i] in clients && s[i] in clients2 && clients[s[i]] == clients2[s[i]]
    ensures Passed(clients, s) == Passed(clients2, s)
    decreases |s|
  {
    if s != [] {
      PassedSame(clients, clients2, s[1..]);
    }
  }

  /** Each waiter is looked at, in order and at most once: the first `m` are gone or,
      if they do not wait for a list, last; the others are untouched, and there are
      some only if the list ran empty. */
  lemma {:induction false} ServeVisits(s: State, k: Key, n: nat) returns (m: nat)
    requires Ok(s) && HasList(s, k) && Tidy(s.db, k) && n <= |WaitersOf(s.w, k)|
    ensures m <= n
    ensures var t, v := Serve(s, k, n), WaitersOf(s.w, k);
            && WaitersOf(t.w, k) == v[m..] + Passed(s.clients, v[..m])
            && (m < n ==> ItemsOf(t.db, k) == [])
            && (forall i :: m <= i < |v| ==> v[i] in t.clients && v[i] in s.clients && t.clients[v[i]] == s.clients[v[i]])
    decreases n
  {
    hide Ok, Turn, Tidy, Distinct, Passed;
    var v := WaitersOf(s.w, k);
    if n == 0 || k !in s.w || (WaitsForList(s, k) && s.db[k].items == []) {
      VisitStart(s, k);
      m := 0;
      assert v[0..] + [] == v && Passed(s.clients, v[..0]) == [] by { PassedNone(s.clients, v); }
    } else {
      TurnOk(s, k);
      TurnSees(s, k);
      var u := Turn(s, k);
      var m1 := ServeVisits(u, k, n - 1);
      m := m1 + 1;
      VisitNext(s.clients, u.clients, v, WaitersOf(u.w, k), m1);
      forall i | m <= i < |v| ensures v[i] in Serve(s, k, n).clients && Serve(s, k, n).clients[v[i]] == s.clients[v[i]] {
        assert WaitersOf(u.w, k)[i - 1] == v[i];
      }
    }
  }

  lemma PassedNone(clients: map<Id, Client>, v: seq<Id>)
    ensures Passed(clients, v[..0]) == []
  {
  }

  /** A turn looks at the first waiter only. */
  lemma TurnSees(s: State, k: Key)
    requires Ok(s) && HasList(s, k) && k in s.w && (WaitsForList(s, k) ==> s.db[k].items != []) && Tidy(s.db, k)
    ensures var u, v := Turn(s, k), s.w[k];
            && v != [] && (forall i :: 0 <= i < |v| ==> v[i] in s.clients)
            && WaitersOf(u.w, k) == v[1..] + (if s.clients[v[0]].kind.OnList? then [] else [v[0]])
            && forall i :: 1 <= i < |v| ==> v[i] in u.clients && u.clients[v[i]] == s.clients[v[i]]
  {
    hide Ok, ServeOne, Rotated, Hungry, BlockedAll, Tidy;
    VisitStart(s, k);
    assert WaitersOf(s.w, k) == s.w[k];
    assert forall i :: 0 <= i < |s.w[k]| ==> WaitersOf(s.w, k)[i] in s.clients;
    if WaitsForList(s, k) {
      ServeOneEffect(s, k);
      assert forall i :: 1 <= i < |s.w[k]| ==> s.w[k][i] != s.w[k][0];
    } else {
      RotateEffect(s, k);
    }
  }

  lemma VisitNext(clients: map<Id, Client>, clients2: map<Id, Client>, v: seq<Id>, u: seq<Id>, m: nat)
    requires v != [] && m < |v| && (forall i :: 0 <= i < |v| ==> v[i] in clients)
    requires forall i :: 1 <= i < |v| ==> v[i] in clients2 && clients2[v[i]] == clients[v[i]]
    requires u == v[1..] + if clients[v[0]].kind.OnList? then [] else [v[0]]
    ensures m <= |u| && u[m..] + Passed(clients2, u[..m]) == v[m + 1..] + Passed(clients, v[..m + 1])
  {
    var p: seq<Id> := if clients[v[0]].kind.OnList? then [] else [v[0]];
    assert u[..m] == v[..m + 1][1..];
    assert u[m..] == v[m + 1..] + p;
    PassedSame(clients, clients2, u[..m]);
    assert Passed(clients, v[..m + 1]) == p + Passed(clients, v[..m + 1][1..]);
    assert (v[m + 1..] + p) + Passed(clients, u[..m]) == v[m + 1..] + (p + Passed(clients, u[..m]));
  }

  lemma VisitStart(s: State, k: Key)
    requires Ok(s)
    ensures k in s.w ==> s.w[k] != [] && Distinct(s.w[k])
    ensures forall i :: 0 <= i < |WaitersOf(s.w, k)| ==> WaitersOf(s.w, k)[i] in s.clients
  {
  }

  /** After all waiters were looked at, the list is empty or no list client waits. */
  lemma ServeEnds(s: State, k: Key)
    requires Ok(s) && HasList(s, k) && Tidy(s.db, k)
    ensures !Hungry(Serve(s, k, |WaitersOf(s.w, k)|), k)
  {
    hide Ok, Serve, Tidy;
    var v := WaitersOf(s.w, k);
    var t := Serve(s, k, |v|);
    var m := ServeVisits(s, k, |v|);
    if m == |v| {
      assert v[m..] == [] && v[..m] == v;
      assert WaitersOf(t.w, k) == [] + Passed(s.clients, v) == Passed(s.clients, v);
      PassedKinds(s.clients, v);
      NotServed(s, k);
    }
  }

  lemma {:induction false} PassedKinds(clients: map<Id, Client>, s: seq<Id>)
    ensures forall c :: c in Passed(clients, s) ==> c in s && !(c in clients && clients[c].kind.OnList?)
    decreases |s|
  {
    if s != [] {
      PassedKinds(clients, s[1..]);
    }
  }

  /** Clients that do not wait for a list are left as they are. */
  lemma {:induction false} OthersUntouched(s: State, k: Key, n: nat, c: Id)
    requires Ok(s) && HasList(s, k) && Tidy(s.db, k) && c in s.clients && !s.clients[c].kind.OnList?
    ensures c in Serve(s, k, n).clients && Serve(s, k, n).clients[c] == s.clients[c]
    decreases n
  {
    hide Ok, ServeOne, Rotated, Hungry, BlockedAll, Tidy;
    if !(n == 0 || k !in s.w || (WaitsForList(s, k) && s.db[k].items == [])) {
      TurnOk(s, k);
      if WaitsForList(s, k) {
        ServeOneEffect(s, k);
      }
      OthersUntouched(Turn(s, k), k, n - 1, c);
    }
  }

  lemma NotServed(s: State, k: Key)
    requires Ok(s) && HasList(s, k) && Tidy(s.db, k)
    requires forall c :: c in WaitersOf(Serve(s, k, |WaitersOf(s.w, k)|).w, k) ==> c in WaitersOf(s.w, k) && !(c in s.clients && s.clients[c].kind.OnList?)
    ensures !ListWaiter(Serve(s, k, |WaitersOf(s.w, k)|), k)
  {
    hide Ok, Serve, Tidy;
    var t := Serve(s, k, |WaitersOf(s.w, k)|);
    VisitStart(s, k);
    forall c | c in WaitersOf(t.w, k) ensures c in t.clients && !t.clients[c].kind.OnList? {
      assert c in s.clients;
      OthersUntouched(s, k, |WaitersOf(s.w, k)|, c);
    }
  }

  // ---------------------------------------------------------------- the whole drain

  function Emptied(s: State, k: Key): State {
    if ItemsOf(s.db, k) == [] then s.(db := s.db - {k}) else s
  }

  /** The first ready key is taken off the queue and, if it is a list, served; an empty
      list is deleted. */
  function Visit(s: State): State
    requires Ok(s) && AllTidy(s.db) && s.queue != []
  {
    var k := s.queue[0];
    var u := s.(queue := s.queue[1..]);
    QueueOk(s);
    if HasList(u, k) then Emptied(Serve(u, k, |WaitersOf(u.w, k)|), k) else u
  }

  lemma QueueOk(s: State)
    requires Ok(s) && s.queue != []
    ensures Ok(s.(queue := s.queue[1..])) && s.queue[0] !in s.queue[1..]
  {
  }

  lemma VisitKeeps(s: State)
    requires Ok(s) && AllTidy(s.db) && s.queue != []
    ensures var t := Visit(s);
            && Ok(t) && AllTidy(t.db) && !Hungry(t, s.queue[0]) && NoNewHunger(s, t, s.queue[0])
            && s.queue[1..] <= t.queue
            && |BlockedAll(t.clients)| <= |BlockedAll(s.clients)|
            && (|BlockedAll(t.clients)| == |BlockedAll(s.clients)| ==> |t.queue| < |s.queue|)
  {
    hide Ok, BlockedAll, Serve, ListWaiter;
    var k := s.queue[0];
    var u := s.(queue := s.queue[1..]);
    QueueOk(s);
    assert forall j :: Hungry(u, j) <==> Hungry(s, j) by { SameHunger(s, u); }
    if HasList(u, k) {
      var r := Serve(u, k, |WaitersOf(u.w, k)|);
      ServeKeeps(u, k, |WaitersOf(u.w, k)|);
      ServeEnds(u, k);
      var t := Emptied(r, k);
      SameOk(r, t);
      assert forall j :: Hungry(t, j) ==> Hungry(r, j) by { LessHunger(r, t, k); }
    }
  }

  lemma SameHunger(s: State, u: State)
    requires u.db == s.db && u.w == s.w && u.clients == s.clients
    ensures forall j :: Hungry(u, j) <==> Hungry(s, j)
  {
  }

  lemma LessHunger(r: State, t: State, k: Key)
    requires t == Emptied(r, k)
    ensures forall j :: Hungry(t, j) ==> Hungry(r, j)
  {
  }

  /** Visits until the queue is empty. Each one lowers the number of blocked clients or,
      leaving that alone, the length of the queue. */
  function Drain(s: State): State
    requires Ok(s) && AllTidy(s.db)
    decreases |BlockedAll(s.clients)|, |s.queue|
  {
    if s.queue == [] then s
    else
      VisitKeeps(s);
      Drain(Visit(s))
  }

  /** What the drain is for: afterwards nothing is queued, and a list that has elements
      and is still awaited by a list client was one before, and was not queued. */
  lemma {:induction false} DrainFeeds(s: State)
    requires Ok(s) && AllTidy(s.db)
    ensures var t := Drain(s);
            && Ok(t) && AllTidy(t.db) && t.queue == []
            && forall k :: Hungry(t, k) ==> Hungry(s, k) && k !in s.queue
    decreases |BlockedAll(s.clients)|, |s.queue|
  {
    hide Ok, BlockedAll, Visit, Hungry, AllTidy;
    if s.queue != [] {
      VisitKeeps(s);
      var u := Visit(s);
      DrainFeeds(u);
      forall k | Hungry(Drain(u), k) ensures Hungry(s, k) && k !in s.queue {
        assert Hungry(u, k) && k !in u.queue;
        assert k != s.queue[0];
        assert s.queue == [s.queue[0]] + s.queue[1..];
      }
    }
  }

  // ---------------------------------------------------------------- the server

  class Server {
    const index: Db
    var db: Keyspace
    var ready: seq<Key>          // the queue
    var marked: set<Key>         // the keys queued, for quick lookup
    var blpop: set<Id>
    var replies: seq<Reply>
    var log: seq<Propagated>

    constructor (index: Db, db: Keyspace)
      ensures this.index == index && this.db == db && ready == [] && marked == {} && blpop == {} && replies == [] && log == []
    {
      this.index, this.db := index, db;
      ready, marked, blpop, replies, log := [], {}, {}, [], [];
    }

    /** The state while the keys `l` of the former queue are still to be visited. */
    ghost function St(l: seq<Key>): State
      reads this, index
    {
      State(db, index.Abs(), index.clients, blpop, l + ready, replies, log)
    }

    ghost predicate Valid(l: seq<Key>)
      reads this, index, index.repr
    {
      index.Valid() && this !in index.repr && marked == Elements(l + ready) && Distinct(l + ready)
    }

    /** Queues the key if somebody waits for it and it is not queued. */
    method SignalKeyAsReady(k: Key, ghost l: seq<Key>)
      requires Valid(l)
      modifies this`ready, this`marked
      ensures Valid(l) && St(l) == Signal(old(St(l)), k)
    {
      hide Db.Valid, AllValues, Values, Distinct, Elements;
      index.Listed(k);
      MarkedIff(l + ready, k);
      if k !in index.blockingKeys { return; }
      if k in marked { return; }
      OneMoreKey(l + ready, k);
      assert l + (ready + [k]) == (l + ready) + [k];
      ready := ready + [k];
      marked := marked + {k};
    }

    /** Pushes an element popped from the list at `k`, which held `items`, to the target
        list; a target of another type sends it back. */
    method PushPopped(c: Id, k: Key, items: seq<Value>, head: bool, dst: Key, ghost l: seq<Key>)
      requires Valid(l) && items != [] && HasList(St(l), k) && db[k].items == Rest(items, head)
      modifies this`db, this`ready, this`marked, this`replies, this`log
      ensures Valid(l) && St(l) == Pushed(old(St(l)), c, k, items, head, dst)
    {
      hide Db.Valid, Distinct, Elements, AllValues, Popped, Rest;
      var value := Popped(items, head);
      if dst !in db {
        db := db[dst := ListObj([])];
        SignalKeyAsReady(dst, l);
      }
      if db[dst].ListObj? {
        log := log + [Pops(false, k)] + [Pushes(dst, value)];
        assert log == old(log) + [Pops(false, k), Pushes(dst, value)];
        db := db[dst := ListObj([value] + db[dst].items)];
        replies := replies + [Moved(c, value)];
      } else {
        replies := replies + [WrongType(c)];
        PutBack(items, head);
        db := db[k := ListObj(if head then [value] + db[k].items else db[k].items + [value])];
      }
    }

    /** Serves a client that was taken off the index one element of the list at `k`. */
    method ServeClientBlockedOnList(c: Id, k: Key, target: Option<Key>, ghost l: seq<Key>)
      requires Valid(l) && HasList(St(l), k) && db[k].items != []
      modifies this`db, this`ready, this`marked, this`replies, this`log
      ensures Valid(l) && St(l) == Gave(old(St(l)), c, k, target)
    {
      hide Db.Valid, Distinct, Elements, AllValues, Signal, Popped, Rest;
      var head := c in blpop;
      var items := db[k].items;
      db := db[k := ListObj(Rest(items, head))];
      if target.None? {
        log := log + [Pops(head, k)];
        replies := replies + [Element(c, k, Popped(items, head))];
        return;
      }
      ghost var u := St(l);
      PushPopped(c, k, items, head, target.value, l);
      PushedIsGave(old(St(l)), u, c, k, target.value);
    }

    /** One turn: the first waiter is served and leaves, or goes to the tail. */
    method ServeFirst(k: Key, ghost l: seq<Key>) returns (empty: bool)
      requires Valid(l) && Ok(St(l)) && HasList(St(l), k) && k in index.blockingKeys && k in index.Abs()
      modifies this`db, this`ready, this`marked, this`replies, this`log, index, index.repr
      ensures index.repr == old(index.repr)
      ensures Valid(l) && empty == (WaitsForList(old(St(l)), k) && old(db)[k].items == [])
      ensures St(l) == if empty then old(St(l)) else Turn(old(St(l)), k)
    {
      hide DroppedAll, Rotated, Gave, Db.Valid, AllValues, Values, Distinct, Elements, Ok;
      ghost var s := St(l);
      ghost var c := FirstWaiter(s, k);
      var receiver := index.First(k);
      empty := false;
      if !index.clients[receiver].kind.OnList? {
        index.RotateHeadToTail(k);
        return;
      }
      if db[k].items == [] {
        return true;
      }
      var target := index.clients[receiver].target;
      index.UnblockClient(receiver);
      ServeClientBlockedOnList(receiver, k, target, l);
    }

    /** The waiters of a list key, each looked at once; an empty list is deleted. */
    method ServeListKey(k: Key, ghost l: seq<Key>)
      requires Valid(l) && Ok(St(l)) && HasList(St(l), k) && Tidy(db, k)
      modifies this`db, this`ready, this`marked, this`replies, this`log, index, index.repr
      ensures index.repr == old(index.repr)
      ensures Valid(l) && St(l) == Emptied(Serve(old(St(l)), k, |WaitersOf(old(index.Abs()), k)|), k)
    {
      hide Db.Valid, AllValues, Values, Distinct, Elements, Ok, Turn, Tidy, WaitersOf, WaitsForList;
      ghost var s := St(l);
      var left: nat := index.Length(k);
      ghost var n := left;
      while left != 0
        invariant Valid(l) && index.repr == old(index.repr) && Ok(St(l)) && HasList(St(l), k) && Tidy(db, k)
        invariant Serve(s, k, n) == Serve(St(l), k, left)
        invariant left <= |WaitersOf(index.Abs(), k)|
        decreases left
      {
        StillListed(index.Abs(), k);
        index.Listed(k);
        ghost var u := St(l);
        TurnCounts(u, k);
        var empty := ServeFirst(k, l);
        if empty {
          left := 0;
          break;
        }
        TurnOk(u, k);
        left := left - 1;
      }
      if db[k].items == [] {
        db := db - {k};
      }
    }

    /** The drain. */
    method HandleClientsBlockedOnKeys()
      requires Valid([]) && AllTidy(db)
      modifies this`db, this`ready, this`marked, this`replies, this`log, index, index.repr
      ensures index.repr == old(index.repr)
      ensures Ok(old(St([]))) && Valid([]) && ready == [] && St([]) == Drain(old(St([])))
    {
      hide Db.Valid, IndexOk, KeysOk, Distinct, Elements, Ok, AllTidy, Visit, BlockedAll, AllValues;
      ghost var s := St([]);
      index.Means();
      IndexMeansOk(index.lists, index.clients, s);
      while |ready| != 0
        invariant Valid([]) && index.repr == old(index.repr) && Ok(St([])) && AllTidy(db)
        invariant Drain(s) == Drain(St([]))
        decreases |BlockedAll(index.clients)|, |ready|
      {
        var l := ready;
        ready := [];
        label started:
        assert l + ready == [] + l;
        while |l| != 0
          invariant Valid(l) && index.repr == old(index.repr) && Ok(St(l)) && AllTidy(db)
          invariant Drain(s) == Drain(St(l))
          invariant |BlockedAll(index.clients)| <= |BlockedAll(old@started(index.clients))|
          invariant |BlockedAll(index.clients)| == |BlockedAll(old@started(index.clients))| ==> ready == []
          decreases |BlockedAll(index.clients)|, |l| + |ready|
        {
          ghost var u := St(l);
          VisitKeeps(u);
          ServeReady(l);
          l := l[1..];
        }
        assert l + ready == [] + ready;
      }
    }

    /** One ready key. */
    method ServeReady(l: seq<Key>)
      requires l != [] && Valid(l) && Ok(St(l)) && AllTidy(db)
      modifies this`db, this`ready, this`marked, this`replies, this`log, index, index.repr
      ensures index.repr == old(index.repr)
      ensures Valid(l[1..]) && St(l[1..]) == Visit(old(St(l)))
    {
      hide Db.Valid, IndexOk, KeysOk, Distinct, Elements, Ok, Serve;
      var k := l[0];
      ghost var s := St(l);
      QueueOk(s);
      TakeFirst(l, ready, k);
      marked := marked - {k};
      assert s.queue[1..] == l[1..] + ready;
      if k in db && db[k].ListObj? {
        ServeListKey(k, l[1..]);
      }
    }
  }

  /** The blocking index gives well-formed waiters. */
  lemma IndexMeansOk(lists: NodeLists, clients: map<Id, Client>, s: State)
    requires IndexOk(lists, clients) && KeysOk(clients)
    requires s.w == AllValues(lists) && s.clients == clients && Distinct(s.queue)
    ensures Ok(s)
  {
    forall k | k in s.w ensures Distinct(s.w[k]) {
      WaitsOnce(lists, clients, k);
    }
    forall k, i | k in s.w && 0 <= i < |s.w[k]| ensures s.w[k][i] in s.clients && !s.clients[s.w[k][i]].kind.NotBlocked? {
      var n := lists[k][i];
      assert k in clients[n.value].keys;
    }
  }

  lemma StillListed(w: Waiters, k: Key)
    requires WaitersOf(w, k) != []
    ensures k in w
  {
  }

  /** A turn leaves at most one waiter fewer. */
  lemma TurnCounts(s: State, k: Key)
    requires Ok(s) && HasList(s, k) && k in s.w && Tidy(s.db, k)
    ensures !(WaitsForList(s, k) && s.db[k].items == []) ==> |WaitersOf(Turn(s, k).w, k)| >= |WaitersOf(s.w, k)| - 1
  {
    hide Ok, ServeOne, Rotated, Hungry, BlockedAll, Tidy;
    if WaitsForList(s, k) {
      if s.db[k].items != [] {
        ServeOneEffect(s, k);
      }
    } else {
      RotateEffect(s, k);
    }
  }

  lemma TakeFirst(l: seq<Key>, ready: seq<Key>, k: Key)
    requires l != [] && k == l[0] && Distinct(l + ready)
    ensures Distinct(l[1..] + ready) && Elements(l + ready) - {k} == Elements(l[1..] + ready)
  {
    var s, t := l + ready, l[1..] + ready;
    assert forall i :: 0 <= i < |t| ==> t[i] == s[i + 1];
    assert forall i :: 0 < i < |s| ==> s[i] == t[i - 1];
    assert s[0] == k;
  }

  lemma PutBack(items: seq<Value>, head: bool)
    requires items != []
    ensures items == if head then [Popped(items, head)] + Rest(items, head) else Rest(items, head) + [Popped(items, head)]
  {
  }

  lemma MarkedIff(q: seq<Key>, k: Key)
    ensures k in Elements(q) <==> k in q
  {
  }

  lemma OneMoreKey(q: seq<Key>, k: Key)
    requires Distinct(q) && k !in q
    ensures Distinct(q + [k]) && Elements(q + [k]) == Elements(q) + {k}
  {
  }
}
