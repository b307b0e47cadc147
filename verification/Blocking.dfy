/** Clients blocked on keys: a two-sided index. The database maps a key to the linked
    list of clients waiting for it; each client maps its keys to its own node in those
    lists, so that it can be removed without a search. The lists share no nodes. */
module Blocking {
  import opened Basics
  import opened Adlist

  type Key = string
  type Id = nat

  datatype Kind = NotBlocked | OnList | OnZset | OnStream | OnOther

  // ---------------------------------------------------------------- waiters as values

  /** Who waits for which key, in order. */
  type Waiters = map<Key, seq<Id>>

  function WaitersOf(w: Waiters, k: Key): seq<Id> {
    if k in w then w[k] else []
  }

  function Appended(w: Waiters, k: Key, c: Id): Waiters {
    w[k := WaitersOf(w, k) + [c]]
  }

  /** `c` joined the waiters of exactly `keys`, once, as the last. */
  ghost predicate Joined(before: Waiters, after: Waiters, keys: set<Key>, c: Id) {
    forall k :: WaitersOf(after, k) == WaitersOf(before, k) + if k in keys then [c] else []
  }

  lemma JoinNobody(w: Waiters, c: Id)
    ensures Joined(w, w, {}, c)
  {
  }

  lemma JoinStep(before: Waiters, w: Waiters, done: set<Key>, c: Id, k: Key)
    requires Joined(before, w, done, c) && k !in done
    ensures Joined(before, Appended(w, k, c), done + {k}, c)
  {
  }

  lemma NoElements(keys: seq<Key>)
    ensures Elements(keys[..0]) == {}
  {
  }

  lemma ElementsNext(keys: seq<Key>, j: nat)
    requires j < |keys|
    ensures Elements(keys[..j + 1]) == Elements(keys[..j]) + {keys[j]}
  {
    assert keys[..j + 1] == keys[..j] + [keys[j]];
  }

  lemma ElementsAre(keys: seq<Key>)
    ensures Elements(keys[..|keys|]) == Elements(keys) && forall k :: k in Elements(keys) <==> k in keys
  {
    assert keys[..|keys|] == keys;
  }

  /** The sequence without `c`. */
  function Drop(s: seq<Id>, c: Id): seq<Id> {
    if s == [] then [] else (if s[0] == c then [] else [s[0]]) + Drop(s[1..], c)
  }

  /** Without `c` everywhere. */
  function DroppedAll(w: Waiters, c: Id): Waiters {
    map k | k in w && Drop(w[k], c) != [] :: Drop(w[k], c)
  }

  lemma DroppedAllIs(w: Waiters, w2: Waiters, c: Id)
    requires forall k :: WaitersOf(w2, k) == Drop(WaitersOf(w, k), c)
    requires forall k :: k in w2 ==> w2[k] != []
    ensures w2 == DroppedAll(w, c)
  {
    var d := DroppedAll(w, c);
    forall k ensures k in w2 <==> k in d {
      assert WaitersOf(w2, k) == Drop(WaitersOf(w, k), c);
    }
    forall k | k in w2 ensures w2[k] == d[k] {
      assert WaitersOf(w2, k) == Drop(WaitersOf(w, k), c);
    }
  }

  function Rotated(w: Waiters, k: Key): Waiters
    requires k in w
  {
    w[k := Turned(w[k])]
  }

  lemma {:induction false} DropIsWithout(s: seq<Id>, c: Id, i: nat)
    requires Distinct(s) && i < |s| && s[i] == c
    ensures Drop(s, c) == Without(s, i)
    decreases |s|
  {
    if i == 0 {
      DropNothing(s[1..], c);
      assert Without(s, 0) == s[1..];
    } else {
      DropIsWithout(s[1..], c, i - 1);
      assert Without(s, i) == [s[0]] + Without(s[1..], i - 1);
    }
  }

  lemma {:induction false} DropNothing(s: seq<Id>, c: Id)
    requires c !in s
    ensures Drop(s, c) == s
    decreases |s|
  {
    if s != [] {
      assert s[0] in s;
      DropNothing(s[1..], c);
    }
  }

  /** What `Drop` keeps: the others, as often as before. */
  lemma {:induction false} DropKeeps(s: seq<Id>, c: Id)
    ensures c !in Drop(s, c) && forall x :: x != c ==> (x in Drop(s, c) <==> x in s)
    decreases |s|
  {
    if s != [] {
      DropKeeps(s[1..], c);
      assert s == [s[0]] + s[1..];
    }
  }

  // ---------------------------------------------------------------- the index

  /** The waiter lists as the nodes they consist of. */
  type NodeLists = map<Key, seq<ListNode<Id>>>

  /** A client's key table, and what it is blocked for. */
  datatype Client = Client(keys: map<Key, ListNode<Id>>, kind: Kind, target: Option<Key>)

  /** The keys of the table and the nodes of the waiter lists point at each other. */
  ghost predicate Crossed(lists: NodeLists, clients: map<Id, Client>) {
    && (forall c, k :: c in clients && k in clients[c].keys ==>
          k in lists && clients[c].keys[k] in lists[k] && clients[c].keys[k].value == c)
    && forall k, i :: k in lists && 0 <= i < |lists[k]| ==>
         var c := lists[k][i].value;
         c in clients && k in clients[c].keys && clients[c].keys[k] == lists[k][i]
  }

  /** Different keys have different nodes and none repeats a node. */
  ghost predicate Disjoint(lists: NodeLists) {
    && (forall k :: k in lists ==> Distinct(lists[k]))
    && forall j, k, x, y :: j in lists && k in lists && j != k && 0 <= x < |lists[j]| && 0 <= y < |lists[k]| ==>
         lists[j][x] != lists[k][y]
  }

  function AllValues(lists: NodeLists): Waiters {
    map k | k in lists :: Values(lists[k])
  }

  lemma AppendedValues(lists: NodeLists, k: Key, n: ListNode<Id>)
    ensures AllValues(lists[k := ListOf(lists, k) + [n]]) == Appended(AllValues(lists), k, n.value)
  {
    var s := ListOf(lists, k);
    assert Values(s + [n]) == Values(s) + [n.value];
    assert WaitersOf(AllValues(lists), k) == Values(s);
  }

  function ListOf(lists: NodeLists, k: Key): seq<ListNode<Id>> {
    if k in lists then lists[k] else []
  }

  function WithKey(client: Client, k: Key, n: ListNode<Id>): Client {
    client.(keys := client.keys[k := n])
  }

  function WithoutKey(client: Client, k: Key): Client {
    client.(keys := client.keys - {k})
  }

  lemma AddCrossed(lists: NodeLists, clients: map<Id, Client>, k: Key, c: Id, n: ListNode<Id>)
    requires Crossed(lists, clients) && c in clients && k !in clients[c].keys && n.value == c
    ensures Crossed(lists[k := ListOf(lists, k) + [n]], clients[c := WithKey(clients[c], k, n)])
  {
    var lists2: NodeLists := lists[k := ListOf(lists, k) + [n]];
    var clients2: map<Id, Client> := clients[c := WithKey(clients[c], k, n)];
    forall j, i | j in lists2 && 0 <= i < |lists2[j]|
      ensures var d := lists2[j][i].value; d in clients2 && j in clients2[d].keys && clients2[d].keys[j] == lists2[j][i]
    {
      if j == k && i == |ListOf(lists, k)| {
        assert lists2[j][i] == n;
      } else {
        assert j in lists && lists2[j][i] == lists[j][i];
      }
    }
  }

  /** A new node for a new waiter keeps the index. */
  lemma AddOk(lists: NodeLists, clients: map<Id, Client>, k: Key, c: Id, n: ListNode<Id>)
    requires IndexOk(lists, clients) && c in clients && k !in clients[c].keys && n.value == c
    requires NotIn(lists, n)
    ensures var lists2: NodeLists := lists[k := ListOf(lists, k) + [n]];
            && IndexOk(lists2, clients[c := WithKey(clients[c], k, n)])
            && AllValues(lists2) == Appended(AllValues(lists), k, c)
  {
    hide Crossed, Disjoint, Values, AllValues, Appended;
    AddCrossed(lists, clients, k, c, n);
    AddDisjoint(lists, k, n);
    AppendedValues(lists, k, n);
  }

  lemma NotInBefore(lists: NodeLists, before: NodeLists, k: Key, n: ListNode<Id>)
    requires NotIn(lists, n) && lists == before[k := ListOf(before, k)]
    ensures NotIn(before, n)
  {
    forall j, i | j in before && 0 <= i < |before[j]| ensures before[j][i] != n {
      assert lists[j] == before[j];
    }
  }

  ghost predicate NotIn(lists: NodeLists, n: ListNode<Id>) {
    forall j, i :: j in lists && 0 <= i < |lists[j]| ==> lists[j][i] != n
  }

  lemma AddDisjoint(lists: NodeLists, k: Key, n: ListNode<Id>)
    requires Disjoint(lists) && NotIn(lists, n)
    ensures Disjoint(lists[k := ListOf(lists, k) + [n]])
  {
  }

  function DropAt(lists: NodeLists, k: Key, i: nat): NodeLists
    requires k in lists && i < |lists[k]|
  {
    var rest := Without(lists[k], i);
    if rest == [] then lists - {k} else lists[k := rest]
  }

  lemma DropNodes(lists: NodeLists, clients: map<Id, Client>, k: Key, c: Id, i: nat, j: Key, x: nat)
    requires Crossed(lists, clients) && Disjoint(lists) && c in clients && k in lists && i < |lists[k]|
    requires k in clients[c].keys && lists[k][i] == clients[c].keys[k]
    requires j in DropAt(lists, k, i) && x < |DropAt(lists, k, i)[j]|
    ensures var n := DropAt(lists, k, i)[j][x];
            && n.value in clients && j in clients[n.value].keys && clients[n.value].keys[j] == n
            && (n.value == c ==> j != k)
  {
    var y := if j == k && x >= i then x + 1 else x;
    assert DropAt(lists, k, i)[j][x] == lists[j][y];
  }

  lemma DropHandles(lists: NodeLists, clients: map<Id, Client>, k: Key, c: Id, i: nat, d: Id, j: Key)
    requires Crossed(lists, clients) && c in clients && k in lists && i < |lists[k]|
    requires k in clients[c].keys && lists[k][i] == clients[c].keys[k]
    requires d in clients && j in clients[d].keys && (d != c || j != k)
    ensures j in DropAt(lists, k, i) && clients[d].keys[j] in DropAt(lists, k, i)[j] && clients[d].keys[j].value == d
  {
    var n := clients[d].keys[j];
    assert j in lists && n in lists[j] && n.value == d;
    if j == k {
      var y :| 0 <= y < |lists[k]| && lists[k][y] == n;
      assert y != i;
      assert Without(lists[k], i)[if y < i then y else y - 1] == n;
    }
  }

  lemma DropCrossed(lists: NodeLists, clients: map<Id, Client>, k: Key, c: Id, i: nat)
    requires Crossed(lists, clients) && Disjoint(lists) && c in clients && k in lists && i < |lists[k]|
    requires k in clients[c].keys && lists[k][i] == clients[c].keys[k]
    ensures Crossed(DropAt(lists, k, i), clients[c := WithoutKey(clients[c], k)])
  {
    hide DropAt, Disjoint;
    var lists2: NodeLists := DropAt(lists, k, i);
    var clients2: map<Id, Client> := clients[c := WithoutKey(clients[c], k)];
    forall j, x | j in lists2 && 0 <= x < |lists2[j]|
      ensures lists2[j][x].value in clients2 && j in clients2[lists2[j][x].value].keys
              && clients2[lists2[j][x].value].keys[j] == lists2[j][x]
    {
      DropNodes(lists, clients, k, c, i, j, x);
    }
    forall d, j | d in clients2 && j in clients2[d].keys
      ensures j in lists2 && clients2[d].keys[j] in lists2[j] && clients2[d].keys[j].value == d
    {
      DropHandles(lists, clients, k, c, i, d, j);
    }
  }

  lemma DropDisjoint(lists: NodeLists, k: Key, i: nat)
    requires Disjoint(lists) && k in lists && i < |lists[k]|
    ensures Disjoint(DropAt(lists, k, i))
  {
    var rest := Without(lists[k], i);
    assert forall x :: 0 <= x < |rest| ==> rest[x] == lists[k][if x < i then x else x + 1];
  }

  lemma TurnedSame<T>(s: seq<T>)
    ensures |Turned(s)| == |s|
    ensures forall x :: x in Turned(s) <==> x in s
    ensures Distinct(s) ==> Distinct(Turned(s))
  {
    var t := Turned(s);
    assert forall x :: 0 <= x < |t| ==> t[x] == s[if x + 1 < |s| then x + 1 else 0];
    assert forall x :: 0 <= x < |s| ==> s[x] == t[if x == 0 then |s| - 1 else x - 1];
  }

  /** The same nodes in another order. */
  lemma SameNodesCrossed(lists: NodeLists, clients: map<Id, Client>, k: Key, t: seq<ListNode<Id>>)
    requires Crossed(lists, clients) && k in lists && forall x :: x in t <==> x in lists[k]
    ensures Crossed(lists[k := t], clients)
  {
    var lists2: NodeLists := lists[k := t];
    forall j, i | j in lists2 && 0 <= i < |lists2[j]|
      ensures var c := lists2[j][i].value; c in clients && j in clients[c].keys && clients[c].keys[j] == lists2[j][i]
    {
      assert lists2[j][i] in lists[j];
    }
  }

  lemma SameNodesDisjoint(lists: NodeLists, k: Key, t: seq<ListNode<Id>>)
    requires Disjoint(lists) && k in lists && Distinct(t) && forall x :: x in t <==> x in lists[k]
    ensures Disjoint(lists[k := t])
  {
    var lists2: NodeLists := lists[k := t];
    forall i, j, x, y | i in lists2 && j in lists2 && i != j && 0 <= x < |lists2[i]| && 0 <= y < |lists2[j]|
      ensures lists2[i][x] != lists2[j][y]
    {
      assert lists2[i][x] in lists[i] && lists2[j][y] in lists[j];
    }
  }

  lemma RotateOk(lists: NodeLists, clients: map<Id, Client>, k: Key)
    requires IndexOk(lists, clients) && k in lists
    ensures IndexOk(lists[k := Turned(lists[k])], clients)
  {
    hide Crossed, Turned;
    TurnedSame(lists[k]);
    SameNodesCrossed(lists, clients, k, Turned(lists[k]));
    SameNodesDisjoint(lists, k, Turned(lists[k]));
  }

  /** A client waits at most once for a key. */
  lemma WaitsOnce(lists: NodeLists, clients: map<Id, Client>, k: Key)
    requires Crossed(lists, clients) && Disjoint(lists) && k in lists
    ensures Distinct(Values(lists[k]))
  {
    var s := lists[k];
    forall i, j | 0 <= i < j < |s| ensures s[i].value != s[j].value {
      assert s[i] != s[j];
    }
  }

  /** What the index promises: both sides agree, a client waits at most once for a
      key, and no empty list is kept. */
  ghost predicate IndexOk(lists: NodeLists, clients: map<Id, Client>) {
    Disjoint(lists) && Crossed(lists, clients) && forall k :: k in lists ==> lists[k] != []
  }

  /** The clients blocked for a kind of reason. */
  function BlockedFor(clients: map<Id, Client>, kind: Kind): set<Id> {
    set c | c in clients && clients[c].kind == kind
  }

  function BlockedAll(clients: map<Id, Client>): set<Id> {
    set c | c in clients && clients[c].kind != NotBlocked
  }

  predicate WaitsForKeys(kind: Kind) { kind.OnList? || kind.OnZset? || kind.OnStream? }

  /** Exactly the clients blocked on keys have keys. */
  ghost predicate KeysOk(clients: map<Id, Client>) {
    forall c :: c in clients ==> (WaitsForKeys(clients[c].kind) <==> clients[c].keys != map[])
  }

  lemma KindChanges(clients: map<Id, Client>, c: Id, x: Client, t: Kind)
    requires c in clients
    ensures BlockedFor(clients[c := x], t) ==
            if x.kind == t then BlockedFor(clients, t) + {c} else BlockedFor(clients, t) - {c}
    ensures BlockedAll(clients[c := x]) ==
            if x.kind.NotBlocked? then BlockedAll(clients) - {c} else BlockedAll(clients) + {c}
  {
    var after := clients[c := x];
    forall d: Id ensures d in BlockedFor(after, t) <==> if d == c then x.kind == t else d in BlockedFor(clients, t) {
    }
    forall d: Id ensures d in BlockedAll(after) <==> if d == c then !x.kind.NotBlocked? else d in BlockedAll(clients) {
    }
  }

  ghost function IndexOf(s: seq<ListNode<Id>>, n: ListNode<Id>): (i: nat)
    requires n in s
    ensures i < |s| && s[i] == n
  {
    if s[0] == n then 0 else IndexOf(s[1..], n) + 1
  }

  /** The counters are the numbers of blocked clients. */
  ghost predicate CountersOk(blocked: int, blockedBy: map<Kind, int>, clients: map<Id, Client>) {
    && blocked == |BlockedAll(clients)|
    && forall t: Kind :: !t.NotBlocked? ==> t in blockedBy && blockedBy[t] == |BlockedFor(clients, t)|
  }

  lemma SameCounters(blocked: int, blockedBy: map<Kind, int>, clients: map<Id, Client>, c: Id, x: Client)
    requires CountersOk(blocked, blockedBy, clients) && c in clients && x.kind == clients[c].kind
    ensures CountersOk(blocked, blockedBy, clients[c := x])
  {
    forall t: Kind
      ensures BlockedFor(clients[c := x], t) == BlockedFor(clients, t) && BlockedAll(clients[c := x]) == BlockedAll(clients)
    {
      KindChanges(clients, c, x, t);
    }
    assert BlockedAll(clients[c := x]) == BlockedAll(clients) by { KindChanges(clients, c, x, x.kind); }
  }

  lemma OneMoreBlocked(blocked: int, blockedBy: map<Kind, int>, clients: map<Id, Client>, c: Id, x: Client)
    requires CountersOk(blocked, blockedBy, clients) && c in clients && clients[c].kind.NotBlocked? && !x.kind.NotBlocked?
    ensures x.kind in blockedBy
    ensures CountersOk(blocked + 1, blockedBy[x.kind := blockedBy[x.kind] + 1], clients[c := x])
  {
    forall t: Kind | !t.NotBlocked?
      ensures |BlockedFor(clients[c := x], t)| == |BlockedFor(clients, t)| + if x.kind == t then 1 else 0
    {
      KindChanges(clients, c, x, t);
    }
    KindChanges(clients, c, x, x.kind);
  }

  lemma OneLessBlocked(blocked: int, blockedBy: map<Kind, int>, clients: map<Id, Client>, c: Id, x: Client)
    requires CountersOk(blocked, blockedBy, clients) && c in clients && !clients[c].kind.NotBlocked? && x.kind.NotBlocked?
    ensures clients[c].kind in blockedBy
    ensures CountersOk(blocked - 1, blockedBy[clients[c].kind := blockedBy[clients[c].kind] - 1], clients[c := x])
  {
    forall t: Kind | !t.NotBlocked?
      ensures |BlockedFor(clients[c := x], t)| == |BlockedFor(clients, t)| - if clients[c].kind == t then 1 else 0
    {
      KindChanges(clients, c, x, t);
    }
    KindChanges(clients, c, x, clients[c].kind);
  }

  // ---------------------------------------------------------------- the lists in the heap

  type Lists = map<Key, List<Id>>
  type Reprs = map<Key, set<ListNode<Id>>>

  /** A well-linked list of these nodes. */
  ghost predicate Holds(l: List<Id>, nodes: seq<ListNode<Id>>, repr: set<ListNode<Id>>)
    reads l, repr
  {
    l.repr == repr && l.Valid() && l.nodes == nodes
  }

  /** The lists of different keys are different and share no node. */
  ghost predicate Unshared(at: Lists, reprs: Reprs)
    requires at.Keys == reprs.Keys
  {
    forall j, k :: j in at && k in at && j != k ==> at[j] != at[k] && reprs[j] !! reprs[k]
  }

  ghost predicate Within(at: Lists, reprs: Reprs, repr: set<object>)
    requires at.Keys == reprs.Keys
  {
    forall k :: k in at ==> at[k] in repr && reprs[k] <= repr
  }

  /** The list of each key holds the nodes recorded for it. */
  ghost predicate AllHold(at: Lists, lists: NodeLists, reprs: Reprs, repr: set<object>)
    requires at.Keys == reprs.Keys == lists.Keys && Within(at, reprs, repr)
    reads repr
  {
    forall k :: k in at ==> Holds(at[k], lists[k], reprs[k])
  }

  /** The lists of the index: separate, and each with the nodes recorded for its key. */
  ghost predicate Heap(at: Lists, lists: NodeLists, reprs: Reprs, repr: set<object>)
    reads repr
  {
    at.Keys == reprs.Keys == lists.Keys && Unshared(at, reprs) && Within(at, reprs, repr) && AllHold(at, lists, reprs, repr)
  }

  /** An empty list for a key that has none. */
  method AddTo(at: Lists, k: Key, ghost lists: NodeLists, ghost reprs: Reprs, ghost repr: set<object>) returns (l: List<Id>)
    requires Heap(at, lists, reprs, repr) && k !in at
    ensures fresh(l) && Heap(at[k := l], lists[k := []], reprs[k := {}], repr + {l})
  {
    hide List.Valid, Unshared;
    l := new List<Id>();
    forall j | j in at ensures Holds(at[j], lists[j], reprs[j]) && at[j] != l {
    }
    UnsharedAdd(at, reprs, k, l);
  }

  lemma UnsharedAdd(at: Lists, reprs: Reprs, k: Key, l: List<Id>)
    requires at.Keys == reprs.Keys && Unshared(at, reprs) && forall j :: j in at ==> at[j] != l
    ensures Unshared(at[k := l], reprs[k := {}])
  {
  }

  lemma UnsharedMore(at: Lists, reprs: Reprs, k: Key, n: ListNode<Id>)
    requires at.Keys == reprs.Keys && Unshared(at, reprs) && k in at && forall j :: j in reprs ==> n !in reprs[j]
    ensures Unshared(at, reprs[k := reprs[k] + {n}])
  {
  }

  lemma UnsharedAt(at: Lists, reprs: Reprs, k: Key)
    requires at.Keys == reprs.Keys && Unshared(at, reprs) && k in at
    ensures forall j :: j in at && j != k ==> at[j] != at[k] && reprs[j] !! reprs[k]
  {
  }

  /** A new node at the end of a key's list. */
  method PushIn(at: Lists, k: Key, c: Id, ghost lists: NodeLists, ghost reprs: Reprs, ghost repr: set<object>)
    returns (n: ListNode<Id>)
    requires Heap(at, lists, reprs, repr) && k in at
    modifies repr
    ensures fresh(n) && n.value == c && NotIn(lists, n)
    ensures Heap(at, lists[k := lists[k] + [n]], reprs[k := reprs[k] + {n}], repr + {n})
  {
    hide List.Valid, Unshared;
    var l := at[k];
    UnsharedAt(at, reprs, k);
    l.AddNodeTail(c);
    n := l.tail;
    forall j | j in at && j != k ensures Holds(at[j], lists[j], reprs[j]) {
    }
    forall j | j in at ensures n !in reprs[j] {
    }
    UnsharedMore(at, reprs, k, n);
  }

  /** Removes the node itself from a key's list. */
  method DelIn(at: Lists, k: Key, n: ListNode<Id>, ghost i: nat, ghost lists: NodeLists, ghost reprs: Reprs, ghost repr: set<object>)
    returns (left: nat)
    requires Heap(at, lists, reprs, repr) && k in at && i < |lists[k]| && lists[k][i] == n
    modifies repr
    ensures Heap(at, lists[k := Without(lists[k], i)], reprs, repr) && left == |Without(lists[k], i)|
  {
    hide List.Valid, Without;
    var l := at[k];
    l.DelNode(n, i);
    l.Ends();
    left := l.len;
    forall j | j in at && j != k ensures Holds(at[j], lists[j], reprs[j]) {
    }
  }

  /** The first node of a key's list becomes the last. */
  method TurnIn(at: Lists, k: Key, ghost lists: NodeLists, ghost reprs: Reprs, ghost repr: set<object>)
    requires Heap(at, lists, reprs, repr) && k in at
    modifies repr
    ensures Heap(at, lists[k := Turned(lists[k])], reprs, repr)
  {
    hide List.Valid, Turned;
    at[k].RotateHeadToTail();
    forall j | j in at && j != k ensures Holds(at[j], lists[j], reprs[j]) {
    }
  }

  lemma HeapLess(at: Lists, lists: NodeLists, reprs: Reprs, repr: set<object>, k: Key)
    requires Heap(at, lists, reprs, repr)
    ensures Heap(at - {k}, lists - {k}, reprs - {k}, repr)
  {
    hide Holds;
  }

  class Db {
    var blockingKeys: map<Key, List<Id>>
    var clients: map<Id, Client>
    var blocked: int
    var blockedBy: map<Kind, int>
    var unblocked: seq<Id>           // to be processed again
    ghost var lists: NodeLists       // the nodes of each list
    ghost var reprs: map<Key, set<ListNode<Id>>>   // the nodes each list has or had
    ghost var repr: set<object>      // all lists and nodes

    ghost predicate Separated()
      reads this`blockingKeys, this`lists, this`reprs, this`repr, repr
    {
      Heap(blockingKeys, lists, reprs, repr)
    }

    ghost predicate Valid()
      reads this, repr
    {
      && this !in repr && Separated()
      && IndexOk(lists, clients) && KeysOk(clients) && CountersOk(blocked, blockedBy, clients) && Distinct(unblocked)
    }

    ghost function Abs(): Waiters
      reads this
    {
      AllValues(lists)
    }

    lemma KeysMatch()
      requires Separated()
      ensures blockingKeys.Keys == lists.Keys == reprs.Keys
    {
    }

    /** Removes the node itself from the key's list, and the list if that empties it. */
    method RemoveNode(k: Key, n: ListNode<Id>, ghost i: nat)
      requires this !in repr && Separated() && k in lists && i < |lists[k]| && lists[k][i] == n
      modifies this`blockingKeys, this`lists, this`reprs, repr
      ensures this !in repr && Separated() && lists == DropAt(old(lists), k, i)
    {
      hide Heap, Without;
      assert k in blockingKeys by { KeysMatch(); }
      var left := DelIn(blockingKeys, k, n, i, lists, reprs, repr);
      lists := lists[k := Without(lists[k], i)];
      if left == 0 {
        HeapLess(blockingKeys, lists, reprs, repr, k);
        blockingKeys, lists, reprs := blockingKeys - {k}, lists - {k}, reprs - {k};
        assert lists == old(lists) - {k};
      }
    }

    /** The list of a key, made if need be. */
    method EnsureList(k: Key)
      requires this !in repr && Separated()
      modifies this`blockingKeys, this`lists, this`reprs, this`repr
      ensures this !in repr && Separated() && old(repr) <= repr && fresh(repr - old(repr))
      ensures k in blockingKeys && lists == old(lists)[k := ListOf(old(lists), k)]
    {
      hide Heap;
      KeysMatch();
      if k !in blockingKeys {
        var l := AddTo(blockingKeys, k, lists, reprs, repr);
        blockingKeys, lists, reprs, repr := blockingKeys[k := l], lists[k := []], reprs[k := {}], repr + {l};
      }
    }

    /** A new node for the client at its end. */
    method AppendNode(k: Key, c: Id) returns (n: ListNode<Id>)
      requires this !in repr && Separated() && k in blockingKeys && k in lists
      modifies this`lists, this`reprs, this`repr, repr
      ensures this !in repr && Separated() && fresh(repr - old(repr)) && n.value == c
      ensures NotIn(old(lists), n) && lists == old(lists)[k := old(lists)[k] + [n]]
    {
      hide Heap, NotIn;
      KeysMatch();
      n := PushIn(blockingKeys, k, c, lists, reprs, repr);
      lists, reprs, repr := lists[k := lists[k] + [n]], reprs[k := reprs[k] + {n}], repr + {n};
    }

    /** The client joins the waiters of a key it does not wait for yet. */
    method AddWaiter(c: Id, k: Key)
      requires this !in repr && Separated() && IndexOk(lists, clients) && c in clients && k !in clients[c].keys
      modifies this`blockingKeys, this`clients, this`lists, this`reprs, this`repr, repr
      ensures this !in repr && Separated() && fresh(repr - old(repr))
      ensures IndexOk(lists, clients) && Abs() == Appended(old(Abs()), k, c)
      ensures c in clients && clients[c].keys.Keys == old(clients[c].keys.Keys) + {k}
      ensures clients == old(clients)[c := old(clients)[c].(keys := clients[c].keys)]
    {
      hide IndexOk, AllValues, Separated, NotIn, Appended;
      ghost var before: NodeLists := lists;
      EnsureList(k);
      ghost var middle: NodeLists := lists;
      var n := AppendNode(k, c);
      NotInBefore(middle, before, k, n);
      assert lists == before[k := ListOf(before, k) + [n]];
      AddOk(before, clients, k, c, n);
      clients := clients[c := WithKey(clients[c], k, n)];
    }

    /** The client joins the waiters of some keys; a key given twice counts once. */
    method JoinWaiters(c: Id, keys: seq<Key>)
      requires this !in repr && Separated() && IndexOk(lists, clients) && c in clients && clients[c].keys == map[]
      modifies this`blockingKeys, this`clients, this`lists, this`reprs, this`repr, repr
      ensures this !in repr && Separated() && fresh(repr - old(repr))
      ensures IndexOk(lists, clients) && c in clients && clients[c].keys.Keys == Elements(keys)
      ensures clients == old(clients)[c := old(clients)[c].(keys := clients[c].keys)]
      ensures Joined(old(Abs()), Abs(), Elements(keys), c)
    {
      hide Separated, Crossed, Disjoint, Values, AllValues, IndexOk, Elements, Joined, Appended;
      NoElements(keys);
      JoinNobody(Abs(), c);
      for j := 0 to |keys|
        invariant c in clients && clients == old(clients)[c := old(clients)[c].(keys := clients[c].keys)]
        invariant this !in repr && Separated() && fresh(repr - old(repr)) && IndexOk(lists, clients)
        invariant clients[c].keys.Keys == Elements(keys[..j])
        invariant Joined(old(Abs()), Abs(), clients[c].keys.Keys, c)
      {
        ElementsNext(keys, j);
        if keys[j] !in clients[c].keys {
          JoinStep(old(Abs()), Abs(), clients[c].keys.Keys, c, keys[j]);
          AddWaiter(c, keys[j]);
        }
      }
      ElementsAre(keys);
    }

    /** Blocks a client for some keys. */
    method BlockForKeys(c: Id, kind: Kind, keys: seq<Key>, target: Option<Key>)
      requires Valid() && c in clients && clients[c].kind.NotBlocked? && WaitsForKeys(kind) && keys != []
      modifies this`blockingKeys, this`clients, this`blocked, this`blockedBy, this`lists, this`reprs, this`repr, repr
      ensures Valid() && fresh(repr - old(repr)) && c in clients
      ensures clients == old(clients)[c := Client(clients[c].keys, kind, target)]
      ensures clients[c].keys.Keys == Elements(keys)
      ensures Joined(old(Abs()), Abs(), Elements(keys), c)
    {
      hide Separated, Crossed, Disjoint, Values, AllValues, IndexOk, CountersOk, Joined;
      SameKeys(lists, clients, c, clients[c].(target := target));
      clients := clients[c := clients[c].(target := target)];
      JoinWaiters(c, keys);
      assert clients == old(clients)[c := clients[c]];
      SameCounters(blocked, blockedBy, old(clients), c, clients[c]);
      BlockClient(c, kind);
      assert keys[0] in clients[c].keys;
    }

    method BlockClient(c: Id, kind: Kind)
      requires IndexOk(lists, clients) && CountersOk(blocked, blockedBy, clients)
      requires c in clients && clients[c].kind.NotBlocked? && !kind.NotBlocked?
      modifies this`clients, this`blocked, this`blockedBy
      ensures IndexOk(lists, clients) && CountersOk(blocked, blockedBy, clients)
      ensures clients == old(clients)[c := old(clients)[c].(kind := kind)]
    {
      hide IndexOk, CountersOk;
      var x := clients[c].(kind := kind);
      SameKeys(lists, clients, c, x);
      OneMoreBlocked(blocked, blockedBy, clients, c, x);
      clients := clients[c := x];
      blocked := blocked + 1;
      blockedBy := blockedBy[kind := blockedBy[kind] + 1];
    }

    /** Takes the client out of the list of every key it waits for, through its own
        nodes; lists left empty go. */
    method UnblockClientWaitingData(c: Id)
      requires this !in repr && Separated() && IndexOk(lists, clients) && c in clients
      modifies this`blockingKeys, this`clients, this`lists, this`reprs, repr
      ensures this !in repr && Separated() && IndexOk(lists, clients)
      ensures clients == old(clients)[c := old(clients)[c].(keys := map[], target := None)]
      ensures forall k :: WaitersOf(Abs(), k) == Drop(WaitersOf(old(Abs()), k), c)
    {
      hide Separated, Crossed, Disjoint, Values, AllValues, IndexOk;
      var keys := clients[c].keys;
      var left := keys.Keys;
      ghost var now := clients;     // the client without the keys done
      ghost var start := Abs();
      NotWaiting(lists, clients, c);
      while left != {}
        invariant left <= keys.Keys && c in now && now == clients[c := now[c]] && clients == old(clients)
        invariant now[c] == clients[c].(keys := now[c].keys) && now[c].keys.Keys == left
        invariant forall k :: k in left ==> now[c].keys[k] == keys[k]
        invariant this !in repr && Separated() && IndexOk(lists, now)
        invariant forall k :: k in left ==> WaitersOf(Abs(), k) == WaitersOf(start, k)
        invariant forall k :: k !in left ==> WaitersOf(Abs(), k) == Drop(WaitersOf(start, k), c)
        decreases left
      {
        var k :| k in left;
        var n := keys[k];
        NodeThere(lists, now, c, k);
        DropNode(lists, now, c, k);
        RemoveNode(k, n, IndexOf(lists[k], n));
        now := now[c := WithoutKey(now[c], k)];
        left := left - {k};
      }
      assert now[c].keys == map[];
      var x := clients[c].(keys := map[], target := None);
      SameKeys(lists, now, c, x);
      assert now[c := x] == clients[c := x];
      clients := clients[c := x];
    }

    /** Frees a blocked client: out of the index, out of the counters, and queued once
        for processing its pending input. */
    method UnblockClient(c: Id)
      requires Valid() && c in clients && !clients[c].kind.NotBlocked?
      modifies this, repr
      ensures Valid() && repr == old(repr)
      ensures clients == old(clients)[c := old(clients)[c].(keys := map[], target := None, kind := NotBlocked)]
      ensures Abs() == DroppedAll(old(Abs()), c)
      ensures unblocked == (if c in old(unblocked) then old(unblocked) else old(unblocked) + [c]) && blocked == old(blocked) - 1
    {
      hide Separated, Crossed, Disjoint, Values, AllValues, IndexOk, Drop, CountersOk, WaitersOf, DroppedAll;
      var kind := clients[c].kind;
      UnblockClientWaitingData(c);
      NoEmptyLists(lists, clients);
      DroppedAllIs(old(Abs()), Abs(), c);
      var x := clients[c].(kind := NotBlocked);
      SameKeys(lists, clients, c, x);
      assert clients[c := x] == old(clients)[c := x];
      OneLessBlocked(blocked, blockedBy, old(clients), c, x);
      blocked := blocked - 1;
      blockedBy := blockedBy[kind := blockedBy[kind] - 1];
      clients := clients[c := x];
      if c !in unblocked {
        unblocked := unblocked + [c];
      }
    }

    lemma Listed(k: Key)
      requires Valid()
      ensures k in blockingKeys <==> k in Abs()
    {
      KeysMatch();
    }

    lemma Means()
      requires Valid()
      ensures IndexOk(lists, clients) && KeysOk(clients)
    {
    }

    lemma HeldList(k: Key)
      requires Separated() && k in blockingKeys
      ensures k in lists && blockingKeys[k] in repr && blockingKeys[k].repr <= repr
      ensures blockingKeys[k].Valid() && blockingKeys[k].nodes == lists[k]
    {
    }

    /** The first waiter of a key. */
    method First(k: Key) returns (c: Id)
      requires Valid() && k in blockingKeys
      ensures k in Abs() && Abs()[k] != [] && c == Abs()[k][0] && c in clients
    {
      hide Separated, KeysOk, CountersOk;
      HeldList(k);
      var l := blockingKeys[k];
      l.Ends();
      c := l.head.value;
    }

    /** How many clients wait for a key. */
    method Length(k: Key) returns (n: nat)
      requires Valid()
      ensures n == |WaitersOf(Abs(), k)|
    {
      hide Separated, IndexOk, KeysOk, CountersOk;
      KeysMatch();
      n := 0;
      if k in blockingKeys {
        HeldList(k);
        blockingKeys[k].Ends();
        n := blockingKeys[k].len;
      }
    }

    /** The first waiter of a key becomes the last; its node is still its node. */
    method RotateHeadToTail(k: Key)
      requires Valid() && k in blockingKeys
      modifies this`lists, repr
      ensures Valid() && k in Abs() && k in old(Abs()) && Abs() == Rotated(old(Abs()), k)
      ensures repr == old(repr) && clients == old(clients)
    {
      hide IndexOk, Heap, Values, AllValues, CountersOk, Rotated, Turned;
      KeysMatch();
      assert this !in repr;
      RotateOk(lists, clients, k);
      RotatedValues(lists, k);
      TurnIn(blockingKeys, k, lists, reprs, repr);
      lists := lists[k := Turned(lists[k])];
    }
  }

  lemma NoEmptyLists(lists: NodeLists, clients: map<Id, Client>)
    requires IndexOk(lists, clients)
    ensures forall k :: k in AllValues(lists) ==> AllValues(lists)[k] != []
  {
  }

  lemma RotatedValues(lists: NodeLists, k: Key)
    requires k in lists
    ensures k in AllValues(lists)
    ensures var lists2: NodeLists := lists[k := Turned(lists[k])];
            k in AllValues(lists2) && AllValues(lists2) == Rotated(AllValues(lists), k)
  {
    var s := lists[k];
    assert Values(Turned(s)) == Turned(Values(s));
  }

  /** The handle a client keeps is in the list of its key, under its name. */
  lemma NodeThere(lists: NodeLists, clients: map<Id, Client>, c: Id, k: Key)
    requires IndexOk(lists, clients) && c in clients && k in clients[c].keys
    ensures k in lists && clients[c].keys[k] in lists[k] && clients[c].keys[k].value == c
  {
  }

  lemma DropNode(lists: NodeLists, clients: map<Id, Client>, c: Id, k: Key)
    requires IndexOk(lists, clients) && c in clients && k in clients[c].keys
    requires k in lists && clients[c].keys[k] in lists[k]
    ensures var lists2 := DropAt(lists, k, IndexOf(lists[k], clients[c].keys[k]));
            && IndexOk(lists2, clients[c := WithoutKey(clients[c], k)])
            && (forall j :: j != k ==> WaitersOf(AllValues(lists2), j) == WaitersOf(AllValues(lists), j))
            && WaitersOf(AllValues(lists2), k) == Drop(WaitersOf(AllValues(lists), k), c)
  {
    hide Crossed, Disjoint;
    var n := clients[c].keys[k];
    var i := IndexOf(lists[k], n);
    var rest := Without(lists[k], i);
    NodeThere(lists, clients, c, k);
    DropCrossed(lists, clients, k, c, i);
    DropDisjoint(lists, k, i);
    WaitsOnce(lists, clients, k);
    DropIsWithout(Values(lists[k]), c, i);
    assert Values(rest) == Without(Values(lists[k]), i);
  }

  /** A client waits for a key exactly when the key is in its own table. */
  lemma BothSidesAgree(lists: NodeLists, clients: map<Id, Client>, c: Id, k: Key)
    requires IndexOk(lists, clients) && c in clients
    ensures c in WaitersOf(AllValues(lists), k) <==> k in clients[c].keys
    ensures Distinct(WaitersOf(AllValues(lists), k))
    ensures k in clients[c].keys ==>
              exists i :: 0 <= i < |ListOf(lists, k)| && ListOf(lists, k)[i] == clients[c].keys[k] && WaitersOf(AllValues(lists), k)[i] == c
  {
    if k in lists {
      WaitsOnce(lists, clients, k);
      if k in clients[c].keys {
        var i := IndexOf(lists[k], clients[c].keys[k]);
        assert Values(lists[k])[i] == c;
      }
    }
  }

  lemma NotWaiting(lists: NodeLists, clients: map<Id, Client>, c: Id)
    requires IndexOk(lists, clients) && c in clients
    ensures forall k :: k !in clients[c].keys ==> Drop(WaitersOf(AllValues(lists), k), c) == WaitersOf(AllValues(lists), k)
  {
    forall k | k !in clients[c].keys
      ensures Drop(WaitersOf(AllValues(lists), k), c) == WaitersOf(AllValues(lists), k)
    {
      DropNothing(WaitersOf(AllValues(lists), k), c);
    }
  }

  lemma SameKeys(lists: NodeLists, clients: map<Id, Client>, c: Id, x: Client)
    requires IndexOk(lists, clients) && c in clients && x.keys == clients[c].keys
    ensures IndexOk(lists, clients[c := x])
  {
  }
}
