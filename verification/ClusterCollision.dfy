/** Config epoch collisions among masters that only the collision handler moves:
    however packets are sent, delayed, repeated and reordered, every node moves a
    bounded number of times, and when nobody can move all epochs are distinct. */
module ClusterCollision {
  import opened ClusterEpochs
  import opened Basics
  import opened ClusterBasics
  import Bits

  /** The cluster of masters `all`, with each node's config epoch, its config epochs
      so far and its number of moves. */
  datatype History = History(
    all: set<Name>, nodes: map<Name, Node>, msgs: set<Msg>,
    own: map<Name, nat>, held: map<Name, set<nat>>, moves: map<Name, nat>)

  datatype Event = Sends(x: Name, m: Msg) | Receives(x: Name, m: Msg)

  predicate Complete(h: History) {
    h.nodes.Keys == h.all && h.own.Keys == h.all && h.held.Keys == h.all && h.moves.Keys == h.all
  }

  /** One event; a node whose own config epoch changed has moved. */
  predicate Next(h: History, t: History, e: Event)
    requires Complete(h)
  {
    match e
    case Sends(x, m) => x in h.all && Sendable(h.nodes[x], m) && !m.slave && t == h.(msgs := h.msgs + {m})
    case Receives(x, m) =>
      && x in h.all && m in h.msgs && m.from in h.all && m.from != x && Valid(h.nodes[x])
      && var r := Process(h.nodes[x], m);
         t == if Own(r) == h.own[x] then h.(nodes := h.nodes[x := r])
              else h.(nodes := h.nodes[x := r], own := h.own[x := Own(r)],
                      held := h.held[x := h.held[x] + {Own(r)}], moves := h.moves[x := h.moves[x] + 1])
  }

  // ---------------------------------------------------------------- the invariant

  /** A master that knows all others and believes none to be ahead of itself. */
  predicate MasterOk(all: set<Name>, own: map<Name, nat>, x: Name, n: Node) {
    && x in all && n.me == x && n.slaves == {} && n.epochs.Keys == all == own.Keys
    && Dominates(n) && n.epochs[x] == own[x]
    && forall y :: y in all ==> n.epochs[y] <= own[y]
  }

  predicate MsgOk(all: set<Name>, own: map<Name, nat>, held: map<Name, set<nat>>, m: Msg) {
    && own.Keys == held.Keys == all
    && Dominated(m) && !m.slave && m.from in all && m.config in held[m.from]
    && (m.subject.About? ==> m.subject.name in all && m.subject.epoch <= own[m.subject.name])
  }

  /** Some node with a greater ID has held the epoch. */
  predicate Chased(held: map<Name, set<nat>>, x: Name, e: nat) {
    exists y :: y in held && y > x && e in held[y]
  }

  /** The epochs a node left are epochs that nodes with greater IDs have held. */
  predicate HeldOk(h: History, x: Name)
    requires Complete(h) && x in h.all
  {
    && h.own[x] in h.held[x] && |h.held[x]| == h.moves[x] + 1
    && forall e :: e in h.held[x] ==> e <= h.own[x] && (e < h.own[x] ==> Chased(h.held, x, e))
  }

  predicate Inv(h: History) {
    && Complete(h)
    && (forall x :: x in h.all ==> MasterOk(h.all, h.own, x, h.nodes[x]))
    && (forall x :: x in h.all ==> HeldOk(h, x))
    && forall m :: m in h.msgs ==> MsgOk(h.all, h.own, h.held, m)
  }

  /** The start: any epochs, colliding or not, nothing moved and nothing under way. */
  predicate Initial(h: History) {
    && Complete(h) && h.msgs == {}
    && (forall x :: x in h.all ==> MasterOk(h.all, h.own, x, h.nodes[x]))
    && forall x :: x in h.all ==> h.held[x] == {h.own[x]} && h.moves[x] == 0
  }

  lemma SendOk(h: History, x: Name, m: Msg)
    requires Complete(h) && x in h.all && MasterOk(h.all, h.own, x, h.nodes[x]) && HeldOk(h, x)
    requires Sendable(h.nodes[x], m) && !m.slave
    ensures MsgOk(h.all, h.own, h.held, m)
  {
  }

  lemma SendsKeeps(h: History, t: History, x: Name, m: Msg)
    requires Inv(h) && Next(h, t, Sends(x, m))
    ensures Inv(t)
  {
    hide MasterOk, MsgOk, Sendable, Chased;
    assert HeldOk(h, x);
    SendOk(h, x, m);
    forall y | y in t.all ensures HeldOk(t, y) {
      assert HeldOk(h, y);
    }
  }

  lemma HeaderEffect(all: set<Name>, own: map<Name, nat>, x: Name, n: Node, m: Msg)
    requires MasterOk(all, own, x, n) && m.from in all && m.from != x && Dominated(m) && m.config <= own[m.from]
    ensures MasterOk(all, own, x, ProcessHeader(n, m))
  {
    var g := ProcessHeader(n, m);
    assert g.epochs.Keys == all;
  }

  lemma UpdateEffect(all: set<Name>, own: map<Name, nat>, x: Name, g: Node, y: Name, e: nat)
    requires MasterOk(all, own, x, g) && y in all && e <= own[y] && e > g.epochs[y] && e <= g.cur
    ensures MasterOk(all, own, x, g.(slaves := g.slaves - {y}, epochs := g.epochs[y := e]))
  {
    assert g.epochs[y := e].Keys == all;
    assert g.slaves - {y} == {};
  }

  lemma CollisionEffect(all: set<Name>, own: map<Name, nat>, x: Name, g: Node)
    requires MasterOk(all, own, x, g)
    ensures MasterOk(all, own[x := g.cur + 1], x, NextEpoch(g)) && g.cur + 1 > own[x]
  {
    assert NextEpoch(g).epochs.Keys == all == own[x := g.cur + 1].Keys;
  }

  /** What a packet does to the receiver: its own epoch stays, or it leaves the epoch
      that the sender, with the greater ID, published, for one past all it knows. */
  lemma ReceiveEffect(all: set<Name>, own: map<Name, nat>, held: map<Name, set<nat>>, x: Name, n: Node, m: Msg)
    requires MasterOk(all, own, x, n) && MsgOk(all, own, held, m) && m.from != x
    requires m.config <= own[m.from]
    ensures var r := Process(n, m);
            && Own(r) >= own[x]
            && MasterOk(all, own[x := Own(r)], x, r)
            && (Own(r) != own[x] ==> m.from > x && m.config == own[x])
  {
    HeaderEffect(all, own, x, n, m);
    var g := ProcessHeader(n, m);
    assert own[x := own[x]] == own;
    if m.subject.About? {
      if g.epochs[m.subject.name] < m.subject.epoch {
        UpdateEffect(all, own, x, g, m.subject.name, m.subject.epoch);
      }
    } else {
      assert g.slaves - {m.from} == {} == g.slaves;
      CollisionEffect(all, own, x, g);
    }
  }

  /** Others may move on: what a master knows of them stays behind. */
  lemma OthersMove(all: set<Name>, own: map<Name, nat>, x: Name, e: nat, y: Name, n: Node)
    requires MasterOk(all, own, y, n) && x in all && x != y && e >= own[x]
    ensures MasterOk(all, own[x := e], y, n)
  {
    assert own[x := e].Keys == all;
  }

  lemma MsgStays(all: set<Name>, own: map<Name, nat>, held: map<Name, set<nat>>, x: Name, e: nat, m: Msg)
    requires MsgOk(all, own, held, m) && x in all && e >= own[x]
    ensures MsgOk(all, own[x := e], held[x := held[x] + {e}], m)
    ensures MsgOk(all, own[x := e], held, m)
  {
    assert own[x := e].Keys == all && held[x := held[x] + {e}].Keys == all;
  }

  lemma ReceivesKeeps(h: History, t: History, x: Name, m: Msg)
    requires Inv(h) && Next(h, t, Receives(x, m))
    ensures Inv(t)
  {
    hide MasterOk, MsgOk, Process, HeldOk, Chased;
    var e := Own(Process(h.nodes[x], m));
    ConfigBehind(h, m);
    ReceiveEffect(h.all, h.own, h.held, x, h.nodes[x], m);
    assert t.own == h.own[x := e];
    assert Complete(t);
    forall y | y in t.all ensures MasterOk(t.all, t.own, y, t.nodes[y]) {
      if y != x {
        OthersMove(h.all, h.own, x, e, y, h.nodes[y]);
      }
    }
    forall k | k in t.msgs ensures MsgOk(t.all, t.own, t.held, k) {
      MsgStays(h.all, h.own, h.held, x, e, k);
    }
    forall y | y in t.all ensures HeldOk(t, y) {
      HeldKept(h, t, x, m, y);
    }
  }

  lemma ConfigBehind(h: History, m: Msg)
    requires Inv(h) && m in h.msgs
    ensures m.from in h.all && m.config in h.held[m.from] && m.config <= h.own[m.from]
  {
    hide MasterOk, Chased;
    assert MsgOk(h.all, h.own, h.held, m);
    assert HeldOk(h, m.from);
  }

  lemma ChasedStays(held: map<Name, set<nat>>, x: Name, e: nat, y: Name, f: nat)
    requires x in held && Chased(held, y, f)
    ensures Chased(held[x := held[x] + {e}], y, f)
  {
    var z :| z in held && z > y && f in held[z];
    assert f in held[x := held[x] + {e}][z];
  }

  lemma HeldKept(h: History, t: History, x: Name, m: Msg, y: Name)
    requires Inv(h) && Next(h, t, Receives(x, m)) && Complete(t) && y in t.all
    ensures HeldOk(t, y)
  {
    hide MasterOk, MsgOk, Process, HeldOk;
    ConfigBehind(h, m);
    ReceiveEffect(h.all, h.own, h.held, x, h.nodes[x], m);
    assert HeldOk(h, y) && HeldOk(h, x);
    if t.own == h.own {
      SameHeld(h, t, y);
    } else {
      MovedHeld(h, t, x, Own(Process(h.nodes[x], m)), m.from, y);
    }
  }

  lemma SameHeld(h: History, t: History, y: Name)
    requires Complete(h) && Complete(t) && h.all == t.all && y in h.all && HeldOk(h, y)
    requires t.own == h.own && t.held == h.held && t.moves == h.moves
    ensures HeldOk(t, y)
  {
  }

  lemma MovedHeld(h: History, t: History, x: Name, e: nat, from: Name, y: Name)
    requires Complete(h) && Complete(t) && h.all == t.all && x in h.all && y in h.all && HeldOk(h, y) && HeldOk(h, x)
    requires t.own == h.own[x := e] && e > h.own[x]
    requires t.held == h.held[x := h.held[x] + {e}] && t.moves == h.moves[x := h.moves[x] + 1]
    requires from in h.all && from > x && h.own[x] in h.held[from]
    ensures HeldOk(t, y)
  {
    hide Chased;
    forall f | f in t.held[y] ensures f <= t.own[y] && (f < t.own[y] ==> Chased(t.held, y, f)) {
      if f in h.held[y] && f < h.own[y] {
        ChasedStays(h.held, x, e, y, f);
      } else if y == x && f == h.own[x] {
        IsChased(t.held, x, f, from);
      }
    }
  }

  lemma IsChased(held: map<Name, set<nat>>, x: Name, e: nat, y: Name)
    requires y in held && y > x && e in held[y]
    ensures Chased(held, x, e)
  {
  }

  predicate IsRun(run: seq<History>, events: seq<Event>) {
    && |run| == |events| + 1 && Initial(run[0])
    && forall i :: 0 <= i < |events| ==> Complete(run[i]) && Next(run[i], run[i + 1], events[i])
  }

  lemma InitialInv(h: History)
    requires Initial(h)
    ensures Inv(h)
  {
    hide MasterOk, Chased;
  }

  lemma {:induction false} RunInv(run: seq<History>, events: seq<Event>, i: nat)
    requires IsRun(run, events) && i < |run|
    ensures Inv(run[i])
    decreases i
  {
    hide Next, Inv, Initial;
    if i == 0 {
      InitialInv(run[0]);
    } else {
      RunInv(run, events, i - 1);
      assert Complete(run[i - 1]) && Next(run[i - 1], run[i - 1 + 1], events[i - 1]);
      match events[i - 1]
      case Sends(x, m) => SendsKeeps(run[i - 1], run[i], x, m);
      case Receives(x, m) => ReceivesKeeps(run[i - 1], run[i], x, m);
    }
  }

  // ---------------------------------------------------------------- the bound

  /** The nodes with a greater ID. */
  function Above(all: set<Name>, x: Name): set<Name> {
    set y | y in all && y > x
  }

  function Union(held: map<Name, set<nat>>, some: set<Name>): set<nat>
    requires some <= held.Keys
  {
    set y, e | y in some && e in held[y] :: e
  }

  lemma {:induction false} Least(s: set<Name>) returns (x: Name)
    requires s != {}
    ensures x in s && forall y :: y in s ==> x <= y
    decreases s
  {
    var z :| z in s;
    x := z;
    var rest := s - {z};
    if rest == {} {
      assert s == {z};
    } else {
      var y := Least(rest);
      x := if y < z then y else z;
      assert forall v :: v in s ==> v == z || v in rest;
    }
  }

  /** A node has held at most one epoch more than those above it together. */
  lemma HeldBound(h: History, x: Name)
    requires Inv(h) && x in h.all
    ensures |h.held[x]| <= 1 + |Union(h.held, Above(h.all, x))|
  {
    hide MasterOk, MsgOk;
    var up := Union(h.held, Above(h.all, x));
    assert HeldOk(h, x);
    var own := h.own[x];
    forall e | e in h.held[x] - {own} ensures e in up {
      assert Chased(h.held, x, e);
    }
    SubsetSize(h.held[x] - {own}, up);
  }

  /** All nodes of an upper part together. */
  lemma {:induction false} UnionBound(h: History, top: set<Name>)
    requires Inv(h) && top <= h.all
    requires forall x, y :: x in top && y in h.all && y > x ==> y in top
    ensures |Union(h.held, top)| <= Bits.Pow2(|top|) - 1
    decreases top
  {
    hide MasterOk, MsgOk, HeldOk;
    if top == {} {
      assert Union(h.held, top) == {};
    } else {
      var x := Least(top);
      var rest := top - {x};
      assert Above(h.all, x) == rest;
      UnionBound(h, rest);
      HeldBound(h, x);
      assert Union(h.held, top) == Union(h.held, rest) + h.held[x];
    }
  }

  /** Collision resolution terminates: in every run the node with the k-th greatest
      ID moves at most 2^(k-1) - 1 times; the one with the greatest never does. */
  lemma BoundedMoves(run: seq<History>, events: seq<Event>, i: nat, x: Name)
    requires IsRun(run, events) && i < |run| && x in run[i].all
    ensures x in run[i].moves
    ensures run[i].moves[x] <= Bits.Pow2(|Above(run[i].all, x)|) - 1
  {
    hide MasterOk, MsgOk, IsRun, Union;
    RunInv(run, events, i);
    var h := run[i];
    HeldBound(h, x);
    UnionBound(h, Above(h.all, x));
    assert HeldOk(h, x);
  }

  // ---------------------------------------------------------------- when nobody can move

  /** Everybody has seen everybody's current epoch. */
  predicate AllSeen(h: History) {
    && Complete(h)
    && forall x :: x in h.all ==> MasterOk(h.all, h.own, x, h.nodes[x]) && h.nodes[x].epochs == h.own
  }

  /** The packet by which `y` publishes its state, delivered to `x`, moves `x`. */
  predicate CanMove(h: History, x: Name, y: Name)
    requires AllSeen(h) && x in h.all && y in h.all
  {
    Own(Process(h.nodes[x], Msg(y, h.nodes[y].cur, h.own[y], false, Nobody))) != h.own[x]
  }

  /** Where everybody has seen everybody's epoch, somebody can move if and only if
      two epochs collide. */
  lemma QuietIffDistinct(h: History)
    requires AllSeen(h)
    ensures (forall x, y :: x in h.all && y in h.all && x != y ==> !CanMove(h, x, y))
            <==> (forall x, y :: x in h.all && y in h.all && x != y ==> h.own[x] != h.own[y])
  {
    hide MasterOk, CanMove;
    forall x, y | x in h.all && y in h.all && x != y
      ensures CanMove(h, x, y) <==> h.own[x] == h.own[y] && x < y
    {
      MoveIff(h, x, y);
    }
  }

  lemma MoveIff(h: History, x: Name, y: Name)
    requires AllSeen(h) && x in h.all && y in h.all && x != y
    ensures CanMove(h, x, y) <==> h.own[x] == h.own[y] && x < y
  {
    var n := h.nodes[x];
    assert MasterOk(h.all, h.own, x, n);
    PingEffect(n, h.own, Msg(y, h.nodes[y].cur, h.own[y], false, Nobody));
  }

  lemma PingEffect(n: Node, own: map<Name, nat>, m: Msg)
    requires Dominates(n) && n.slaves == {} && n.epochs == own && m.from in own && m.from != n.me
    requires m.config == own[m.from] && !m.slave && m.subject.Nobody?
    ensures Own(Process(n, m)) != Own(n) <==> own[n.me] == own[m.from] && n.me < m.from
  {
    assert n.slaves - {m.from} == {};
  }
}
