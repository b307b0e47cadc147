/** Config epochs in a cluster: how a node's current epoch and its table of config
    epochs change with packets, bumps, elections, restarts, resets and administration,
    and in exactly which runs the current epoch dominates every config epoch. */
module ClusterEpochs {
  import opened ClusterBasics

  // ---------------------------------------------------------------- one node

  datatype Node = Node(
    me: Name,
    cur: nat,                   // currentEpoch
    epochs: map<Name, nat>,     // configEpoch of every known node, this one included
    slaves: set<Name>,          // those flagged as replicas
    auth: nat)                  // failover_auth_epoch

  datatype Subject = Nobody | About(name: Name, epoch: nat)

  /** A packet: the header, and what an UPDATE is about. */
  datatype Msg = Msg(from: Name, cur: nat, config: nat, slave: bool, subject: Subject)

  predicate Valid(n: Node) { n.me in n.epochs }

  function Own(n: Node): nat
    requires Valid(n)
  {
    n.epochs[n.me]
  }

  function Raise(n: Node, epoch: nat): Node {
    if epoch > n.cur then n.(cur := epoch) else n
  }

  function ProcessHeader(n: Node, m: Msg): (r: Node)
    requires m.from in n.epochs
    ensures Valid(n) ==> Valid(r)
  {
    var r := Raise(n, m.cur);
    if m.config > r.epochs[m.from] then r.(epochs := r.epochs[m.from := m.config]) else r
  }

  function NextEpoch(n: Node): (r: Node)
    ensures Valid(r)
  {
    n.(cur := n.cur + 1, epochs := n.epochs[n.me := n.cur + 1])
  }

  /** A master finds another master with its config epoch: the one with the smaller
      ID moves to a new epoch. */
  function HandleCollision(n: Node, sender: Name): (r: Node)
    requires Valid(n) && sender in n.epochs
    ensures Valid(r)
  {
    if n.epochs[sender] != Own(n) || sender in n.slaves || n.me in n.slaves then n
    else if sender <= n.me then n
    else NextEpoch(n)
  }

  function ProcessPing(n: Node, m: Msg): (r: Node)
    requires Valid(n) && m.from in n.epochs
    ensures Valid(r)
  {
    var h := ProcessHeader(n, m);
    var r := h.(slaves := if m.slave then h.slaves + {m.from} else h.slaves - {m.from});
    if r.me !in r.slaves && m.from !in r.slaves && m.config == Own(r) then HandleCollision(r, m.from) else r
  }

  function ProcessUpdate(n: Node, m: Msg): (r: Node)
    requires Valid(n) && m.from in n.epochs && m.subject.About?
    ensures Valid(r)
  {
    var h := ProcessHeader(n, m);
    var x := m.subject.name;
    if x !in h.epochs || h.epochs[x] >= m.subject.epoch then h
    else h.(slaves := h.slaves - {x}, epochs := h.epochs[x := m.subject.epoch])
  }

  /** Packets of unknown senders change no epoch. */
  function Process(n: Node, m: Msg): (r: Node)
    requires Valid(n)
    ensures Valid(r)
  {
    if m.from !in n.epochs then n
    else if m.subject.About? then ProcessUpdate(n, m)
    else ProcessPing(n, m)
  }

  predicate MayBump(n: Node)
    requires Valid(n)
  {
    Own(n) == 0 || Own(n) < n.cur || exists x :: x in n.epochs && Own(n) < n.epochs[x]
  }

  function Promote(n: Node): Node
    requires Valid(n)
  {
    if Own(n) < n.auth then n.(epochs := n.epochs[n.me := n.auth]) else n
  }

  /** Soft and hard CLUSTER RESET: a master that knows nobody; a hard one also zeroes
      the epochs and takes a new ID. The epoch of the last election stays. */
  function Reset(n: Node, hard: bool, name: Name): (r: Node)
    requires Valid(n)
    ensures Valid(r)
  {
    if hard then Node(name, 0, map[name := 0], {}, n.auth) else n.(epochs := map[n.me := Own(n)], slaves := {})
  }

  /** A restart loads the saved table, with a current epoch no smaller than any of it,
      and knows of no election. */
  predicate Reloaded(n: Node, r: Node) {
    && r == n.(cur := r.cur, auth := 0) && n.cur <= r.cur && TableDominated(r)
    && (r.cur == n.cur || exists x :: x in n.epochs && n.epochs[x] == r.cur)
  }

  /** A replica that knows its master: only such a node runs elections. */
  predicate IsReplica(n: Node) {
    n.me in n.slaves && exists x :: x in n.epochs && x != n.me
  }

  class ClusterConfig {
    var me: Name
    var cur: nat
    var epochs: map<Name, nat>
    var slaves: set<Name>
    var auth: nat

    ghost predicate Ok()
      reads this
    {
      me in epochs
    }

    ghost function Abs(): Node
      reads this
    {
      Node(me, cur, epochs, slaves, auth)
    }

    /** The greatest epoch known. */
    method GetMaxEpoch() returns (max: nat)
      ensures max >= cur && (forall x :: x in epochs ==> epochs[x] <= max)
      ensures max == cur || exists x :: x in epochs && epochs[x] == max
    {
      max := 0;
      var left := epochs.Keys;
      while left != {}
        invariant left <= epochs.Keys
        invariant forall x :: x in epochs.Keys - left ==> epochs[x] <= max
        invariant max == 0 || exists x :: x in epochs && epochs[x] == max
        decreases left
      {
        var x :| x in left;
        if epochs[x] > max {
          max := epochs[x];
        }
        left := left - {x};
      }
      if max < cur {
        max := cur;
      }
    }

    method BumpConfigEpochWithoutConsensus() returns (ok: bool)
      requires Ok()
      modifies this`cur, this`epochs
      ensures Ok() && ok == MayBump(old(Abs()))
      ensures Abs() == if ok then NextEpoch(old(Abs())) else old(Abs())
    {
      var max := GetMaxEpoch();
      if epochs[me] == 0 || epochs[me] != max {
        cur := cur + 1;
        epochs := epochs[me := cur];
        return true;
      }
      ok := false;
    }

    method HandleConfigEpochCollision(sender: Name)
      requires Ok() && sender in epochs
      modifies this`cur, this`epochs
      ensures Ok() && Abs() == HandleCollision(old(Abs()), sender)
    {
      if epochs[sender] != epochs[me] || sender in slaves || me in slaves { return; }
      if sender <= me { return; }
      cur := cur + 1;
      epochs := epochs[me := cur];
    }

    /** The epoch part of the packet handler. */
    method ProcessPacket(m: Msg)
      requires Ok()
      modifies this`cur, this`epochs, this`slaves
      ensures Ok() && Abs() == Process(old(Abs()), m)
    {
      if m.from !in epochs { return; }
      if m.cur > cur {
        cur := m.cur;
      }
      if m.config > epochs[m.from] {
        epochs := epochs[m.from := m.config];
      }
      if m.subject.About? {
        var x := m.subject.name;
        if x !in epochs || epochs[x] >= m.subject.epoch { return; }
        slaves := slaves - {x};
        epochs := epochs[x := m.subject.epoch];
      } else {
        slaves := if m.slave then slaves + {m.from} else slaves - {m.from};
        if me !in slaves && m.from !in slaves && m.config == epochs[me] {
          HandleConfigEpochCollision(m.from);
        }
      }
    }

    /** CLUSTER SET-CONFIG-EPOCH: refused unless the node is fresh. */
    method SetConfigEpoch(epoch: int) returns (ok: bool)
      requires Ok()
      modifies this`cur, this`epochs
      ensures Ok() && ok == (epoch >= 0 && |old(epochs)| <= 1 && Own(old(Abs())) == 0)
      ensures Abs() == if ok then Raise(old(Abs()).(epochs := old(epochs)[me := epoch]), epoch) else old(Abs())
    {
      if epoch < 0 || |epochs| > 1 || epochs[me] != 0 { return false; }
      epochs := epochs[me := epoch];
      if cur < epoch {
        cur := epoch;
      }
      ok := true;
    }

    /** CLUSTER RESET; `name` is the ID drawn for a hard one. */
    method ClusterReset(hard: bool, name: Name)
      requires Ok()
      modifies this`me, this`cur, this`epochs, this`slaves
      ensures Ok() && Abs() == Reset(old(Abs()), hard, name)
      ensures slaves == {} && epochs == map[me := if hard then 0 else old(epochs[me])]
      ensures if hard then me == name && cur == 0 else me == old(me) && cur == old(cur)
    {
      slaves := slaves - {me};
      var left := epochs.Keys - {me};
      while left != {}
        invariant left <= epochs.Keys && me !in left && slaves <= old(slaves) && epochs.Keys == left + {me}
        invariant me == old(me) && cur == old(cur) && epochs[me] == old(epochs[me])
        decreases left
      {
        var x :| x in left;
        epochs := epochs - {x};
        left := left - {x};
      }
      slaves := {};
      assert epochs == map[me := old(epochs[me])];
      if hard {
        cur := 0;
        epochs := epochs - {me};
        assert epochs == map[];
        me := name;
        epochs := epochs[me := 0];
      }
    }

    /** The end of loading the configuration file. */
    method LoadConfig()
      requires Ok()
      modifies this`cur, this`auth
      ensures Ok() && Reloaded(old(Abs()), Abs())
      ensures auth == 0 && cur >= old(cur) && forall x :: x in epochs ==> epochs[x] <= cur
    {
      auth := 0;
      var max := GetMaxEpoch();
      if max > cur {
        cur := max;
      }
    }

    /** The configEpoch part of winning an election. */
    method WinElection()
      requires Ok()
      modifies this`epochs
      ensures Ok() && Abs() == Promote(old(Abs()))
      ensures epochs == old(epochs)[me := if old(epochs[me]) < auth then auth else old(epochs[me])]
    {
      if epochs[me] < auth {
        epochs := epochs[me := auth];
      }
    }
  }

  // ---------------------------------------------------------------- all runs

  datatype World = World(nodes: map<Name, Node>, msgs: set<Msg>)

  datatype Step =
    | Join(x: Name)                       // a fresh node
    | Send(x: Name, m: Msg)               // packets stay: lost, late or repeated delivery
    | Deliver(x: Name, m: Msg)
    | Bump(x: Name)
    | Ask(x: Name)                        // a replica starts an election
    | Win(x: Name)
    | SetEpoch(x: Name, epoch: nat)
    | Meet(x: Name, y: Name)              // learn of a node
    | Forget(x: Name, y: Name)
    | Role(x: Name, slaves: set<Name>)
    | ResetNode(x: Name, hard: bool, name: Name)
    | Restart(x: Name, n: Node)

  /** The header carries the node's own config epoch or, from a replica, the one it
      knows of its master; an UPDATE the one it knows of some node. */
  predicate Sendable(n: Node, m: Msg) {
    && Valid(n) && m.from == n.me && m.cur == n.cur
    && (exists y :: y in n.epochs && m.config == n.epochs[y] && (y == n.me || n.me in n.slaves))
    && (m.subject.About? ==> m.subject.name in n.epochs && m.subject.epoch == n.epochs[m.subject.name])
  }

  predicate Next(w: World, t: World, step: Step) {
    match step
    case Join(x) => x !in w.nodes && t == w.(nodes := w.nodes[x := Node(x, 0, map[x := 0], {}, 0)])
    case Send(x, m) => x in w.nodes && Sendable(w.nodes[x], m) && t == w.(msgs := w.msgs + {m})
    case Deliver(x, m) =>
      x in w.nodes && Valid(w.nodes[x]) && m in w.msgs && t == w.(nodes := w.nodes[x := Process(w.nodes[x], m)])
    case Bump(x) =>
      x in w.nodes && Valid(w.nodes[x]) && MayBump(w.nodes[x]) && t == w.(nodes := w.nodes[x := NextEpoch(w.nodes[x])])
    case Ask(x) =>
      && x in w.nodes && IsReplica(w.nodes[x])
      && t == w.(nodes := w.nodes[x := w.nodes[x].(cur := w.nodes[x].cur + 1, auth := w.nodes[x].cur + 1)])
    case Win(x) =>
      && x in w.nodes && Valid(w.nodes[x]) && IsReplica(w.nodes[x])
      && t == w.(nodes := w.nodes[x := Promote(w.nodes[x]).(slaves := w.nodes[x].slaves - {w.nodes[x].me})])
    case SetEpoch(x, epoch) =>
      && x in w.nodes && Valid(w.nodes[x]) && |w.nodes[x].epochs| <= 1 && Own(w.nodes[x]) == 0
      && t == w.(nodes := w.nodes[x := Raise(w.nodes[x].(epochs := w.nodes[x].epochs[w.nodes[x].me := epoch]), epoch)])
    case Meet(x, y) =>
      && x in w.nodes && y !in w.nodes[x].epochs
      && t == w.(nodes := w.nodes[x := w.nodes[x].(epochs := w.nodes[x].epochs[y := 0])])
    case Forget(x, y) =>
      && x in w.nodes && y != w.nodes[x].me
      && t == w.(nodes := w.nodes[x := w.nodes[x].(epochs := w.nodes[x].epochs - {y})])
    case Role(x, slaves) => x in w.nodes && t == w.(nodes := w.nodes[x := w.nodes[x].(slaves := slaves)])
    case ResetNode(x, hard, name) =>
      x in w.nodes && Valid(w.nodes[x]) && t == w.(nodes := w.nodes[x := Reset(w.nodes[x], hard, name)])
    case Restart(x, n) => x in w.nodes && Reloaded(w.nodes[x], n) && t == w.(nodes := w.nodes[x := n])
  }

  predicate TableDominated(n: Node) {
    forall x :: x in n.epochs ==> n.epochs[x] <= n.cur
  }

  /** The current epoch is at least every config epoch the node knows. */
  predicate Dominates(n: Node) {
    Valid(n) && TableDominated(n)
  }

  predicate Dominated(m: Msg) {
    m.config <= m.cur && (m.subject.About? ==> m.subject.epoch <= m.cur)
  }

  predicate Inv(w: World) {
    && (forall x :: x in w.nodes ==> Dominates(w.nodes[x]))
    && forall m :: m in w.msgs ==> Dominated(m)
  }

  lemma ProcessDominates(n: Node, m: Msg)
    requires Dominates(n) && Dominated(m)
    ensures Dominates(Process(n, m))
  {
  }

  function Max(a: nat, b: nat): nat { if a < b then b else a }

  /** What a packet teaches. The current epoch becomes the greater of both; the sender is
      known under the greater of the epoch known and the one sent; so is the node an
      UPDATE is about, if it is known; nobody else's epoch changes, except that a master
      with a smaller ID than a master of the same config epoch takes the next epoch. */
  lemma PacketEffect(n: Node, m: Msg, y: Name)
    requires Valid(n) && m.from in n.epochs && m.from != n.me && y in n.epochs
    ensures var r := Process(n, m);
            var known := if y == m.from then Max(n.epochs[y], m.config) else n.epochs[y];
            var collides := !m.subject.About? && !m.slave && n.me !in n.slaves && n.me < m.from
                            && m.config == Own(n) == Max(n.epochs[m.from], m.config);
            && r.epochs.Keys == n.epochs.Keys && r.me == n.me && r.auth == n.auth
            && r.cur == Max(n.cur, m.cur) + (if collides then 1 else 0)
            && (y in r.slaves <==>
                  if m.subject.About? then y in n.slaves && !(y == m.subject.name && known < m.subject.epoch)
                  else if y == m.from then m.slave else y in n.slaves)
            && r.epochs[y] == if collides && y == n.me then r.cur
                              else if m.subject.About? && m.subject.name == y then Max(known, m.subject.epoch)
                              else known
  {
  }

  /** A winner whose election is of an epoch it has reached. */
  predicate Careful(w: World, step: Step) {
    step.Win? && step.x in w.nodes ==> w.nodes[step.x].auth <= w.nodes[step.x].cur
  }

  /** A win keeps a table dominated exactly when its election's epoch is reached. */
  lemma WinKeepsIff(n: Node)
    requires Dominates(n)
    ensures Dominates(Promote(n)) <==> n.auth <= n.cur
  {
    if n.auth > n.cur {
      assert Promote(n).epochs[n.me] == n.auth;
    }
  }

  /** From a dominated world, a step leads to a dominated world exactly when it is not
      a careless win. */
  lemma NextKeepsIff(w: World, t: World, step: Step)
    requires Inv(w) && Next(w, t, step)
    ensures Inv(t) <==> Careful(w, step)
  {
    hide Process, Promote;
    match step
    case Deliver(x, m) => ProcessDominates(w.nodes[x], m);
    case Send(x, m) => assert Dominated(m);
    case Join(x) =>
    case Bump(x) =>
    case Ask(x) =>
    case Win(x) =>
      WinKeepsIff(w.nodes[x]);
      assert Dominates(t.nodes[x]) <==> Dominates(Promote(w.nodes[x])) by { PromoteKeepsRest(w.nodes[x]); }
    case SetEpoch(x, epoch) =>
    case Meet(x, y) =>
    case Forget(x, y) =>
    case Role(x, slaves) =>
    case ResetNode(x, hard, name) =>
    case Restart(x, n) =>
  }

  lemma PromoteKeepsRest(n: Node)
    requires Valid(n)
    ensures Valid(Promote(n)) && Promote(n).me == n.me && Promote(n).cur == n.cur
  {
  }

  predicate IsRun(run: seq<World>, steps: seq<Step>) {
    && |run| == |steps| + 1 && run[0] == World(map[], {})
    && forall i :: 0 <= i < |steps| ==> Next(run[i], run[i + 1], steps[i])
  }

  /** Every win among the first `k` steps is careful. */
  predicate CarefulUpTo(run: seq<World>, steps: seq<Step>, k: nat)
    requires |run| == |steps| + 1 && k <= |steps|
  {
    forall i :: 0 <= i < k ==> Careful(run[i], steps[i])
  }

  /** Epoch dominance, exactly: in a run with resets and restarts, the states up to
      `k` have each node's current epoch at least every config epoch in its table, and
      each packet's at least those it carries, if and only if every win up to there is
      of an election whose epoch the winner has reached. */
  lemma {:induction false} EpochDominance(run: seq<World>, steps: seq<Step>, k: nat)
    requires IsRun(run, steps) && k < |run|
    ensures (forall i :: 0 <= i <= k ==> Inv(run[i])) <==> CarefulUpTo(run, steps, k)
    decreases k
  {
    hide Next, Inv, Careful;
    if k == 0 {
      assert Inv(run[0]) by { EmptyInv(); }
    } else {
      EpochDominance(run, steps, k - 1);
      assert Next(run[k - 1], run[k - 1 + 1], steps[k - 1]);
      if Inv(run[k - 1]) {
        NextKeepsIff(run[k - 1], run[k], steps[k - 1]);
      }
    }
  }

  lemma EmptyInv()
    ensures Inv(World(map[], {}))
  {
  }

  predicate AuthReached(w: World) {
    forall x :: x in w.nodes ==> w.nodes[x].auth <= w.nodes[x].cur
  }

  lemma ProcessKeepsAuth(n: Node, m: Msg)
    requires Valid(n)
    ensures Process(n, m).auth == n.auth && Process(n, m).cur >= n.cur
  {
  }

  lemma NextReached(w: World, t: World, step: Step)
    requires AuthReached(w) && Next(w, t, step) && !(step.ResetNode? && step.hard)
    ensures AuthReached(t) && Careful(w, step)
  {
    hide Process;
    if step.Deliver? {
      ProcessKeepsAuth(w.nodes[step.x], step.m);
    }
  }

  /** Only a hard reset makes a careless win possible: a run without one has none, so
      every state of it is dominated. */
  lemma {:induction false} NoHardReset(run: seq<World>, steps: seq<Step>, k: nat)
    requires IsRun(run, steps) && k < |run|
    requires forall i :: 0 <= i < k ==> !(steps[i].ResetNode? && steps[i].hard)
    ensures AuthReached(run[k]) && CarefulUpTo(run, steps, k) && Inv(run[k])
    decreases k
  {
    hide Next, Inv, AuthReached, Careful;
    if k == 0 {
      assert AuthReached(run[0]) by { EmptyReached(); }
    } else {
      NoHardReset(run, steps, k - 1);
      assert Next(run[k - 1], run[k - 1 + 1], steps[k - 1]);
      NextReached(run[k - 1], run[k], steps[k - 1]);
    }
    EpochDominance(run, steps, k);
  }

  lemma EmptyReached()
    ensures AuthReached(World(map[], {}))
  {
  }

  /** In every such run a bump that succeeds gives the node an epoch greater than every
      other it knows; one that is refused already has the greatest, and it is
      refused exactly when that epoch is positive and the current one. */
  lemma BumpIsGreatest(run: seq<World>, steps: seq<Step>, i: nat, x: Name)
    requires IsRun(run, steps) && i < |run| && CarefulUpTo(run, steps, i) && x in run[i].nodes
    ensures var n := run[i].nodes[x];
            && Valid(n)
            && (MayBump(n) <==> Own(n) == 0 || Own(n) < n.cur)
            && (MayBump(n) ==> forall y :: y in n.epochs && y != n.me ==> n.epochs[y] < Own(NextEpoch(n)))
            && (!MayBump(n) ==> forall y :: y in n.epochs ==> n.epochs[y] <= Own(n))
  {
    hide Next, Careful;
    EpochDominance(run, steps, i);
    assert Inv(run[i]);
    assert Dominates(run[i].nodes[x]);
  }

  function With(n: Node): World { World(map[1 := n], {}) }

  /** A run that loses dominance: a replica asks for votes, is reset, joins again as a
      replica, and wins with the votes of its earlier life. */
  lemma ResetThenWin()
    ensures exists run, steps :: IsRun(run, steps) && !Inv(run[|steps|])
  {
    hide IsRun, Inv, Next;
    var joined := Node(1, 0, map[1 := 0], {}, 0);
    var run, steps := Begin(joined);
    var replica := Node(1, 0, map[1 := 0, 2 := 0], {1}, 0);
    run, steps := BecomeReplica(run, steps, joined, replica);
    var asked := replica.(cur := 1, auth := 1);
    assert Next(With(replica), With(asked), Ask(1)) by { AskStep(replica, asked); }
    run, steps := Extend(run, steps, asked, Ask(1));
    var reset := Node(3, 0, map[3 := 0], {}, 1);
    assert Next(With(asked), With(reset), ResetNode(1, true, 3)) by { ResetStep(asked, reset); }
    run, steps := Extend(run, steps, reset, ResetNode(1, true, 3));
    var again := Node(3, 0, map[3 := 0, 2 := 0], {3}, 1);
    run, steps := BecomeReplica(run, steps, reset, again);
    var won := Node(3, 0, map[3 := 1, 2 := 0], {}, 1);
    assert Next(With(again), With(won), Win(1)) by { WinStep(again, won); }
    run, steps := Extend(run, steps, won, Win(1));
    assert !Inv(With(won)) by { Broken(won); }
  }

  lemma Broken(n: Node)
    requires n == Node(3, 0, map[3 := 1, 2 := 0], {}, 1)
    ensures !Inv(With(n))
  {
    assert With(n).nodes[1].epochs[3] > With(n).nodes[1].cur;
  }

  lemma AskStep(n: Node, r: Node)
    requires n == Node(1, 0, map[1 := 0, 2 := 0], {1}, 0) && r == n.(cur := 1, auth := 1)
    ensures Next(With(n), With(r), Ask(1))
  {
    assert 2 in n.epochs;
  }

  lemma ResetStep(n: Node, r: Node)
    requires n == Node(1, 1, map[1 := 0, 2 := 0], {1}, 1) && r == Node(3, 0, map[3 := 0], {}, 1)
    ensures Next(With(n), With(r), ResetNode(1, true, 3))
  {
  }

  lemma WinStep(n: Node, r: Node)
    requires n == Node(3, 0, map[3 := 0, 2 := 0], {3}, 1) && r == Node(3, 0, map[3 := 1, 2 := 0], {}, 1)
    ensures Next(With(n), With(r), Win(1))
  {
    assert 2 in n.epochs && n.epochs[3 := 1] == r.epochs && n.slaves - {3} == {};
  }

  /** The node meets another and becomes its replica. */
  lemma BecomeReplica(run: seq<World>, steps: seq<Step>, n: Node, r: Node) returns (run2: seq<World>, steps2: seq<Step>)
    requires IsRun(run, steps) && run[|steps|] == With(n) && 2 !in n.epochs
    requires r == n.(epochs := n.epochs[2 := 0], slaves := {n.me})
    ensures IsRun(run2, steps2) && run2[|steps2|] == With(r)
  {
    hide IsRun;
    var met := n.(epochs := n.epochs[2 := 0]);
    assert With(n).nodes[1 := met] == With(met).nodes && With(met).nodes[1 := r] == With(r).nodes;
    run2, steps2 := Extend(run, steps, met, Meet(1, 2));
    run2, steps2 := Extend(run2, steps2, r, Role(1, {n.me}));
  }

  lemma Begin(n: Node) returns (run: seq<World>, steps: seq<Step>)
    requires n == Node(1, 0, map[1 := 0], {}, 0)
    ensures IsRun(run, steps) && run[|steps|] == With(n)
  {
    run, steps := [World(map[], {}), With(n)], [Join(1)];
    assert Next(run[0], run[1], steps[0]);
  }

  lemma Extend(run: seq<World>, steps: seq<Step>, n: Node, step: Step) returns (run2: seq<World>, steps2: seq<Step>)
    requires IsRun(run, steps) && Next(run[|steps|], With(n), step)
    ensures IsRun(run2, steps2) && run2[|steps2|] == With(n)
  {
    hide Next;
    run2, steps2 := run + [With(n)], steps + [step];
    forall i | 0 <= i < |steps2| ensures Next(run2[i], run2[i + 1], steps2[i]) {
      assert i < |steps| ==> Next(run[i], run[i + 1], steps[i]);
    }
  }
}
