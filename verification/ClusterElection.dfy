/** Replica election in a cluster: a replica asks all masters for a vote in a fresh
    epoch, a master votes at most once per epoch, a majority makes the replica a
    master under that epoch.

    `Elector` is one node's handlers; the protocol below it is made of the same
    transitions, over any number of nodes and any interleaving. */
module ClusterElection {
  import opened Basics
  import opened ClusterBasics

  // ---------------------------------------------------------------- one node

  datatype Member = Member(
    cur: nat,            // currentEpoch
    lastVote: nat,       // lastVoteEpoch
    authEpoch: nat,      // epoch of the last election this node asked votes for
    count: nat,          // votes counted
    sent: bool,          // votes asked for
    configEpoch: nat)

  datatype Request = Request(from: Name, epoch: nat, configEpoch: nat, claimed: seq<bool>, force: bool)

  datatype Ack = Ack(from: Name, to: Name, epoch: nat)

  /** What a node knows when a request arrives: itself, the requesting replica and
      its master, and the config epoch of each slot's owner, -1 for none. */
  datatype Sight = Sight(
    master: bool, numslots: nat,
    senderIsMaster: bool, masterKnown: bool, masterFailed: bool,
    votedTime: int, now: int, timeout: int,
    owners: seq<int>)

  predicate VotesFor(n: Member, req: Request, s: Sight) {
    && s.master && s.numslots > 0
    && req.epoch >= n.cur && n.lastVote != n.cur
    && !s.senderIsMaster && s.masterKnown && (s.masterFailed || req.force)
    && s.now - s.votedTime >= s.timeout * 2
    && forall j :: 0 <= j < |req.claimed| && j < |s.owners| && req.claimed[j] ==> s.owners[j] <= req.configEpoch
  }

  function Hear(n: Member, epoch: nat): Member {
    if epoch > n.cur then n.(cur := epoch) else n
  }

  function CastVote(n: Member): Member { n.(lastVote := n.cur) }

  function CountAck(n: Member, epoch: nat): Member {
    if epoch >= n.authEpoch then n.(count := n.count + 1) else n
  }

  function Schedule(n: Member): Member { n.(count := 0, sent := false) }

  function Ask(n: Member): Member {
    n.(cur := n.cur + 1, authEpoch := n.cur + 1, sent := true)
  }

  function Promote(n: Member): Member {
    if n.configEpoch < n.authEpoch then n.(configEpoch := n.authEpoch) else n
  }

  function Quorum(size: nat): nat { size / 2 + 1 }

  datatype Outcome = Nothing | Scheduled | Asked | Won

  class Elector {
    var cur: nat
    var lastVote: nat
    var authEpoch: nat
    var count: nat
    var sent: bool
    var configEpoch: nat
    var authTime: int

    ghost function Abs(): Member
      reads this
    {
      Member(cur, lastVote, authEpoch, count, sent, configEpoch)
    }

    /** The part common to all packets from known nodes. */
    method ReceiveHeader(epoch: nat)
      modifies this`cur
      ensures Abs() == Hear(old(Abs()), epoch)
    {
      if epoch > cur {
        cur := epoch;
      }
    }

    /** Whether to grant the vote, after the header was processed, and the time of the
        last vote for a replica of the sender's master. */
    method SendFailoverAuthIfNeeded(req: Request, s: Sight) returns (granted: bool, voted: int)
      requires |req.claimed| == |s.owners| == SLOTS
      modifies this`lastVote
      ensures granted <==> VotesFor(old(Abs()), req, s)
      ensures Abs() == if granted then CastVote(old(Abs())) else old(Abs())
      ensures voted == if granted then s.now else s.votedTime
      ensures granted ==> lastVote == cur == old(cur) && old(lastVote) != cur
    {
      granted, voted := false, s.votedTime;
      if !s.master || s.numslots == 0 { return; }
      if req.epoch < cur { return; }
      if lastVote == cur { return; }
      if s.senderIsMaster || !s.masterKnown || (!s.masterFailed && !req.force) { return; }
      if s.now - s.votedTime < s.timeout * 2 { return; }
      for j := 0 to SLOTS
        invariant forall i :: 0 <= i < j && req.claimed[i] ==> s.owners[i] <= req.configEpoch
      {
        if !req.claimed[j] || s.owners[j] == -1 || s.owners[j] <= req.configEpoch {
          continue;
        }
        return;
      }
      lastVote := cur;
      granted, voted := true, s.now;
    }

    /** A vote arrives, after its header was processed. */
    method ReceiveAck(senderIsMaster: bool, senderSlots: nat, epoch: nat)
      modifies this`count
      ensures Abs() == if senderIsMaster && senderSlots > 0 then CountAck(old(Abs()), epoch) else old(Abs())
    {
      if senderIsMaster && senderSlots > 0 && epoch >= authEpoch {
        count := count + 1;
      }
    }

    /** The periodic election handler of a replica whose master failed. `ready`
        stands for its preconditions on roles and data age; `delay` is the random
        and rank delay; the current rank may add to it. */
    method HandleSlaveFailover(ready: bool, now: int, timeout: int, delay: int, added: int, size: nat)
      returns (r: Outcome)
      requires timeout > 0
      modifies this
      ensures r == Scheduled ==> Abs() == Schedule(old(Abs())) && authTime == now + delay
      ensures r == Asked ==> !old(sent) && Abs() == Ask(old(Abs()))
      ensures r == Won ==> old(sent) && old(count) >= Quorum(size) && Abs() == Promote(old(Abs()))
      ensures r == Nothing ==> Abs() == old(Abs())
      ensures r == Asked ==> sent && authEpoch == cur == old(cur) + 1
      ensures r == Won ==> configEpoch == if old(configEpoch) < old(authEpoch) then old(authEpoch) else old(configEpoch)
      ensures r == Scheduled ==> count == 0 && !sent && authEpoch == old(authEpoch)
      ensures var limit := if timeout * 2 < 2000 then 2000 else timeout * 2;
              var age := now - old(authTime);
              var start := if !old(sent) && added > 0 then old(authTime) + added else old(authTime);
              var open := ready && start <= now && age <= limit;
              && (r == Scheduled <==> ready && age > limit * 2)
              && (r == Asked <==> open && !old(sent))
              && (r == Won <==> open && old(sent) && old(count) >= Quorum(size))
    {
      var authAge := now - authTime;
      var authTimeout := timeout * 2;
      if authTimeout < 2000 { authTimeout := 2000; }
      if !ready { return Nothing; }
      if authAge > authTimeout * 2 {
        authTime := now + delay;
        count := 0;
        sent := false;
        return Scheduled;
      }
      if !sent && added > 0 {
        authTime := authTime + added;
      }
      if now < authTime { return Nothing; }
      if authAge > authTimeout { return Nothing; }
      if !sent {
        cur := cur + 1;
        authEpoch := cur;
        sent := true;
        return Asked;
      }
      if count >= size / 2 + 1 {
        if configEpoch < authEpoch {
          configEpoch := authEpoch;
        }
        return Won;
      }
      r := Nothing;
    }
  }

  // ---------------------------------------------------------------- the protocol

  /** A won election: who, in which epoch, the votes counted when the request was
      sent, and the masters whose votes were counted since. */
  datatype Win = Win(who: Name, epoch: nat, stale: nat, backers: set<Name>)

  datatype World = World(
    nodes: map<Name, Member>,
    requests: set<Request>, acks: set<Ack>,          // sent; acks still under way
    votes: set<Ack>, wins: set<Win>,                 // all that were ever cast, won
    stale: map<Name, nat>, counted: map<Name, set<Name>>)  // of the current attempts

  datatype Step =
    | Header(n: Name, epoch: nat)                // any packet, with any epoch
    | AskVotes(n: Name, req: Request)            // a node asks for votes
    | Vote(v: Name, req: Request, sight: Sight)  // a master grants
    | Deliver(ack: Ack)
    | Retry(n: Name)
    | Restart(n: Name)                           // epochs and votes are persisted
    | Wins(n: Name)

  /** `voters` is the fixed set of masters serving slots; everyone agrees on it. */
  predicate Enabled(voters: set<Name>, w: World, step: Step) {
    match step
    case Header(n, _) => n in w.nodes
    case AskVotes(n, req) =>
      && n in w.nodes && !w.nodes[n].sent
      && req.from == n && req.epoch == w.nodes[n].cur + 1 && |req.claimed| == SLOTS
    case Vote(v, req, sight) =>
      && v in w.nodes && req in w.requests && |sight.owners| == SLOTS
      && VotesFor(Hear(w.nodes[v], req.epoch), req, sight)
      && (sight.master && sight.numslots > 0 ==> v in voters)
    case Deliver(ack) => ack in w.acks && ack.to in w.nodes
    case Retry(n) => n in w.nodes
    case Restart(n) => n in w.nodes
    case Wins(n) =>
      && n in w.nodes && n in w.stale && n in w.counted
      && w.nodes[n].sent && w.nodes[n].count >= Quorum(|voters|)
  }

  function Apply(voters: set<Name>, w: World, step: Step): World
    requires Enabled(voters, w, step)
  {
    match step
    case Header(n, epoch) => w.(nodes := w.nodes[n := Hear(w.nodes[n], epoch)])
    case AskVotes(n, req) =>
      w.(nodes := w.nodes[n := Ask(w.nodes[n])], requests := w.requests + {req},
         stale := w.stale[n := w.nodes[n].count], counted := w.counted[n := {}])
    case Vote(v, req, _) =>
      var n := CastVote(Hear(w.nodes[v], req.epoch));
      var ack := Ack(v, req.from, n.cur);
      w.(nodes := w.nodes[v := n], acks := w.acks + {ack}, votes := w.votes + {ack})
    case Deliver(ack) =>
      var n := Hear(w.nodes[ack.to], ack.epoch);
      w.(nodes := w.nodes[ack.to := CountAck(n, ack.epoch)], acks := w.acks - {ack},
         counted := if n.sent && ack.epoch >= n.authEpoch && ack.to in w.counted
                    then w.counted[ack.to := w.counted[ack.to] + {ack.from}] else w.counted)
    case Retry(n) => w.(nodes := w.nodes[n := Schedule(w.nodes[n])])
    case Restart(n) => w.(nodes := w.nodes[n := w.nodes[n].(count := 0, sent := false, authEpoch := 0)])
    case Wins(n) =>
      w.(nodes := w.nodes[n := Promote(w.nodes[n])],
         wins := w.wins + {Win(n, w.nodes[n].authEpoch, w.stale[n], w.counted[n])})
  }

  predicate Possible(voters: set<Name>, w: World, steps: seq<Step>)
    decreases |steps|
  {
    steps == [] || (Enabled(voters, w, steps[0]) && Possible(voters, Apply(voters, w, steps[0]), steps[1..]))
  }

  function After(voters: set<Name>, w: World, steps: seq<Step>): World
    requires Possible(voters, w, steps)
    decreases |steps|
  {
    if steps == [] then w else After(voters, Apply(voters, w, steps[0]), steps[1..])
  }

  predicate Initial(w: World) {
    && w.requests == {} && w.acks == {} && w.votes == {} && w.wins == {}
    && w.stale == map[] && w.counted == map[]
    && forall n :: n in w.nodes ==> !w.nodes[n].sent && w.nodes[n].lastVote <= w.nodes[n].cur
  }

  // ---------------------------------------------------------------- the invariant

  predicate EpochsOk(w: World) {
    forall n :: n in w.nodes ==>
      w.nodes[n].lastVote <= w.nodes[n].cur && (w.nodes[n].sent ==> w.nodes[n].authEpoch <= w.nodes[n].cur)
  }

  /** Nothing refers to an epoch its candidate has not reached; while an attempt
      is on, to none later than the attempt's. */
  predicate Reached(w: World, n: Name, epoch: nat) {
    n in w.nodes && epoch <= w.nodes[n].cur && (w.nodes[n].sent ==> epoch <= w.nodes[n].authEpoch)
  }

  predicate RequestsOk(w: World) {
    forall r :: r in w.requests ==> Reached(w, r.from, r.epoch)
  }

  /** A master's votes are in epochs up to its last vote, one per epoch. */
  predicate VotesOk(voters: set<Name>, w: World) {
    && w.acks <= w.votes
    && (forall a :: a in w.votes ==>
          a.from in voters && a.from in w.nodes && a.epoch <= w.nodes[a.from].lastVote && Reached(w, a.to, a.epoch))
    && forall a, b :: a in w.votes && b in w.votes && a.from == b.from && a.epoch == b.epoch ==> a == b
  }

  /** The count of an attempt is what was counted too early plus the masters that
      voted for it. */
  predicate CountOk(w: World, n: Name)
    requires n in w.nodes
  {
    w.nodes[n].sent ==>
      && n in w.stale && n in w.counted
      && w.nodes[n].count == w.stale[n] + |w.counted[n]|
      && forall v :: v in w.counted[n] ==>
           Ack(v, n, w.nodes[n].authEpoch) in w.votes && Ack(v, n, w.nodes[n].authEpoch) !in w.acks
  }

  predicate CountsOk(w: World) {
    forall n :: n in w.nodes ==> CountOk(w, n)
  }

  predicate WinsOk(voters: set<Name>, w: World) {
    forall x :: x in w.wins ==>
      && x.who in w.nodes && x.epoch <= w.nodes[x.who].cur
      && x.stale + |x.backers| >= Quorum(|voters|)
      && forall v :: v in x.backers ==> Ack(v, x.who, x.epoch) in w.votes
  }

  predicate Inv(voters: set<Name>, w: World) {
    EpochsOk(w) && RequestsOk(w) && VotesOk(voters, w) && CountsOk(w) && WinsOk(voters, w)
  }

  lemma HeaderKeeps(voters: set<Name>, w: World, n: Name, epoch: nat)
    requires Inv(voters, w) && Enabled(voters, w, Header(n, epoch))
    ensures Inv(voters, Apply(voters, w, Header(n, epoch)))
  {
    var t := Apply(voters, w, Header(n, epoch));
    assert forall m :: m in w.nodes ==> CountOk(w, m);
    assert forall m, e: nat :: Reached(w, m, e) ==> Reached(t, m, e);
  }

  lemma RequestKeeps(voters: set<Name>, w: World, n: Name, req: Request)
    requires Inv(voters, w) && Enabled(voters, w, AskVotes(n, req))
    ensures Inv(voters, Apply(voters, w, AskVotes(n, req)))
  {
    var t := Apply(voters, w, AskVotes(n, req));
    assert forall m :: m in w.nodes ==> CountOk(w, m);
    assert forall m, e: nat :: Reached(w, m, e) ==> Reached(t, m, e);
  }

  lemma VoteKeeps(voters: set<Name>, w: World, v: Name, req: Request, sight: Sight)
    requires Inv(voters, w) && Enabled(voters, w, Vote(v, req, sight))
    ensures Inv(voters, Apply(voters, w, Vote(v, req, sight)))
  {
    var t := Apply(voters, w, Vote(v, req, sight));
    assert forall m :: m in w.nodes ==> CountOk(w, m);
    assert forall m, e: nat :: Reached(w, m, e) ==> Reached(t, m, e);
    assert Reached(w, req.from, req.epoch);
    assert t.nodes[v].cur == req.epoch == t.nodes[v].lastVote;
    var ack := Ack(v, req.from, req.epoch);
    assert ack !in w.votes;
  }

  /** The receiver's own count. */
  lemma DeliverCount(voters: set<Name>, w: World, ack: Ack)
    requires Inv(voters, w) && Enabled(voters, w, Deliver(ack))
    ensures CountOk(Apply(voters, w, Deliver(ack)), ack.to)
  {
    hide RequestsOk, WinsOk, EpochsOk;
    var n := w.nodes[ack.to];
    assert CountOk(w, ack.to);
    assert Reached(w, ack.to, ack.epoch);
    if n.sent && ack.epoch >= n.authEpoch {
      assert ack == Ack(ack.from, ack.to, n.authEpoch);
      assert ack.from !in w.counted[ack.to];
    }
  }

  lemma DeliverCounts(voters: set<Name>, w: World, ack: Ack)
    requires Inv(voters, w) && Enabled(voters, w, Deliver(ack))
    ensures CountsOk(Apply(voters, w, Deliver(ack)))
  {
    hide RequestsOk, WinsOk, EpochsOk, VotesOk;
    var t := Apply(voters, w, Deliver(ack));
    DeliverCount(voters, w, ack);
    forall m | m in t.nodes && m != ack.to ensures CountOk(t, m) {
      assert CountOk(w, m);
    }
  }

  lemma DeliverKeeps(voters: set<Name>, w: World, ack: Ack)
    requires Inv(voters, w) && Enabled(voters, w, Deliver(ack))
    ensures Inv(voters, Apply(voters, w, Deliver(ack)))
  {
    hide CountsOk;
    var t := Apply(voters, w, Deliver(ack));
    DeliverCounts(voters, w, ack);
    assert forall m, e: nat :: Reached(w, m, e) ==> Reached(t, m, e);
  }

  lemma RetryKeeps(voters: set<Name>, w: World, n: Name)
    requires Inv(voters, w) && Enabled(voters, w, Retry(n))
    ensures Inv(voters, Apply(voters, w, Retry(n)))
  {
    var t := Apply(voters, w, Retry(n));
    assert forall m :: m in w.nodes ==> CountOk(w, m);
    assert forall m, e: nat :: Reached(w, m, e) ==> Reached(t, m, e);
  }

  lemma RestartKeeps(voters: set<Name>, w: World, n: Name)
    requires Inv(voters, w) && Enabled(voters, w, Restart(n))
    ensures Inv(voters, Apply(voters, w, Restart(n)))
  {
    var t := Apply(voters, w, Restart(n));
    assert forall m :: m in w.nodes ==> CountOk(w, m);
    assert forall m, e: nat :: Reached(w, m, e) ==> Reached(t, m, e);
  }

  lemma WinsKeeps(voters: set<Name>, w: World, n: Name)
    requires Inv(voters, w) && Enabled(voters, w, Wins(n))
    ensures Inv(voters, Apply(voters, w, Wins(n)))
  {
    var t := Apply(voters, w, Wins(n));
    assert forall m :: m in w.nodes ==> CountOk(w, m);
    assert forall m, e: nat :: Reached(w, m, e) ==> Reached(t, m, e);
  }

  lemma ApplyKeeps(voters: set<Name>, w: World, step: Step)
    requires Inv(voters, w) && Enabled(voters, w, step)
    ensures Inv(voters, Apply(voters, w, step))
  {
    hide Inv, Apply;
    match step
    case Header(n, epoch) => HeaderKeeps(voters, w, n, epoch);
    case AskVotes(n, req) => RequestKeeps(voters, w, n, req);
    case Vote(v, req, sight) => VoteKeeps(voters, w, v, req, sight);
    case Deliver(ack) => DeliverKeeps(voters, w, ack);
    case Retry(n) => RetryKeeps(voters, w, n);
    case Restart(n) => RestartKeeps(voters, w, n);
    case Wins(n) => WinsKeeps(voters, w, n);
  }

  lemma {:induction false} AfterInv(voters: set<Name>, w: World, steps: seq<Step>)
    requires Inv(voters, w) && Possible(voters, w, steps)
    ensures Inv(voters, After(voters, w, steps))
    decreases |steps|
  {
    hide Inv, Apply, Enabled;
    if steps != [] {
      ApplyKeeps(voters, w, steps[0]);
      AfterInv(voters, Apply(voters, w, steps[0]), steps[1..]);
    }
  }

  lemma InitialInv(voters: set<Name>, w: World)
    requires Initial(w)
    ensures Inv(voters, w)
  {
  }

  // ---------------------------------------------------------------- safety

  lemma MajoritiesMeet(a: set<Name>, b: set<Name>, all: set<Name>) returns (v: Name)
    requires a <= all && b <= all && |a| >= Quorum(|all|) && |b| >= Quorum(|all|)
    ensures v in a && v in b
  {
    SubsetSize(a + b, all);
    assert |a + b| + |a * b| == |a| + |b|;
    assert a * b != {};
    v :| v in a * b;
  }

  /** The quorum is the least majority. */
  lemma QuorumIsMajority(size: nat)
    ensures 2 * Quorum(size) > size && 2 * (Quorum(size) - 1) <= size
  {
  }

  /** At any point of any run, a vote that can be cast is one of a master that serves
      slots and has not voted in that epoch, for a replica of a master it knows and sees
      failed, unless forced, that it has not voted about for twice the timeout, and whose
      claim to each slot is at least as new as the owner the voter knows; and every such
      vote can be cast. */
  lemma VoteConditions(voters: set<Name>, start: World, past: seq<Step>, v: Name, req: Request, s: Sight)
    requires Initial(start) && Possible(voters, start, past) && |req.claimed| == |s.owners| == SLOTS
    ensures var w := After(voters, start, past);
            Enabled(voters, w, Vote(v, req, s)) <==>
            && v in w.nodes && req in w.requests
            && s.master && s.numslots > 0 && v in voters
            && w.nodes[v].cur <= req.epoch && w.nodes[v].lastVote < req.epoch
            && !s.senderIsMaster && s.masterKnown && (s.masterFailed || req.force)
            && s.now - s.votedTime >= 2 * s.timeout
            && forall j :: 0 <= j < SLOTS && req.claimed[j] ==> s.owners[j] <= req.configEpoch
  {
    hide Possible, After;
    InitialInv(voters, start);
    AfterInv(voters, start, past);
    var w := After(voters, start, past);
    if v in w.nodes {
      assert w.nodes[v].lastVote <= w.nodes[v].cur;
    }
  }

  /** In every run each master grants at most one vote per epoch. */
  lemma OneVotePerEpoch(voters: set<Name>, w: World, steps: seq<Step>, a: Ack, b: Ack)
    requires Initial(w) && Possible(voters, w, steps)
    requires a in After(voters, w, steps).votes && b in After(voters, w, steps).votes
    requires a.from == b.from && a.epoch == b.epoch
    ensures a.to == b.to
  {
    InitialInv(voters, w);
    AfterInv(voters, w, steps);
  }

  /** Election safety: in every run, two elections won in the same epoch, neither
      of which had votes counted before its request was sent, have one winner. */
  lemma ElectionSafety(voters: set<Name>, w: World, steps: seq<Step>, x: Win, y: Win)
    requires Initial(w) && Possible(voters, w, steps)
    requires x in After(voters, w, steps).wins && y in After(voters, w, steps).wins
    requires x.epoch == y.epoch && x.stale == 0 && y.stale == 0
    ensures x.who == y.who
  {
    InitialInv(voters, w);
    AfterInv(voters, w, steps);
    var t := After(voters, w, steps);
    assert forall v :: v in x.backers ==> Ack(v, x.who, x.epoch) in t.votes && v in voters;
    assert forall v :: v in y.backers ==> Ack(v, y.who, y.epoch) in t.votes && v in voters;
    var v := MajoritiesMeet(x.backers, y.backers, voters);
    assert Ack(v, x.who, x.epoch) in t.votes && Ack(v, y.who, y.epoch) in t.votes;
  }

  /** No vote of an older attempt is counted between the retry and the request. */
  predicate Clean(voters: set<Name>, w: World, steps: seq<Step>)
    requires Possible(voters, w, steps)
    decreases |steps|
  {
    steps == [] ||
    (&& (steps[0].AskVotes? ==> w.nodes[steps[0].n].count == 0)
     && Clean(voters, Apply(voters, w, steps[0]), steps[1..]))
  }

  predicate NoStale(w: World) {
    && (forall n :: n in w.stale ==> w.stale[n] == 0)
    && forall x :: x in w.wins ==> x.stale == 0
  }

  lemma {:induction false} CleanNoStale(voters: set<Name>, w: World, steps: seq<Step>)
    requires Possible(voters, w, steps) && Clean(voters, w, steps) && NoStale(w)
    ensures NoStale(After(voters, w, steps))
    decreases |steps|
  {
    if steps != [] {
      CleanNoStale(voters, Apply(voters, w, steps[0]), steps[1..]);
    }
  }

  /** In every run in which no vote of an older attempt is counted after a retry
      was scheduled, no two replicas win an election with the same epoch. */
  lemma CleanRunsAreSafe(voters: set<Name>, w: World, steps: seq<Step>, x: Win, y: Win)
    requires Initial(w) && Possible(voters, w, steps) && Clean(voters, w, steps)
    requires x in After(voters, w, steps).wins && y in After(voters, w, steps).wins && x.epoch == y.epoch
    ensures x.who == y.who
  {
    hide Possible, Clean, After;
    CleanNoStale(voters, w, steps);
    ElectionSafety(voters, w, steps, x, y);
  }

  /** In every run the count of a running attempt is exactly the votes counted
      before its request plus the number of masters whose vote for this replica
      in this epoch arrived. */
  lemma CountIsVotes(voters: set<Name>, w: World, steps: seq<Step>, n: Name)
    requires Initial(w) && Possible(voters, w, steps)
    requires n in After(voters, w, steps).nodes && After(voters, w, steps).nodes[n].sent
    ensures var t := After(voters, w, steps);
            && n in t.stale && n in t.counted
            && t.nodes[n].count == t.stale[n] + |t.counted[n]|
            && t.counted[n] <= voters
            && forall v :: v in t.counted[n] ==> Ack(v, n, t.nodes[n].authEpoch) in t.votes
  {
    InitialInv(voters, w);
    AfterInv(voters, w, steps);
    var t := After(voters, w, steps);
    assert CountOk(t, n);
    forall v | v in t.counted[n] ensures v in voters {
      assert Ack(v, n, t.nodes[n].authEpoch) in t.votes;
    }
  }

  // ---------------------------------------------------------------- what winning is for

  /** Only winning changes a node's config epoch: it becomes the election's if that is
      greater. */
  lemma ConfigAfterStep(voters: set<Name>, w: World, step: Step, n: Name)
    requires Enabled(voters, w, step) && n in w.nodes
    ensures n in Apply(voters, w, step).nodes
    ensures var before, after := w.nodes[n].configEpoch, Apply(voters, w, step).nodes[n].configEpoch;
            after == if step == Wins(n) && before < w.nodes[n].authEpoch then w.nodes[n].authEpoch else before
  {
  }

  /** In every run a winner takes the epoch of its election as its config epoch, unless
      it already has a greater one, and the win is recorded under that epoch. */
  lemma WinTakesEpoch(voters: set<Name>, start: World, past: seq<Step>, n: Name)
    requires Initial(start) && Possible(voters, start, past) && Enabled(voters, After(voters, start, past), Wins(n))
    ensures var w := After(voters, start, past);
            var t := Apply(voters, w, Wins(n));
            && t.nodes[n].configEpoch >= w.nodes[n].authEpoch
            && (w.nodes[n].configEpoch < w.nodes[n].authEpoch ==> t.nodes[n].configEpoch == w.nodes[n].authEpoch)
            && exists x :: x in t.wins && x.who == n && x.epoch == w.nodes[n].authEpoch
  {
    var w := After(voters, start, past);
    ConfigAfterStep(voters, w, Wins(n), n);
    assert Win(n, w.nodes[n].authEpoch, w.stale[n], w.counted[n]) in Apply(voters, w, Wins(n)).wins;
  }

  /** No config epoch ever falls. */
  lemma {:induction false} ConfigNeverFalls(voters: set<Name>, w: World, steps: seq<Step>, n: Name)
    requires Possible(voters, w, steps) && n in w.nodes
    ensures n in After(voters, w, steps).nodes && After(voters, w, steps).nodes[n].configEpoch >= w.nodes[n].configEpoch
    decreases |steps|
  {
    hide Apply, Enabled;
    if steps != [] {
      ConfigAfterStep(voters, w, steps[0], n);
      ConfigNeverFalls(voters, Apply(voters, w, steps[0]), steps[1..], n);
    }
  }

  /** `n` has the config epoch it started with or that of an election it won. */
  predicate ConfigWon(start: World, w: World, n: Name) {
    && n in start.nodes && n in w.nodes
    && (|| w.nodes[n].configEpoch == start.nodes[n].configEpoch
        || exists x :: x in w.wins && x.who == n && x.epoch == w.nodes[n].configEpoch)
  }

  lemma ConfigWonStep(voters: set<Name>, start: World, w: World, step: Step, n: Name)
    requires Enabled(voters, w, step) && ConfigWon(start, w, n)
    ensures ConfigWon(start, Apply(voters, w, step), n)
  {
    ConfigAfterStep(voters, w, step, n);
    var t := Apply(voters, w, step);
    if step == Wins(n) {
      assert Win(n, w.nodes[n].authEpoch, w.stale[n], w.counted[n]) in t.wins;
    }
    assert w.wins <= t.wins;
  }

  lemma {:induction false} ConfigWonStays(voters: set<Name>, start: World, w: World, steps: seq<Step>, n: Name)
    requires Possible(voters, w, steps) && ConfigWon(start, w, n)
    ensures ConfigWon(start, After(voters, w, steps), n)
    decreases |steps|
  {
    hide Apply, Enabled, ConfigWon;
    if steps != [] {
      ConfigWonStep(voters, start, w, steps[0], n);
      ConfigWonStays(voters, start, Apply(voters, w, steps[0]), steps[1..], n);
    }
  }

  /** What elections are for: in every run in which no vote of an older attempt is
      counted after a retry, two nodes whose config epochs have changed since the start
      have different ones. */
  lemma ElectedEpochsDiffer(voters: set<Name>, start: World, steps: seq<Step>, m: Name, n: Name)
    requires Initial(start) && Possible(voters, start, steps) && Clean(voters, start, steps)
    requires m in start.nodes && n in start.nodes && m != n
    ensures var t := After(voters, start, steps);
            && m in t.nodes && n in t.nodes
            && (t.nodes[m].configEpoch != start.nodes[m].configEpoch && t.nodes[n].configEpoch != start.nodes[n].configEpoch ==>
                  t.nodes[m].configEpoch != t.nodes[n].configEpoch)
  {
    hide Possible, Clean, After;
    var t := After(voters, start, steps);
    ConfigWonStays(voters, start, start, steps, m);
    ConfigWonStays(voters, start, start, steps, n);
    if t.nodes[m].configEpoch != start.nodes[m].configEpoch && t.nodes[n].configEpoch != start.nodes[n].configEpoch {
      var x :| x in t.wins && x.who == m && x.epoch == t.nodes[m].configEpoch;
      var y :| y in t.wins && y.who == n && y.epoch == t.nodes[n].configEpoch;
      if x.epoch == y.epoch {
        CleanRunsAreSafe(voters, start, steps, x, y);
      }
    }
  }

  // ---------------------------------------------------------------- votes counted too early

  /** `n` wins in `epoch` although fewer masters than a majority voted for it. */
  predicate UnbackedWin(voters: set<Name>, w: World, n: Name, epoch: nat) {
    exists x :: x in w.wins && x.who == n && x.epoch == epoch && |x.backers| < Quorum(|voters|)
  }

  /** While `n` is not past `epoch`, or past it without a win in it that started
      with another count than `stale`. */
  predicate StartedWith(w: World, n: Name, epoch: nat, stale: nat) {
    && n in w.nodes && w.nodes[n].cur >= epoch
    && (w.nodes[n].sent && w.nodes[n].authEpoch == epoch ==> n in w.stale && w.stale[n] == stale)
    && forall x :: x in w.wins && x.who == n && x.epoch == epoch ==> x.stale == stale
  }

  lemma {:induction false} StartStays(voters: set<Name>, w: World, steps: seq<Step>, n: Name, epoch: nat, stale: nat)
    requires Possible(voters, w, steps) && StartedWith(w, n, epoch, stale)
    ensures StartedWith(After(voters, w, steps), n, epoch, stale)
    decreases |steps|
  {
    if steps != [] {
      var t := Apply(voters, w, steps[0]);
      assert StartedWith(t, n, epoch, stale);
      StartStays(voters, t, steps[1..], n, epoch, stale);
    }
  }

  function Nobody(): seq<int> { seq(SLOTS, _ => -1) }

  /** A master of an up-to-date configuration that sees the replica's master failed. */
  function Willing(): Sight { Sight(true, 1, false, true, true, 0, 0, 0, Nobody()) }

  /** The masters `some` can vote for `n` in its running attempt. */
  predicate CanVote(voters: set<Name>, w: World, n: Name, req: Request, some: set<Name>) {
    && n in w.nodes && n in w.counted && n in w.stale && n !in some && some <= voters
    && w.nodes[n].sent && w.nodes[n].authEpoch == w.nodes[n].cur == req.epoch
    && req in w.requests && req.from == n && w.counted[n] !! some
    && forall v :: v in some ==> v in w.nodes && w.nodes[v].cur <= req.epoch && w.nodes[v].lastVote < req.epoch
  }

  /** One master votes and its vote arrives. */
  lemma CollectOne(voters: set<Name>, w: World, n: Name, req: Request, some: set<Name>, v: Name)
    returns (t: World, steps: seq<Step>)
    requires CanVote(voters, w, n, req, some) && v in some
    ensures Possible(voters, w, steps) && t == After(voters, w, steps)
    ensures CanVote(voters, t, n, req, some - {v})
    ensures t.nodes[n].count == w.nodes[n].count + 1 && t.counted[n] == w.counted[n] + {v}
    ensures t.stale == w.stale
  {
    hide Possible, After;
    var a, b := Vote(v, req, Willing()), Deliver(Ack(v, n, req.epoch));
    assert VotesFor(Hear(w.nodes[v], req.epoch), req, Willing());
    var w1 := Apply(voters, w, a);
    assert Enabled(voters, w1, b);
    t := Apply(voters, w1, b);
    steps := [a] + [b];
    OneStep(voters, w, a);
    OneStep(voters, w1, b);
    AfterConcat(voters, w, [a], [b]);
  }

  lemma {:induction false} AfterConcat(voters: set<Name>, w: World, a: seq<Step>, b: seq<Step>)
    requires Possible(voters, w, a) && Possible(voters, After(voters, w, a), b)
    ensures Possible(voters, w, a + b)
    ensures After(voters, w, a + b) == After(voters, After(voters, w, a), b)
    decreases |a|
  {
    hide Enabled, Apply;
    if a == [] {
      assert a + b == b;
    } else {
      assert (a + b)[1..] == a[1..] + b;
      AfterConcat(voters, Apply(voters, w, a[0]), a[1..], b);
    }
  }

  lemma {:induction false} CollectVotes(voters: set<Name>, w: World, n: Name, req: Request, some: set<Name>)
    returns (t: World, steps: seq<Step>)
    requires CanVote(voters, w, n, req, some)
    ensures Possible(voters, w, steps) && t == After(voters, w, steps)
    ensures CanVote(voters, t, n, req, {})
    ensures t.nodes[n].count == w.nodes[n].count + |some| && t.counted[n] == w.counted[n] + some
    ensures t.stale == w.stale
    decreases some
  {
    hide Possible, After;
    if some == {} {
      NoSteps(voters, w);
      return w, [];
    }
    var v :| v in some;
    var w1, first := CollectOne(voters, w, n, req, some, v);
    var rest: seq<Step>;
    t, rest := CollectVotes(voters, w1, n, req, some - {v});
    AfterConcat(voters, w, first, rest);
    steps := first + rest;
    assert {v} + (some - {v}) == some;
  }

  lemma NoSteps(voters: set<Name>, w: World)
    ensures Possible(voters, w, []) && After(voters, w, []) == w
  {
  }

  lemma OneStep(voters: set<Name>, w: World, step: Step)
    requires Enabled(voters, w, step)
    ensures Possible(voters, w, [step]) && After(voters, w, [step]) == Apply(voters, w, step)
  {
    assert [step][1..] == [];
  }

  lemma {:induction false} SomeOf(all: set<Name>, k: nat) returns (some: set<Name>)
    requires k <= |all|
    ensures some <= all && |some| == k
    decreases all
  {
    if k == |all| { return all; }
    var x :| x in all;
    some := SomeOf(all - {x}, k);
  }

  /** Masters that can still vote in `epoch`: not past it, and without a vote in it. */
  function Able(voters: set<Name>, w: World, epoch: nat): set<Name> {
    set v | v in voters && v in w.nodes && w.nodes[v].cur <= epoch && w.nodes[v].lastVote < epoch
  }

  /** With votes already counted a minority is enough: the run in which the request
      is sent and just enough masters vote. */
  lemma StaleWins(voters: set<Name>, w: World, n: Name, req: Request) returns (steps: seq<Step>)
    requires Enabled(voters, w, AskVotes(n, req)) && n !in voters
    requires w.nodes[n].count > 0 && w.nodes[n].count + |Able(voters, w, req.epoch)| >= Quorum(|voters|)
    ensures steps != [] && steps[0] == AskVotes(n, req) && Possible(voters, w, steps)
    ensures UnbackedWin(voters, After(voters, w, steps), n, req.epoch)
  {
    hide Possible, After;
    var first := AskVotes(n, req);
    var w1 := Apply(voters, w, first);
    OneStep(voters, w, first);
    var k := w1.nodes[n].count;
    var some := SomeOf(Able(voters, w, req.epoch), if k >= Quorum(|voters|) then 0 else Quorum(|voters|) - k);
    assert CanVote(voters, w1, n, req, some);
    var w2, rest := CollectVotes(voters, w1, n, req, some);
    AfterConcat(voters, w, [first], rest);
    OneStep(voters, w2, Wins(n));
    AfterConcat(voters, w, [first] + rest, [Wins(n)]);
    steps := [first] + rest + [Wins(n)];
    var win := Win(n, req.epoch, k, {} + some);
    assert {} + some == some;
    assert win in Apply(voters, w2, Wins(n)).wins;
  }

  /** The votes for `n` in `epoch` are of masters in `able`, and no other can vote in it. */
  predicate OnlyAble(voters: set<Name>, w: World, n: Name, epoch: nat, able: set<Name>) {
    && (forall a :: a in w.votes && a.to == n && a.epoch == epoch ==> a.from in able)
    && forall v :: v in voters && v in w.nodes && v !in able ==> w.nodes[v].cur > epoch || w.nodes[v].lastVote >= epoch
  }

  lemma AbleKept(voters: set<Name>, w: World, step: Step, n: Name, epoch: nat, able: set<Name>)
    requires EpochsOk(w) && Enabled(voters, w, step) && OnlyAble(voters, w, n, epoch, able)
    ensures OnlyAble(voters, Apply(voters, w, step), n, epoch, able)
  {
  }

  lemma {:induction false} AbleStays(voters: set<Name>, w: World, steps: seq<Step>, n: Name, epoch: nat, able: set<Name>)
    requires Inv(voters, w) && Possible(voters, w, steps) && OnlyAble(voters, w, n, epoch, able)
    ensures OnlyAble(voters, After(voters, w, steps), n, epoch, able)
    decreases |steps|
  {
    hide Apply, Enabled, OnlyAble;
    if steps != [] {
      AbleKept(voters, w, steps[0], n, epoch, able);
      ApplyKeeps(voters, w, steps[0]);
      AbleStays(voters, Apply(voters, w, steps[0]), steps[1..], n, epoch, able);
    }
  }

  /** Whoever wins the election that starts here had the count of this moment, and the
      votes of masters that were able to vote at this moment. */
  lemma WinsFromHere(voters: set<Name>, w: World, n: Name, req: Request, steps: seq<Step>, x: Win)
    requires Inv(voters, w) && Enabled(voters, w, AskVotes(n, req))
    requires steps != [] && steps[0] == AskVotes(n, req) && Possible(voters, w, steps)
    requires x in After(voters, w, steps).wins && x.who == n && x.epoch == req.epoch
    ensures x.stale == w.nodes[n].count && x.backers <= Able(voters, w, req.epoch)
    ensures x.stale + |x.backers| >= Quorum(|voters|)
  {
    AfterInv(voters, w, steps);
    var w1 := Apply(voters, w, steps[0]);
    assert StartedWith(w1, n, req.epoch, w.nodes[n].count);
    StartStays(voters, w1, steps[1..], n, req.epoch, w.nodes[n].count);
    var able := Able(voters, w, req.epoch);
    assert OnlyAble(voters, w, n, req.epoch, able);
    AbleStays(voters, w, steps, n, req.epoch, able);
    forall v | v in x.backers ensures v in able {
      assert Ack(v, n, req.epoch) in After(voters, w, steps).votes;
    }
  }

  /** The replica can come to win the election it is about to ask for without a majority. */
  ghost predicate CanWinUnbacked(voters: set<Name>, w: World, n: Name, req: Request) {
    exists steps :: && steps != [] && steps[0] == AskVotes(n, req) && Possible(voters, w, steps)
                    && UnbackedWin(voters, After(voters, w, steps), n, req.epoch)
  }

  /** Exactly when the count cannot be trusted: at any point of any run, a replica
      about to ask for votes can come to win without a majority if and only if votes
      are already counted at that moment, and with those of the masters that can still
      vote in the new epoch they reach a majority. */
  lemma UnbackedWinIff(voters: set<Name>, start: World, past: seq<Step>, n: Name, req: Request)
    requires Initial(start) && Possible(voters, start, past) && n !in voters
    requires Enabled(voters, After(voters, start, past), AskVotes(n, req))
    ensures var w := After(voters, start, past);
            CanWinUnbacked(voters, w, n, req) <==>
            w.nodes[n].count > 0 && w.nodes[n].count + |Able(voters, w, req.epoch)| >= Quorum(|voters|)
  {
    hide Enabled, Apply, Inv, Able, Possible, After;
    InitialInv(voters, start);
    AfterInv(voters, start, past);
    var w := After(voters, start, past);
    AskedOf(voters, w, n, req);
    if w.nodes[n].count > 0 && w.nodes[n].count + |Able(voters, w, req.epoch)| >= Quorum(|voters|) {
      var steps := StaleWins(voters, w, n, req);
    } else {
      forall steps | steps != [] && steps[0] == AskVotes(n, req) && Possible(voters, w, steps)
        ensures !UnbackedWin(voters, After(voters, w, steps), n, req.epoch)
      {
        NoUnbackedWin(voters, w, n, req, steps);
      }
    }
  }

  lemma AskedOf(voters: set<Name>, w: World, n: Name, req: Request)
    requires Enabled(voters, w, AskVotes(n, req))
    ensures n in w.nodes
  {
  }

  lemma NoUnbackedWin(voters: set<Name>, w: World, n: Name, req: Request, steps: seq<Step>)
    requires Inv(voters, w) && Enabled(voters, w, AskVotes(n, req))
    requires w.nodes[n].count == 0 || w.nodes[n].count + |Able(voters, w, req.epoch)| < Quorum(|voters|)
    requires steps != [] && steps[0] == AskVotes(n, req) && Possible(voters, w, steps)
    ensures !UnbackedWin(voters, After(voters, w, steps), n, req.epoch)
  {
    hide Apply, Inv, Able, Possible, After;
    forall x | x in After(voters, w, steps).wins && x.who == n && x.epoch == req.epoch
      ensures |x.backers| >= Quorum(|voters|)
    {
      WinsFromHere(voters, w, n, req, steps, x);
      SubsetSize(x.backers, Able(voters, w, req.epoch));
    }
  }

  // ---------------------------------------------------------------- two winners

  function NoClaim(): seq<bool> { seq(SLOTS, _ => false) }

  function Fresh(epoch: nat): Member { Member(epoch, 0, 0, 0, false, 0) }

  /** Masters 1, 2 and 3, replicas 10 and 11. */
  function Cluster(): World {
    World(map[1 := Fresh(0), 2 := Fresh(0), 3 := Fresh(0), 10 := Fresh(0), 11 := Fresh(1)],
          {}, {}, {}, {}, map[], map[])
  }

  /** Replica 10 asks in epoch 1 and masters 1 and 2 vote. */
  function EarlyVotes(): seq<Step> {
    var req := Request(10, 1, 0, NoClaim(), false);
    [AskVotes(10, req)] + [Vote(1, req, Willing())] + [Vote(2, req, Willing())]
  }

  /** Replica 10 schedules a retry; then the two votes arrive and are counted. */
  function LateArrivals(): seq<Step> {
    [Retry(10)] + [Deliver(Ack(1, 10, 1))] + [Deliver(Ack(2, 10, 1))]
  }

  lemma ThreeSteps(voters: set<Name>, w: World, a: Step, b: Step, c: Step)
    requires Enabled(voters, w, a)
    requires var w1 := Apply(voters, w, a);
             && Enabled(voters, w1, b)
             && Enabled(voters, Apply(voters, w1, b), c)
    ensures Possible(voters, w, [a] + [b] + [c])
    ensures After(voters, w, [a] + [b] + [c]) == Apply(voters, Apply(voters, Apply(voters, w, a), b), c)
  {
    hide Possible, After, Enabled, Apply;
    var w1 := Apply(voters, w, a);
    var w2 := Apply(voters, w1, b);
    OneStep(voters, w, a);
    OneStep(voters, w1, b);
    OneStep(voters, w2, c);
    AfterConcat(voters, w, [a], [b]);
    AfterConcat(voters, w, [a] + [b], [c]);
  }

  lemma EarlyVotesCast() returns (w: World)
    ensures Possible({1, 2, 3}, Cluster(), EarlyVotes()) && w == After({1, 2, 3}, Cluster(), EarlyVotes())
    ensures w.nodes == map[1 := Fresh(1).(lastVote := 1), 2 := Fresh(1).(lastVote := 1), 3 := Fresh(0),
                           10 := Member(1, 0, 1, 0, true, 0), 11 := Fresh(1)]
    ensures w.acks == {Ack(1, 10, 1), Ack(2, 10, 1)} && w.wins == {}
  {
    hide Possible, After;
    var voters: set<Name> := {1, 2, 3};
    var req := Request(10, 1, 0, NoClaim(), false);
    var a, b, c := AskVotes(10, req), Vote(1, req, Willing()), Vote(2, req, Willing());
    var w1 := Apply(voters, Cluster(), a);
    var w2 := Apply(voters, w1, b);
    ThreeSteps(voters, Cluster(), a, b, c);
    w := Apply(voters, w2, c);
  }

  lemma LateVotesCounted() returns (w: World)
    ensures var steps := EarlyVotes() + LateArrivals();
            Possible({1, 2, 3}, Cluster(), steps) && w == After({1, 2, 3}, Cluster(), steps)
    ensures w.nodes == map[1 := Fresh(1).(lastVote := 1), 2 := Fresh(1).(lastVote := 1), 3 := Fresh(0),
                           10 := Member(1, 0, 1, 2, false, 0), 11 := Fresh(1)]
    ensures w.acks == {} && w.wins == {}
  {
    hide Possible, After, EarlyVotes;
    var voters: set<Name> := {1, 2, 3};
    var w0 := EarlyVotesCast();
    var a, b, c := Retry(10), Deliver(Ack(1, 10, 1)), Deliver(Ack(2, 10, 1));
    var w1 := Apply(voters, w0, a);
    var w2 := Apply(voters, w1, b);
    ThreeSteps(voters, w0, a, b, c);
    w := Apply(voters, w2, c);
    AfterConcat(voters, Cluster(), EarlyVotes(), LateArrivals());
  }

  /** Without the premise safety fails: replica 10 then asks in epoch 2 with the two
      old votes still counted and wins at once; replica 11 asks in epoch 2 as well,
      masters 1 and 2 vote for it, and it wins the same epoch. */
  lemma TwoWinners() returns (steps: seq<Step>, x: Win, y: Win)
    ensures Initial(Cluster()) && Possible({1, 2, 3}, Cluster(), steps)
    ensures x in After({1, 2, 3}, Cluster(), steps).wins && y in After({1, 2, 3}, Cluster(), steps).wins
    ensures x.epoch == y.epoch && x.who != y.who
  {
    hide Possible, After, EarlyVotes, LateArrivals;
    var voters: set<Name> := {1, 2, 3};
    var q := Request(11, 2, 0, NoClaim(), false);
    var w, first := StaleWinner(q);
    var t, collect := CollectVotes(voters, w, 11, q, {1, 2});
    OneStep(voters, t, Wins(11));
    AfterConcat(voters, Cluster(), first, collect);
    AfterConcat(voters, Cluster(), first + collect, [Wins(11)]);
    x := Win(10, 2, 2, {});
    y := Win(11, 2, 0, {} + {1, 2});
    WinsKept(voters, w, collect, x);
    steps := first + collect + [Wins(11)];
  }

  /** Replica 10 has won epoch 2 without a vote; replica 11 has just asked for votes
      in epoch 2. */
  lemma StaleWinner(q: Request) returns (w: World, steps: seq<Step>)
    requires q == Request(11, 2, 0, NoClaim(), false)
    ensures Possible({1, 2, 3}, Cluster(), steps) && w == After({1, 2, 3}, Cluster(), steps)
    ensures Win(10, 2, 2, {}) in w.wins
    ensures CanVote({1, 2, 3}, w, 11, q, {1, 2}) && w.nodes[11].count == 0 && w.stale[11] == 0 && w.counted[11] == {}
  {
    hide Possible, After, EarlyVotes, LateArrivals;
    var voters: set<Name> := {1, 2, 3};
    var w0 := LateVotesCounted();
    var a, b, c := AskVotes(10, Request(10, 2, 0, NoClaim(), false)), Wins(10), AskVotes(11, q);
    var w1 := Apply(voters, w0, a);
    var w2 := Apply(voters, w1, b);
    ThreeSteps(voters, w0, a, b, c);
    w := Apply(voters, w2, c);
    steps := (EarlyVotes() + LateArrivals()) + ([a] + [b] + [c]);
    AfterConcat(voters, Cluster(), EarlyVotes() + LateArrivals(), [a] + [b] + [c]);
  }

  lemma {:induction false} WinsKept(voters: set<Name>, w: World, steps: seq<Step>, x: Win)
    requires Possible(voters, w, steps) && x in w.wins
    ensures x in After(voters, w, steps).wins
    decreases |steps|
  {
    if steps != [] {
      WinsKept(voters, Apply(voters, w, steps[0]), steps[1..], x);
    }
  }
}
