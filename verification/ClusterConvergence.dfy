/** Slot tables converge: whatever the order and repetition in which the masters'
    claims arrive, each slot ends with the claimant of the greatest epoch. */
module ClusterConvergence {
  import opened ClusterBasics
  import opened ClusterSlots

  /** A master's claim: its epoch and its bitmap. */
  datatype Claim = Claim(epoch: nat, bitmap: seq<bv8>)

  /** One node's view: slot owners and known epochs. */
  datatype View = View(owners: seq<int>, epochs: map<int, nat>)

  predicate ClaimsOk(claims: map<int, Claim>) {
    && NONE !in claims && (forall n :: n in claims ==> |claims[n].bitmap| == BYTES)
    && forall m, n :: m in claims && n in claims && m != n ==> claims[m].epoch != claims[n].epoch
  }

  predicate ViewOk(v: View) {
    |v.owners| == SLOTS && forall j :: 0 <= j < SLOTS && v.owners[j] != NONE ==> v.owners[j] in v.epochs
  }

  /** The header raises the sender's known epoch, then the claim takes slots. */
  function Deliver(v: View, sender: int, c: Claim, importing: seq<bool>): (r: View)
    requires ViewOk(v) && sender in v.epochs && |c.bitmap| == BYTES && |importing| == SLOTS
    ensures ViewOk(r)
  {
    var epochs := if c.epoch > v.epochs[sender] then v.epochs[sender := c.epoch] else v.epochs;
    View(seq(SLOTS, j requires 0 <= j < SLOTS =>
           if Rebinds(v.owners[j], sender, c.epoch, TestBit(c.bitmap, j), importing[j], epochs) then sender
           else v.owners[j]),
         epochs)
  }

  /** The packet handler skips the scan when the bitmap it has of the sender is the
      one claimed. That skips nothing: no slot would change hands. */
  lemma SameBitmapChangesNothing(t: Table, sender: int, epoch: nat, importing: bool, epochs: map<int, nat>, j: nat)
    requires Agrees(t) && sender in t.bitmaps && j < SLOTS
    ensures |t.bitmaps[sender]| == BYTES
    ensures !Rebinds(t.owners[j], sender, epoch, TestBit(t.bitmaps[sender], j), importing, epochs)
  {
    hide Agrees, TestBit;
    BitIs(t, sender, j);
  }

  /** No delivery unassigns a slot or lowers the known epoch of a slot's owner. */
  lemma OwnerEpochNeverFalls(v: View, sender: int, c: Claim, importing: seq<bool>, j: nat)
    requires ViewOk(v) && sender in v.epochs && |c.bitmap| == BYTES && |importing| == SLOTS
    requires j < SLOTS && v.owners[j] != NONE && sender != NONE
    ensures var r := Deliver(v, sender, c, importing);
            r.owners[j] != NONE && r.epochs[r.owners[j]] >= v.epochs[v.owners[j]]
  {
    hide TestBit;
  }

  // ---------------------------------------------------------------- runs

  /** The claims of `order` arrive one after the other. */
  function DeliverAll(v: View, claims: map<int, Claim>, order: seq<int>, importing: seq<bool>): (r: View)
    requires ViewOk(v) && ClaimsOk(claims) && claims.Keys <= v.epochs.Keys && |importing| == SLOTS
    requires forall i :: 0 <= i < |order| ==> order[i] in claims
    ensures ViewOk(r)
    decreases |order|
  {
    if order == [] then v
    else
      var next := Deliver(v, order[0], claims[order[0]], importing);
      assert claims.Keys <= next.epochs.Keys;
      DeliverAll(next, claims, order[1..], importing)
  }

  /** Slot `j`, first owned by `first`, after the claims of `seen` arrived: its owner
      claims it or is still the first, and is known under an epoch no smaller than
      that of any claimant seen. */
  predicate SlotOk(v: View, claims: map<int, Claim>, first: int, seen: set<int>, j: nat)
    requires ViewOk(v) && ClaimsOk(claims) && j < SLOTS
  {
    && (v.owners[j] == first || (v.owners[j] in claims && TestBit(claims[v.owners[j]].bitmap, j)))
    && forall n :: n in seen && n in claims && TestBit(claims[n].bitmap, j) ==>
         v.owners[j] != NONE && v.epochs[v.owners[j]] >= claims[n].epoch
  }

  predicate EpochsOk(v: View, claims: map<int, Claim>, seen: set<int>) {
    && claims.Keys <= v.epochs.Keys
    && forall n :: n in claims ==>
         v.epochs[n] <= claims[n].epoch && (n in seen ==> v.epochs[n] == claims[n].epoch)
  }

  lemma DeliverEpochs(v: View, claims: map<int, Claim>, seen: set<int>, sender: int, importing: seq<bool>)
    requires ViewOk(v) && ClaimsOk(claims) && sender in claims && |importing| == SLOTS
    requires EpochsOk(v, claims, seen)
    ensures var r := Deliver(v, sender, claims[sender], importing);
            && EpochsOk(r, claims, seen + {sender})
            && forall n :: n in v.epochs && n !in claims ==> n in r.epochs && r.epochs[n] == v.epochs[n]
  {
    hide TestBit;
  }

  lemma DeliverSlot(v: View, claims: map<int, Claim>, first: int, seen: set<int>, sender: int, importing: seq<bool>, j: nat)
    requires ViewOk(v) && ClaimsOk(claims) && sender in claims && |importing| == SLOTS
    requires EpochsOk(v, claims, seen) && j < SLOTS && !importing[j] && SlotOk(v, claims, first, seen, j)
    ensures SlotOk(Deliver(v, sender, claims[sender], importing), claims, first, seen + {sender}, j)
  {
    hide TestBit;
  }

  /** Every claim arrives at least once, in any order and with any repetition. */
  predicate Covers(order: seq<int>, claims: map<int, Claim>) {
    && (forall i :: 0 <= i < |order| ==> order[i] in claims)
    && forall n :: n in claims ==> n in order
  }

  lemma {:induction false} RunSlot(v: View, claims: map<int, Claim>, first: int, seen: set<int>, order: seq<int>, importing: seq<bool>, j: nat)
    requires ViewOk(v) && ClaimsOk(claims) && |importing| == SLOTS
    requires forall i :: 0 <= i < |order| ==> order[i] in claims
    requires EpochsOk(v, claims, seen) && j < SLOTS && !importing[j] && SlotOk(v, claims, first, seen, j)
    ensures var r := DeliverAll(v, claims, order, importing);
            var all := seen + set n | n in order;
            && EpochsOk(r, claims, all) && SlotOk(r, claims, first, all, j)
            && forall n :: n in v.epochs && n !in claims ==> n in r.epochs && r.epochs[n] == v.epochs[n]
    decreases |order|
  {
    hide Deliver, SlotOk, TestBit, EpochsOk;
    if order == [] {
      assert seen + (set n | n in order) == seen;
    } else {
      var x := order[0];
      assert claims.Keys <= v.epochs.Keys by { Claimants(v, claims, seen); }
      DeliverEpochs(v, claims, seen, x, importing);
      DeliverSlot(v, claims, first, seen, x, importing, j);
      RunSlot(Deliver(v, x, claims[x], importing), claims, first, seen + {x}, order[1..], importing, j);
      assert order == [x] + order[1..];
      assert (seen + {x}) + (set n | n in order[1..]) == seen + set n | n in order;
    }
  }

  lemma Claimants(v: View, claims: map<int, Claim>, seen: set<int>)
    requires EpochsOk(v, claims, seen)
    ensures claims.Keys <= v.epochs.Keys
  {
  }

  /** Node `m` claims slot `j` with the greatest epoch of all its claimants. */
  predicate Greatest(claims: map<int, Claim>, j: nat, m: int)
    requires ClaimsOk(claims) && j < SLOTS
  {
    && m in claims && TestBit(claims[m].bitmap, j)
    && forall n :: n in claims && n != m && TestBit(claims[n].bitmap, j) ==> claims[n].epoch < claims[m].epoch
  }

  /** The present owner of slot `j` lets go of it: there is none, it is a claimant
      itself, or the greatest epoch it will be known under is below that of `m`. */
  predicate Yields(v: View, claims: map<int, Claim>, j: nat, m: int)
    requires ViewOk(v) && ClaimsOk(claims) && j < SLOTS && m in claims
  {
    var o := v.owners[j];
    || o == NONE
    || (o in claims && TestBit(claims[o].bitmap, j))
    || (if o in claims then claims[o].epoch else v.epochs[o]) < claims[m].epoch
  }

  /** Convergence: once every claim has arrived, in whatever order, a slot not being
      imported whose owner yields is owned by its claimant of greatest epoch. */
  lemma SlotsConverge(v: View, claims: map<int, Claim>, order: seq<int>, importing: seq<bool>, j: nat, m: int)
    requires ViewOk(v) && ClaimsOk(claims) && |importing| == SLOTS
    requires EpochsOk(v, claims, {}) && j < SLOTS && !importing[j] && Covers(order, claims)
    requires Greatest(claims, j, m) && Yields(v, claims, j, m)
    ensures DeliverAll(v, claims, order, importing).owners[j] == m
  {
    hide Deliver, TestBit, DeliverAll;
    RunSlot(v, claims, v.owners[j], {}, order, importing, j);
    var r := DeliverAll(v, claims, order, importing);
    assert m in {} + set n | n in order;
    assert r.epochs[r.owners[j]] >= claims[m].epoch;
  }

  /** A slot that nobody claims keeps its owner, whoever that is. */
  lemma {:induction false} UnclaimedStays(v: View, claims: map<int, Claim>, order: seq<int>, importing: seq<bool>, j: nat)
    requires ViewOk(v) && ClaimsOk(claims) && claims.Keys <= v.epochs.Keys && |importing| == SLOTS
    requires forall i :: 0 <= i < |order| ==> order[i] in claims
    requires j < SLOTS && forall n :: n in claims ==> !TestBit(claims[n].bitmap, j)
    ensures DeliverAll(v, claims, order, importing).owners[j] == v.owners[j]
    decreases |order|
  {
    hide TestBit;
    if order != [] {
      UnclaimedStays(Deliver(v, order[0], claims[order[0]], importing), claims, order[1..], importing, j);
    }
  }

  /** A slot being imported keeps its owner, whoever claims it. */
  lemma {:induction false} ImportedStays(v: View, claims: map<int, Claim>, order: seq<int>, importing: seq<bool>, j: nat)
    requires ViewOk(v) && ClaimsOk(claims) && claims.Keys <= v.epochs.Keys && |importing| == SLOTS
    requires forall i :: 0 <= i < |order| ==> order[i] in claims
    requires j < SLOTS && importing[j]
    ensures DeliverAll(v, claims, order, importing).owners[j] == v.owners[j]
    decreases |order|
  {
    hide TestBit;
    if order != [] {
      ImportedStays(Deliver(v, order[0], claims[order[0]], importing), claims, order[1..], importing, j);
    }
  }

  /** An owner known under an epoch no claimant of the slot exceeds keeps it. */
  lemma {:induction false} OutrankingStays(v: View, claims: map<int, Claim>, order: seq<int>, importing: seq<bool>, j: nat)
    requires ViewOk(v) && ClaimsOk(claims) && claims.Keys <= v.epochs.Keys && |importing| == SLOTS
    requires forall i :: 0 <= i < |order| ==> order[i] in claims
    requires j < SLOTS && v.owners[j] != NONE
    requires forall n :: n in claims && TestBit(claims[n].bitmap, j) ==> claims[n].epoch <= v.epochs[v.owners[j]]
    ensures DeliverAll(v, claims, order, importing).owners[j] == v.owners[j]
    decreases |order|
  {
    hide TestBit;
    if order != [] {
      OutrankingStays(Deliver(v, order[0], claims[order[0]], importing), claims, order[1..], importing, j);
    }
  }

  /** In whatever order the claims arrive, slot `j` ends with `m`. */
  ghost predicate AlwaysEndsWith(v: View, claims: map<int, Claim>, importing: seq<bool>, j: nat, m: int)
    requires ViewOk(v) && ClaimsOk(claims) && claims.Keys <= v.epochs.Keys && |importing| == SLOTS && j < SLOTS
  {
    forall order :: Covers(order, claims) ==> DeliverAll(v, claims, order, importing).owners[j] == m
  }

  lemma {:induction false} Listing(s: set<int>) returns (order: seq<int>)
    ensures forall n :: n in s ==> n in order
    ensures forall i :: 0 <= i < |order| ==> order[i] in s
  {
    order := [];
    if x :| x in s {
      var rest := Listing(s - {x});
      order := [x] + rest;
    }
  }

  /** When the owner does not yield, the order in which its own claim comes first, if
      it makes one, leaves the slot with it. */
  lemma StuckOrder(v: View, claims: map<int, Claim>, importing: seq<bool>, j: nat, m: int) returns (order: seq<int>)
    requires ViewOk(v) && ClaimsOk(claims) && |importing| == SLOTS
    requires EpochsOk(v, claims, {}) && j < SLOTS && Greatest(claims, j, m) && !Yields(v, claims, j, m)
    ensures Covers(order, claims) && v.owners[j] != m
    ensures DeliverAll(v, claims, order, importing).owners[j] == v.owners[j]
  {
    hide TestBit, DeliverAll;
    var o := v.owners[j];
    var all := Listing(claims.Keys);
    if o in claims {
      order := [o] + all;
      var next := Deliver(v, o, claims[o], importing);
      OutrankingStays(next, claims, all, importing, j);
      assert order[0] == o && order[1..] == all;
      DeliverFirst(v, claims, order, importing);
    } else {
      order := all;
      OutrankingStays(v, claims, all, importing, j);
    }
  }

  lemma DeliverFirst(v: View, claims: map<int, Claim>, order: seq<int>, importing: seq<bool>)
    requires ViewOk(v) && ClaimsOk(claims) && claims.Keys <= v.epochs.Keys && |importing| == SLOTS
    requires order != [] && forall i :: 0 <= i < |order| ==> order[i] in claims
    ensures DeliverAll(v, claims, order, importing)
         == DeliverAll(Deliver(v, order[0], claims[order[0]], importing), claims, order[1..], importing)
  {
  }

  /** Exactly then: a slot ends with its greatest claimant in every order if and only
      if its present owner yields. */
  lemma ConvergesIffOwnerYields(v: View, claims: map<int, Claim>, importing: seq<bool>, j: nat, m: int)
    requires ViewOk(v) && ClaimsOk(claims) && |importing| == SLOTS
    requires EpochsOk(v, claims, {}) && j < SLOTS && !importing[j] && Greatest(claims, j, m)
    ensures AlwaysEndsWith(v, claims, importing, j, m) <==> Yields(v, claims, j, m)
  {
    hide Deliver, TestBit, DeliverAll, EpochsOk, Greatest, Yields;
    Claimants(v, claims, {});
    assert m in claims by { Claims(claims, j, m); }
    if Yields(v, claims, j, m) {
      forall order | Covers(order, claims) ensures DeliverAll(v, claims, order, importing).owners[j] == m {
        SlotsConverge(v, claims, order, importing, j, m);
      }
    } else {
      var order := StuckOrder(v, claims, importing, j, m);
    }
  }

  lemma Claims(claims: map<int, Claim>, j: nat, m: int)
    requires ClaimsOk(claims) && j < SLOTS && Greatest(claims, j, m)
    ensures m in claims
  {
  }

  /** Hence two views, whatever the orders in which each hears the claims, agree on
      every claimed slot that neither imports and whose owner in each yields. */
  lemma ViewsAgree(v: View, w: View, claims: map<int, Claim>, order: seq<int>, order2: seq<int>, importing: seq<bool>, importing2: seq<bool>, j: nat, m: int)
    requires ViewOk(v) && ViewOk(w) && ClaimsOk(claims) && |importing| == |importing2| == SLOTS
    requires EpochsOk(v, claims, {}) && EpochsOk(w, claims, {}) && j < SLOTS && !importing[j] && !importing2[j]
    requires Greatest(claims, j, m) && Yields(v, claims, j, m) && Yields(w, claims, j, m)
    requires Covers(order, claims) && Covers(order2, claims)
    ensures DeliverAll(v, claims, order, importing).owners[j] == DeliverAll(w, claims, order2, importing2).owners[j]
  {
    hide Deliver, TestBit, DeliverAll;
    SlotsConverge(v, claims, order, importing, j, m);
    SlotsConverge(w, claims, order2, importing2, j, m);
  }

  /** The order can matter: slot 0 is held by a node that claims nothing but whose
      header carries a greater epoch than the one claimant's. */
  lemma OrderMatters()
    ensures var v := View(seq(SLOTS, j => 1), map[1 := 1, 2 := 0]);
            var claims := map[1 := Claim(7, seq(BYTES, i => 0)), 2 := Claim(5, seq(BYTES, i => 255))];
            var importing := seq(SLOTS, j => false);
            && ViewOk(v) && ClaimsOk(claims) && EpochsOk(v, claims, {})
            && DeliverAll(v, claims, [1, 2], importing).owners[0] == 1
            && DeliverAll(v, claims, [2, 1], importing).owners[0] == 2
  {
    hide TestBit, DeliverAll;
    var v := View(seq(SLOTS, j => 1), map[1 := 1, 2 := 0]);
    var c, d := Claim(7, seq(BYTES, i => 0)), Claim(5, seq(BYTES, i => 255));
    var importing := seq(SLOTS, j => false);
    FirstBits(c.bitmap, d.bitmap);
    TwoClaims(v, map[1 := c, 2 := d], 1, 2, importing);
    TwoClaims(v, map[1 := c, 2 := d], 2, 1, importing);
  }

  lemma FirstBits(none: seq<bv8>, all: seq<bv8>)
    requires |none| == |all| == BYTES && none[0] == 0 && all[0] == 255
    ensures !TestBit(none, 0) && TestBit(all, 0)
  {
  }

  lemma TwoClaims(v: View, claims: map<int, Claim>, m: int, n: int, importing: seq<bool>)
    requires ViewOk(v) && ClaimsOk(claims) && claims.Keys <= v.epochs.Keys && |importing| == SLOTS
    requires m in claims && n in claims
    ensures DeliverAll(v, claims, [m, n], importing)
         == Deliver(Deliver(v, m, claims[m], importing), n, claims[n], importing)
  {
    hide DeliverAll;
    var next := Deliver(v, m, claims[m], importing);
    DeliverFirst(v, claims, [m, n], importing);
    DeliverFirst(next, claims, [n], importing);
    assert [m, n][1..] == [n] && [n][1..] == [];
    DeliverNone(Deliver(next, n, claims[n], importing), claims, importing);
  }

  lemma DeliverNone(v: View, claims: map<int, Claim>, importing: seq<bool>)
    requires ViewOk(v) && ClaimsOk(claims) && claims.Keys <= v.epochs.Keys && |importing| == SLOTS
    ensures DeliverAll(v, claims, [], importing) == v
  {
  }
}
