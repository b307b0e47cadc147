/** Who serves which hash slot: the slot table and each node's bitmap, kept in
    agreement by every operation, and what a slot claim takes. */
module ClusterSlots {
  import Bits
  import opened ClusterBasics

  const BYTES := 2048
  const NONE := -1

  // ---------------------------------------------------------------- bitmaps

  predicate TestBit(b: seq<bv8>, pos: nat)
    requires |b| == BYTES && pos < SLOTS
  {
    Bits.BitOf(b[pos / 8], pos % 8)
  }

  function Marked(x: bv8, k: nat): bv8
    requires k < 8
  {
    x | Bits.Mask(k)
  }

  function Unmarked(x: bv8, k: nat): bv8
    requires k < 8
  {
    x & !Bits.Mask(k)
  }

  function SetBit(b: seq<bv8>, pos: nat): (r: seq<bv8>)
    requires |b| == BYTES && pos < SLOTS
    ensures |r| == BYTES
  {
    b[pos / 8 := Marked(b[pos / 8], pos % 8)]
  }

  function ClearBit(b: seq<bv8>, pos: nat): (r: seq<bv8>)
    requires |b| == BYTES && pos < SLOTS
    ensures |r| == BYTES
  {
    b[pos / 8 := Unmarked(b[pos / 8], pos % 8)]
  }

  lemma ByteBits(x: bv8, k: nat, i: nat)
    requires k < 8 && i < 8
    ensures Bits.BitOf(Marked(x, k), i) <==> i == k || Bits.BitOf(x, i)
    ensures Bits.BitOf(Unmarked(x, k), i) <==> i != k && Bits.BitOf(x, i)
  {
    hide Bits.Mask;
    Bits.MaskIs(k);
    Bits.MaskIs(i);
  }

  /** Setting or clearing a bit changes that bit and no other. */
  lemma BitsAt(b: seq<bv8>, pos: nat, i: nat)
    requires |b| == BYTES && pos < SLOTS && i < SLOTS
    ensures TestBit(SetBit(b, pos), i) <==> i == pos || TestBit(b, i)
    ensures TestBit(ClearBit(b, pos), i) <==> i != pos && TestBit(b, i)
  {
    hide Bits.BitOf, Marked, Unmarked;
    if i / 8 == pos / 8 {
      assert SetBit(b, pos)[i / 8] == Marked(b[pos / 8], pos % 8);
      assert ClearBit(b, pos)[i / 8] == Unmarked(b[pos / 8], pos % 8);
      ByteBits(b[pos / 8], pos % 8, i % 8);
    } else {
      assert SetBit(b, pos)[i / 8] == b[i / 8] == ClearBit(b, pos)[i / 8];
    }
  }

  /** The format on the wire: slot 0 is the least significant bit of the first byte, the
      reverse, within each byte, of the order of the bits of a string. */
  lemma SlotOrder(b: seq<bv8>, i: nat, k: nat)
    requires |b| == BYTES && i < BYTES && k < 8
    ensures TestBit(b, 8 * i + k) == Bits.Bit(b, 8 * i + (7 - k))
  {
    hide Bits.BitOf;
    assert (8 * i + k) / 8 == i && (8 * i + k) % 8 == k;
    assert (8 * i + (7 - k)) / 8 == i && (8 * i + (7 - k)) % 8 == 7 - k;
  }

  /** The set bits among the first `k`. */
  function CountBits(b: seq<bv8>, k: nat): nat
    requires |b| == BYTES && k <= SLOTS
  {
    if k == 0 then 0 else CountBits(b, k - 1) + if TestBit(b, k - 1) then 1 else 0
  }

  lemma {:induction false} CountChanged(b: seq<bv8>, pos: nat, k: nat)
    requires |b| == BYTES && pos < SLOTS && k <= SLOTS
    ensures CountBits(SetBit(b, pos), k) == CountBits(b, k) + if pos < k && !TestBit(b, pos) then 1 else 0
    ensures CountBits(ClearBit(b, pos), k) == CountBits(b, k) - if pos < k && TestBit(b, pos) then 1 else 0
    decreases k
  {
    hide TestBit, SetBit, ClearBit;
    if k > 0 {
      CountChanged(b, pos, k - 1);
      BitsAt(b, pos, k - 1);
    }
  }

  lemma {:induction false} NoBits(b: seq<bv8>, k: nat)
    requires |b| == BYTES && k <= SLOTS
    ensures CountBits(b, k) == 0 <==> forall j :: 0 <= j < k ==> !TestBit(b, j)
    decreases k
  {
    hide TestBit;
    if k > 0 {
      NoBits(b, k - 1);
    }
  }

  // ---------------------------------------------------------------- the table

  /** The owner of each slot, and each known node's bitmap and slot count. */
  datatype Table = Table(owners: seq<int>, bitmaps: map<int, seq<bv8>>, numslots: map<int, nat>)

  predicate NodeAgrees(owners: seq<int>, n: int, b: seq<bv8>, count: nat)
    requires |owners| == SLOTS
  {
    && |b| == BYTES && count == CountBits(b, SLOTS)
    && forall j :: 0 <= j < SLOTS ==> (TestBit(b, j) <==> owners[j] == n)
  }

  /** `slots[j] == n` exactly when bit j of n's bitmap is set, and counts are exact. */
  predicate Agrees(t: Table) {
    && |t.owners| == SLOTS && t.bitmaps.Keys == t.numslots.Keys && NONE !in t.bitmaps
    && (forall j :: 0 <= j < SLOTS && t.owners[j] != NONE ==> t.owners[j] in t.bitmaps)
    && forall n :: n in t.bitmaps ==> NodeAgrees(t.owners, n, t.bitmaps[n], t.numslots[n])
  }

  function Add(t: Table, n: int, j: nat): Table
    requires Agrees(t) && n in t.bitmaps && j < SLOTS && t.owners[j] == NONE
  {
    Table(t.owners[j := n], t.bitmaps[n := SetBit(t.bitmaps[n], j)], t.numslots[n := t.numslots[n] + 1])
  }

  function Del(t: Table, j: nat): Table
    requires Agrees(t) && j < SLOTS && t.owners[j] != NONE && t.numslots[t.owners[j]] > 0
  {
    var n := t.owners[j];
    Table(t.owners[j := NONE], t.bitmaps[n := ClearBit(t.bitmaps[n], j)], t.numslots[n := t.numslots[n] - 1])
  }

  lemma AddNode(owners: seq<int>, n: int, b: seq<bv8>, count: nat, j: nat)
    requires |owners| == SLOTS && NodeAgrees(owners, n, b, count) && j < SLOTS && owners[j] != n
    ensures NodeAgrees(owners[j := n], n, SetBit(b, j), count + 1)
  {
    hide TestBit, SetBit, CountBits;
    CountChanged(b, j, SLOTS);
    forall i | 0 <= i < SLOTS ensures TestBit(SetBit(b, j), i) <==> owners[j := n][i] == n {
      BitsAt(b, j, i);
    }
  }

  lemma DelNodeBit(owners: seq<int>, n: int, b: seq<bv8>, count: nat, j: nat)
    requires |owners| == SLOTS && NodeAgrees(owners, n, b, count) && j < SLOTS && owners[j] == n && n != NONE
    ensures count > 0 && NodeAgrees(owners[j := NONE], n, ClearBit(b, j), count - 1)
  {
    hide TestBit, ClearBit, CountBits;
    CountChanged(b, j, SLOTS);
    forall i | 0 <= i < SLOTS ensures TestBit(ClearBit(b, j), i) <==> owners[j := NONE][i] == n {
      BitsAt(b, j, i);
    }
  }

  lemma OtherNode(owners: seq<int>, n: int, b: seq<bv8>, count: nat, j: nat, m: int)
    requires |owners| == SLOTS && NodeAgrees(owners, n, b, count) && j < SLOTS && owners[j] != n && m != n
    ensures NodeAgrees(owners[j := m], n, b, count)
  {
    hide TestBit, CountBits;
  }

  lemma AddAgrees(t: Table, n: int, j: nat)
    requires Agrees(t) && n in t.bitmaps && j < SLOTS && t.owners[j] == NONE
    ensures Agrees(Add(t, n, j)) && !TestBit(t.bitmaps[n], j)
  {
    hide NodeAgrees, TestBit;
    var r := Add(t, n, j);
    assert r.bitmaps.Keys == t.bitmaps.Keys;
    assert r.numslots.Keys == t.numslots.Keys;
    AddNode(t.owners, n, t.bitmaps[n], t.numslots[n], j);
    forall m | m in r.bitmaps ensures NodeAgrees(r.owners, m, r.bitmaps[m], r.numslots[m]) {
      if m != n {
        OtherNode(t.owners, m, t.bitmaps[m], t.numslots[m], j, n);
      }
    }
    BitIs(t, n, j);
  }

  lemma BitIs(t: Table, n: int, j: nat)
    requires Agrees(t) && n in t.bitmaps && j < SLOTS
    ensures |t.bitmaps[n]| == BYTES && (TestBit(t.bitmaps[n], j) <==> t.owners[j] == n)
  {
    hide TestBit, CountBits;
    assert NodeAgrees(t.owners, n, t.bitmaps[n], t.numslots[n]);
  }

  /** The assertion in the deletion of a slot: its owner's bit is set. */
  lemma DelAgrees(t: Table, j: nat)
    requires Agrees(t) && j < SLOTS && t.owners[j] != NONE
    ensures TestBit(t.bitmaps[t.owners[j]], j) && t.numslots[t.owners[j]] > 0 && Agrees(Del(t, j))
  {
    hide NodeAgrees, TestBit;
    var n := t.owners[j];
    DelNodeBit(t.owners, n, t.bitmaps[n], t.numslots[n], j);
    BitIs(t, n, j);
    var r := Del(t, j);
    assert r.bitmaps.Keys == t.bitmaps.Keys;
    assert r.numslots.Keys == t.numslots.Keys;
    forall m | m in r.bitmaps ensures NodeAgrees(r.owners, m, r.bitmaps[m], r.numslots[m]) {
      if m != n {
        OtherNode(t.owners, m, t.bitmaps[m], t.numslots[m], j, NONE);
      }
    }
  }

  /** A node owns no slot exactly when its count is zero. */
  lemma OwnsNone(t: Table, n: int)
    requires Agrees(t) && n in t.bitmaps
    ensures t.numslots[n] == 0 <==> forall j :: 0 <= j < SLOTS ==> t.owners[j] != n
  {
    hide TestBit, CountBits;
    assert NodeAgrees(t.owners, n, t.bitmaps[n], t.numslots[n]);
    NoBits(t.bitmaps[n], SLOTS);
  }

  // ---------------------------------------------------------------- claims

  /** Whether the claim of `sender` under `epoch` takes slot `j`. */
  predicate Rebinds(owner: int, sender: int, epoch: nat, claimed: bool, importing: bool, epochs: map<int, nat>) {
    && claimed && owner != sender && !importing
    && (owner == NONE || (owner in epochs && epochs[owner] < epoch))
  }

  datatype Reaction = Nothing | BecomeReplica | DeleteKeys(slots: seq<nat>)

  class SlotTable {
    const slots: array<int>
    var bitmaps: map<int, seq<bv8>>
    var numslots: map<int, nat>
    var epochs: map<int, nat>
    var importing: seq<int>      // the node a slot is being imported from, or none
    var migrating: seq<int>      // the node it is being migrated to, or none

    ghost function Abs(): Table
      reads this, slots
    {
      Table(slots[..], bitmaps, numslots)
    }

    ghost predicate Valid()
      reads this, slots
    {
      && slots.Length == SLOTS && |importing| == SLOTS && |migrating| == SLOTS
      && epochs.Keys == bitmaps.Keys == numslots.Keys && Agrees(Abs())
    }

    method NodeSetSlotBit(n: int, j: nat) returns (was: bool)
      requires j < SLOTS && n in bitmaps && n in numslots && |bitmaps[n]| == BYTES
      modifies this`bitmaps, this`numslots
      ensures was == TestBit(old(bitmaps[n]), j)
      ensures bitmaps == old(bitmaps)[n := SetBit(old(bitmaps)[n], j)]
      ensures numslots == if was then old(numslots) else old(numslots)[n := old(numslots)[n] + 1]
    {
      was := TestBit(bitmaps[n], j);
      bitmaps := bitmaps[n := SetBit(bitmaps[n], j)];
      if !was {
        numslots := numslots[n := numslots[n] + 1];
      }
    }

    method NodeClearSlotBit(n: int, j: nat) returns (was: bool)
      requires j < SLOTS && n in bitmaps && n in numslots && |bitmaps[n]| == BYTES
      requires TestBit(bitmaps[n], j) ==> numslots[n] > 0
      modifies this`bitmaps, this`numslots
      ensures was == TestBit(old(bitmaps[n]), j)
      ensures bitmaps == old(bitmaps)[n := ClearBit(old(bitmaps)[n], j)]
      ensures numslots == if was then old(numslots)[n := old(numslots)[n] - 1] else old(numslots)
    {
      was := TestBit(bitmaps[n], j);
      bitmaps := bitmaps[n := ClearBit(bitmaps[n], j)];
      if was {
        numslots := numslots[n := numslots[n] - 1];
      }
    }

    /** Refused if the slot has an owner. */
    method AddSlot(n: int, j: nat) returns (ok: bool)
      requires Valid() && j < SLOTS && n in bitmaps
      modifies this`bitmaps, this`numslots, slots
      ensures Valid() && bitmaps.Keys == old(bitmaps.Keys)
      ensures ok == (old(slots[j]) == NONE)
      ensures forall i :: 0 <= i < SLOTS ==> slots[i] == if ok && i == j then n else old(slots[i])
    {
      hide Agrees, SetBit, TestBit;
      BitIs(Abs(), n, j);
      if slots[j] != NONE { return false; }
      ghost var t := Abs();
      AddAgrees(t, n, j);
      var was := NodeSetSlotBit(n, j);
      slots[j] := n;
      assert Abs() == Add(t, n, j);
      assert bitmaps.Keys == old(bitmaps.Keys);
      ok := true;
    }

    /** Refused if the slot has no owner; the owner's bit is always set. */
    method DelSlot(j: nat) returns (ok: bool)
      requires Valid() && j < SLOTS
      modifies this`bitmaps, this`numslots, slots
      ensures Valid() && bitmaps.Keys == old(bitmaps.Keys)
      ensures ok == (old(slots[j]) != NONE)
      ensures forall i :: 0 <= i < SLOTS ==> slots[i] == if i == j then NONE else old(slots[i])
    {
      hide SetBit, ClearBit, TestBit, NodeAgrees;
      var n := slots[j];
      if n == NONE {
        return false;
      }
      ghost var t := Abs();
      DelAgrees(t, j);
      BitIs(t, n, j);
      var was := NodeClearSlotBit(n, j);
      assert was;
      slots[j] := NONE;
      assert Abs() == Del(t, j);
      assert bitmaps.Keys == old(bitmaps.Keys);
      ok := true;
    }

    /** Unassigns all slots of a node; the result is how many it had. */
    method DelNodeSlots(n: int) returns (deleted: nat)
      requires Valid() && n in bitmaps
      modifies this`bitmaps, this`numslots, slots
      ensures Valid() && bitmaps.Keys == old(bitmaps.Keys)
      ensures forall j :: 0 <= j < SLOTS ==> slots[j] == if old(slots[j]) == n then NONE else old(slots[j])
      ensures deleted == old(numslots[n]) && numslots[n] == 0
    {
      hide Agrees, TestBit, CountBits;
      deleted := 0;
      ghost var b := bitmaps[n];
      BitmapOf(Abs(), n);
      for j := 0 to SLOTS
        invariant Valid() && bitmaps.Keys == old(bitmaps.Keys)
        invariant |b| == BYTES && forall i :: 0 <= i < SLOTS ==> (TestBit(b, i) <==> old(slots[i]) == n)
        invariant forall i :: 0 <= i < j ==> slots[i] == if old(slots[i]) == n then NONE else old(slots[i])
        invariant forall i :: j <= i < SLOTS ==> slots[i] == old(slots[i])
        invariant deleted == CountBits(b, j)
      {
        BitIs(Abs(), n, j);
        CountNext(b, j);
        if TestBit(bitmaps[n], j) {
          var _ := DelSlot(j);
          deleted := deleted + 1;
        }
      }
      OwnsNone(Abs(), n);
      assert forall i :: 0 <= i < SLOTS ==> Abs().owners[i] == slots[i];
    }

    /** One slot forgets a node. */
    method ForgetAt(n: int, j: nat)
      requires Valid() && n in bitmaps && j < SLOTS
      modifies this`bitmaps, this`numslots, this`importing, this`migrating, slots
      ensures Valid() && bitmaps.Keys == old(bitmaps.Keys)
      ensures forall i :: 0 <= i < SLOTS ==> slots[i] == if i == j && old(slots[i]) == n then NONE else old(slots[i])
      ensures importing == if old(importing)[j] == n then old(importing)[j := NONE] else old(importing)
      ensures migrating == if old(migrating)[j] == n then old(migrating)[j := NONE] else old(migrating)
    {
      hide Agrees, TestBit, CountBits;
      KnownNotNone(Abs(), n);
      if importing[j] == n {
        importing := importing[j := NONE];
      }
      if migrating[j] == n {
        migrating := migrating[j := NONE];
      }
      if slots[j] == n {
        var _ := DelSlot(j);
      }
    }

    /** Forgets a node, all its slots and all imports and migrations it takes part in. */
    method DelNode(n: int)
      requires Valid() && n in bitmaps
      modifies this`bitmaps, this`numslots, this`epochs, this`importing, this`migrating, slots
      ensures Valid() && bitmaps.Keys == old(bitmaps.Keys) - {n}
      ensures forall j :: 0 <= j < SLOTS ==> slots[j] == if old(slots[j]) == n then NONE else old(slots[j])
      ensures importing == Forgotten(old(importing), n, SLOTS) && migrating == Forgotten(old(migrating), n, SLOTS)
    {
      hide Agrees, TestBit, CountBits, Forgotten;
      KnownNotNone(Abs(), n);
      ForgottenStart(importing, n);
      ForgottenStart(migrating, n);
      for j := 0 to SLOTS
        invariant Valid() && bitmaps.Keys == old(bitmaps.Keys)
        invariant forall i :: 0 <= i < SLOTS ==> slots[i] == if i < j && old(slots[i]) == n then NONE else old(slots[i])
        invariant importing == Forgotten(old(importing), n, j) && migrating == Forgotten(old(migrating), n, j)
      {
        ForgottenStep(old(importing), n, j);
        ForgottenStep(old(migrating), n, j);
        ForgetAt(n, j);
      }
      FreeAgrees(Abs(), n);
      bitmaps, numslots, epochs := bitmaps - {n}, numslots - {n}, epochs - {n};
    }

    /** A replica takes over all slots of its master, which is left with none. */
    method FailoverReplaceYourMaster(me: int, oldmaster: int)
      requires Valid() && me in bitmaps && oldmaster in bitmaps && me != oldmaster
      modifies this`bitmaps, this`numslots, slots
      ensures Valid() && bitmaps.Keys == old(bitmaps.Keys)
      ensures forall j :: 0 <= j < SLOTS ==> slots[j] == if old(slots[j]) == oldmaster then me else old(slots[j])
      ensures numslots[oldmaster] == 0
    {
      hide Agrees, TestBit, CountBits;
      KnownNotNone(Abs(), oldmaster);
      KnownNotNone(Abs(), me);
      for j := 0 to SLOTS
        invariant Valid() && bitmaps.Keys == old(bitmaps.Keys)
        invariant forall i :: 0 <= i < j ==> slots[i] == if old(slots[i]) == oldmaster then me else old(slots[i])
        invariant forall i :: j <= i < SLOTS ==> slots[i] == old(slots[i])
      {
        BitIs(Abs(), oldmaster, j);
        if TestBit(bitmaps[oldmaster], j) {
          Rebind(me, j);
        }
      }
      OwnsNone(Abs(), oldmaster);
      assert forall i :: 0 <= i < SLOTS ==> Abs().owners[i] == slots[i];
    }

    /** Deletes and adds: the slot changes hands. */
    method Rebind(n: int, j: nat)
      requires Valid() && j < SLOTS && n in bitmaps
      modifies this`bitmaps, this`numslots, slots
      ensures Valid() && bitmaps.Keys == old(bitmaps.Keys)
      ensures slots[j] == n && forall i :: 0 <= i < SLOTS && i != j ==> slots[i] == old(slots[i])
    {
      hide Agrees;
      var _ := DelSlot(j);
      var _ := AddSlot(n, j);
    }

    /** One slot of a claim. */
    method ClaimSlot(sender: int, epoch: nat, claimed: seq<bv8>, j: nat) returns (taken: bool)
      requires Valid() && |claimed| == BYTES && sender in bitmaps && j < SLOTS
      modifies this`bitmaps, this`numslots, slots
      ensures Valid() && bitmaps.Keys == old(bitmaps.Keys)
      ensures taken == Rebinds(old(slots[j]), sender, epoch, TestBit(claimed, j), importing[j] != NONE, epochs)
      ensures taken ==> old(slots[j]) != sender
      ensures forall i :: 0 <= i < SLOTS ==> slots[i] == if taken && i == j then sender else old(slots[i])
    {
      hide Agrees, TestBit;
      OwnerKnown(Abs(), j);
      taken := false;
      if TestBit(claimed, j) {
        if slots[j] == sender { return; }
        if importing[j] != NONE { return; }
        if slots[j] == NONE || epochs[slots[j]] < epoch {
          Rebind(sender, j);
          taken := true;
        }
      }
    }

    /** The loop over the slots of a claim: which slots change hands, whether one was
        the current master's, and those of this node that held keys. */
    method TakeSlots(me: int, curmaster: int, sender: int, epoch: nat, claimed: seq<bv8>, keys: seq<nat>)
      returns (newmaster: bool, dirty: seq<nat>)
      requires Valid() && |claimed| == BYTES && |keys| == SLOTS && sender in bitmaps && sender != me
      modifies this`bitmaps, this`numslots, slots
      ensures Valid() && bitmaps.Keys == old(bitmaps.Keys)
      ensures forall j :: 0 <= j < SLOTS ==>
        slots[j] == if Rebinds(old(slots[j]), sender, epoch, TestBit(claimed, j), importing[j] != NONE, epochs) then sender
                    else old(slots[j])
      ensures newmaster <==> exists j :: 0 <= j < SLOTS && old(slots[j]) == curmaster && slots[j] != curmaster
      ensures forall j :: 0 <= j < SLOTS ==> (j in dirty <==> old(slots[j]) == me && slots[j] != me && keys[j] > 0)
      ensures forall j :: j in dirty ==> j < SLOTS
    {
      hide Agrees, TestBit, CountBits, Rebinds, LostUpTo, MasterLost, Taken;
      dirty, newmaster := [], false;
      ghost var was := slots[..];
      NothingLost(was, me, curmaster, keys);
      TakenNone(was, sender, epoch, claimed, importing, epochs);
      for j := 0 to SLOTS
        invariant Valid() && bitmaps.Keys == old(bitmaps.Keys)
        invariant slots[..] == Taken(was, sender, epoch, claimed, importing, epochs, j)
        invariant newmaster == MasterLost(was, slots[..], curmaster, j)
        invariant LostUpTo(dirty, was, slots[..], me, keys, j)
      {
        var owner := slots[j];
        ghost var before, sofar := slots[..], dirty;
        TakenNext(was, sender, epoch, claimed, importing, epochs, j);
        assert owner == before[j] == was[j];
        var taken := ClaimSlot(sender, epoch, claimed, j);
        if taken {
          if owner == me && keys[j] > 0 {
            dirty := dirty + [j];
          }
          if owner == curmaster {
            newmaster := true;
          }
        }
        assert slots[..] == if taken then before[j := sender] else before;
        LostNext(sofar, dirty, was, before, slots[..], me, keys, j);
        MasterNext(was, before, slots[..], curmaster, j);
      }
      AllLost(dirty, was, slots[..], me, curmaster, keys);
      TakenAll(was, sender, epoch, claimed, importing, epochs);
    }

    /** The claim of `sender` takes exactly the claimed slots that are free or whose
        owner's known epoch is smaller, except those being imported. A node that
        lost its last slot this way, or whose master did, becomes a replica of the
        sender; otherwise the keys in the slots it lost are to be deleted. A module
        that turned redirections off (`passive`) suppresses both. */
    method UpdateSlotsConfigWith(me: int, curmaster: int, sender: int, epoch: nat, claimed: seq<bv8>, keys: seq<nat>, passive: bool)
      returns (r: Reaction)
      requires Valid() && |claimed| == BYTES && |keys| == SLOTS
      requires me in bitmaps && curmaster in bitmaps && sender in bitmaps
      modifies this`bitmaps, this`numslots, slots
      ensures Valid() && bitmaps.Keys == old(bitmaps.Keys)
      ensures sender == me ==> r == Nothing && slots[..] == old(slots[..])
      ensures sender != me ==> forall j :: 0 <= j < SLOTS ==>
        slots[j] == if Rebinds(old(slots[j]), sender, epoch, TestBit(claimed, j), importing[j] != NONE, epochs) then sender
                    else old(slots[j])
      ensures passive ==> r == Nothing
      ensures !passive ==> (r == BecomeReplica <==>
              (exists j :: 0 <= j < SLOTS && old(slots[j]) == curmaster && slots[j] != curmaster) && numslots[curmaster] == 0)
      ensures r.DeleteKeys? ==> forall j :: 0 <= j < SLOTS ==>
                (j in r.slots <==> old(slots[j]) == me && slots[j] != me && keys[j] > 0)
      ensures r == Nothing && !passive ==> forall j :: 0 <= j < SLOTS && old(slots[j]) == me && slots[j] != me ==> keys[j] == 0
    {
      hide Agrees, TestBit, CountBits, Rebinds;
      if sender == me {
        return Nothing;
      }
      var newmaster, dirty := TakeSlots(me, curmaster, sender, epoch, claimed, keys);
      if passive {
        return Nothing;
      }
      if newmaster && numslots[curmaster] == 0 {
        return BecomeReplica;
      }
      r := if |dirty| > 0 then DeleteKeys(dirty) else Nothing;
    }
  }

  /** The owners after the first `k` slots of a claim. */
  function Taken(was: seq<int>, sender: int, epoch: nat, claimed: seq<bv8>, importing: seq<int>, epochs: map<int, nat>, k: nat): (r: seq<int>)
    requires |was| == |importing| == SLOTS && |claimed| == BYTES
    ensures |r| == SLOTS
  {
    seq(SLOTS, i requires 0 <= i < SLOTS =>
      if i < k && Rebinds(was[i], sender, epoch, TestBit(claimed, i), importing[i] != NONE, epochs) then sender else was[i])
  }

  lemma TakenNone(was: seq<int>, sender: int, epoch: nat, claimed: seq<bv8>, importing: seq<int>, epochs: map<int, nat>)
    requires |was| == |importing| == SLOTS && |claimed| == BYTES
    ensures Taken(was, sender, epoch, claimed, importing, epochs, 0) == was
  {
    hide TestBit, Rebinds;
  }

  lemma TakenNext(was: seq<int>, sender: int, epoch: nat, claimed: seq<bv8>, importing: seq<int>, epochs: map<int, nat>, k: nat)
    requires |was| == |importing| == SLOTS && |claimed| == BYTES && k < SLOTS
    ensures var before := Taken(was, sender, epoch, claimed, importing, epochs, k);
            && before[k] == was[k]
            && Taken(was, sender, epoch, claimed, importing, epochs, k + 1)
            == if Rebinds(was[k], sender, epoch, TestBit(claimed, k), importing[k] != NONE, epochs) then before[k := sender]
               else before
  {
    hide TestBit, Rebinds;
  }

  lemma TakenAll(was: seq<int>, sender: int, epoch: nat, claimed: seq<bv8>, importing: seq<int>, epochs: map<int, nat>)
    requires |was| == |importing| == SLOTS && |claimed| == BYTES
    ensures forall j :: 0 <= j < SLOTS ==>
      Taken(was, sender, epoch, claimed, importing, epochs, SLOTS)[j]
      == if Rebinds(was[j], sender, epoch, TestBit(claimed, j), importing[j] != NONE, epochs) then sender else was[j]
  {
    hide TestBit, Rebinds;
  }

  /** `dirty` lists the first `k` slots that `me` owned, no longer owns, and that hold keys. */
  predicate LostUpTo(dirty: seq<nat>, was: seq<int>, now: seq<int>, me: int, keys: seq<nat>, k: nat)
    requires |was| == |now| == |keys| && k <= |was|
  {
    && (forall i :: i in dirty ==> i < k)
    && forall i :: 0 <= i < k ==> (i in dirty <==> was[i] == me && now[i] != me && keys[i] > 0)
  }

  /** One of the first `k` slots that `master` owned is no longer its own. */
  predicate MasterLost(was: seq<int>, now: seq<int>, master: int, k: nat)
    requires |was| == |now| && k <= |was|
  {
    exists i :: 0 <= i < k && was[i] == master && now[i] != master
  }

  lemma NothingLost(was: seq<int>, me: int, master: int, keys: seq<nat>)
    requires |was| == |keys|
    ensures LostUpTo([], was, was, me, keys, 0) && !MasterLost(was, was, master, 0)
  {
  }

  lemma LostNext(dirty: seq<nat>, dirty2: seq<nat>, was: seq<int>, now: seq<int>, now2: seq<int>, me: int, keys: seq<nat>, k: nat)
    requires |was| == |now| == |now2| == |keys| && k < |was| && LostUpTo(dirty, was, now, me, keys, k)
    requires forall i :: 0 <= i < k ==> now2[i] == now[i]
    requires dirty2 == if was[k] == me && now2[k] != me && keys[k] > 0 then dirty + [k] else dirty
    ensures LostUpTo(dirty2, was, now2, me, keys, k + 1)
  {
  }

  lemma MasterNext(was: seq<int>, now: seq<int>, now2: seq<int>, master: int, k: nat)
    requires |was| == |now| == |now2| && k < |was| && forall i :: 0 <= i < k ==> now2[i] == now[i]
    ensures MasterLost(was, now2, master, k + 1) <==>
            MasterLost(was, now, master, k) || (was[k] == master && now2[k] != master)
  {
    if MasterLost(was, now, master, k) {
      var i :| 0 <= i < k && was[i] == master && now[i] != master;
      assert now2[i] != master;
    }
  }

  lemma AllLost(dirty: seq<nat>, was: seq<int>, now: seq<int>, me: int, master: int, keys: seq<nat>)
    requires |was| == |now| == |keys| && LostUpTo(dirty, was, now, me, keys, |was|)
    ensures forall j :: 0 <= j < |was| ==> (j in dirty <==> was[j] == me && now[j] != me && keys[j] > 0)
    ensures forall j :: j in dirty ==> j < |was|
    ensures MasterLost(was, now, master, |was|) <==> exists j :: 0 <= j < |was| && was[j] == master && now[j] != master
  {
  }

  /** The first `k` entries without `n`. */
  function Forgotten(s: seq<int>, n: int, k: nat): (r: seq<int>)
    ensures |r| == |s|
  {
    seq(|s|, j requires 0 <= j < |s| => if j < k && s[j] == n then NONE else s[j])
  }

  lemma ForgottenStart(s: seq<int>, n: int)
    ensures Forgotten(s, n, 0) == s
  {
  }

  lemma ForgottenStep(s: seq<int>, n: int, k: nat)
    requires k < |s|
    ensures var r := Forgotten(s, n, k); Forgotten(s, n, k + 1) == if r[k] == n then r[k := NONE] else r
  {
  }

  lemma CountNext(b: seq<bv8>, j: nat)
    requires |b| == BYTES && j < SLOTS
    ensures CountBits(b, j + 1) == CountBits(b, j) + if TestBit(b, j) then 1 else 0
  {
  }

  lemma BitmapOf(t: Table, n: int)
    requires Agrees(t) && n in t.bitmaps
    ensures n != NONE && |t.bitmaps[n]| == BYTES && t.numslots[n] == CountBits(t.bitmaps[n], SLOTS)
    ensures forall j :: 0 <= j < SLOTS ==> (TestBit(t.bitmaps[n], j) <==> t.owners[j] == n)
    ensures CountBits(t.bitmaps[n], 0) == 0
  {
    hide TestBit;
    assert NodeAgrees(t.owners, n, t.bitmaps[n], t.numslots[n]);
  }

  lemma KnownNotNone(t: Table, n: int)
    requires Agrees(t) && n in t.bitmaps
    ensures n != NONE
  {
  }

  lemma OwnerKnown(t: Table, j: nat)
    requires Agrees(t) && j < SLOTS
    ensures t.owners[j] == NONE || t.owners[j] in t.bitmaps
  {
  }

  lemma FreeAgrees(t: Table, n: int)
    requires Agrees(t) && forall j :: 0 <= j < SLOTS ==> t.owners[j] != n
    ensures Agrees(Table(t.owners, t.bitmaps - {n}, t.numslots - {n}))
  {
    hide NodeAgrees;
  }
}
