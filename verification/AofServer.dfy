/** The server's side of the append-only file: feeding the log buffer, flushing
    it to the file through writes that may fall short, and the block buffer of the
    background rewrite.

    `Aof` is the abstract state; each method is tied to a function or relation on
    it, and those are what the protocol in `AofDurability` is made of. */
module AofServer {
  import opened Resp
  import opened Dataset
  import opened AofFeed

  // ---------------------------------------------------------------- the abstract state

  datatype Aof = Aof(
    on: bool,          // logging to the file (not waiting for a first rewrite)
    selected: int,     // database of the last logged command, -1 for none
    file: Bytes,       // the file behind the descriptor
    buf: Bytes,        // logged, not written yet
    size: nat,         // what the server believes the file's size is
    forked: bool,      // a rewrite child is running
    residual: Bytes,   // logged since the fork, not sent to the child yet
    pipe: Bytes,       // sent to the child, not read yet
    stop: bool)        // the child asked to send no more

  /** The calls that feed the log: executed commands, and the MULTI and EXEC around
      a transaction. */
  predicate Feedable(c: Fed) {
    |c.argv| >= 1 && (Executed(c) || KindOf(c.argv[0]).KMulti? || KindOf(c.argv[0]).KExec?)
  }

  function Emitted(selected: int, c: Fed): seq<Argv>
    requires Feedable(c)
  {
    SelectIfNeeded(selected, c.dictid) + if Executed(c) then Translate(c) else [c.argv]
  }

  function Append(a: Aof, e: Bytes, dictid: int): Aof {
    a.(selected := dictid,
       buf := if a.on then a.buf + e else a.buf,
       residual := if a.forked then a.residual + e else a.residual)
  }

  function FeedOne(a: Aof, c: Fed): Aof
    requires Feedable(c)
  {
    Append(a, EncodeAll(Emitted(a.selected, c)), c.dictid)
  }

  /** A flush moves bytes from the buffer to the end of the file, and knows the
      file's size. */
  predicate Flushes(a: Aof, b: Aof) {
    && b.file + b.buf == a.file + a.buf
    && |a.file| <= |b.file| == b.size
    && b == a.(file := b.file, buf := b.buf, size := b.size)
  }

  /** Bytes leave the front of the block buffer for the pipe, unless the child
      asked to stop. */
  predicate Sends(a: Aof, b: Aof) {
    && b == a.(residual := b.residual, pipe := b.pipe)
    && b.pipe + b.residual == a.pipe + a.residual
    && |a.pipe| <= |b.pipe|
    && (a.stop ==> b == a)
  }

  function Fork(a: Aof): Aof {
    a.(forked := true, selected := -1, residual := [], pipe := [], stop := false)
  }

  /** The rewrite is over: no child, no buffered differences. */
  function Cleanup(a: Aof): Aof {
    a.(forked := false, residual := [], pipe := [])
  }

  function Install(a: Aof, temp: Bytes): Aof {
    Cleanup(a.(on := true, selected := -1, file := temp + a.residual, buf := [], size := |temp + a.residual|))
  }

  // ---------------------------------------------------------------- blocks

  const BLOCK_SIZE := 10 * 1024 * 1024

  /** `used` is the length of the data; `free` is what the block can still take. */
  datatype Block = Block(data: Bytes, free: nat)

  predicate BlocksOk(blocks: seq<Block>) {
    forall i :: 0 <= i < |blocks| ==> |blocks[i].data| + blocks[i].free == BLOCK_SIZE
  }

  function Flat(blocks: seq<Block>): Bytes {
    if blocks == [] then [] else blocks[0].data + Flat(blocks[1..])
  }

  lemma {:induction false} FlatConcat(a: seq<Block>, b: seq<Block>)
    ensures Flat(a + b) == Flat(a) + Flat(b)
    decreases |a|
  {
    if a == [] {
      assert a + b == b;
    } else {
      assert (a + b)[1..] == a[1..] + b;
      FlatConcat(a[1..], b);
    }
  }

  /** The buffer seen from its last block. */
  lemma FlatLast(blocks: seq<Block>)
    requires blocks != []
    ensures Flat(blocks) == Flat(blocks[..|blocks| - 1]) + blocks[|blocks| - 1].data
  {
    var n := |blocks| - 1;
    assert blocks == blocks[..n] + [blocks[n]];
    FlatConcat(blocks[..n], [blocks[n]]);
    assert [blocks[n]][1..] == [];
  }

  lemma FillLast(blocks: seq<Block>, rest: Bytes, len: nat)
    requires blocks != [] && len <= |rest| && len <= blocks[|blocks| - 1].free
    ensures var n := |blocks| - 1;
            Flat(blocks[n := Block(blocks[n].data + rest[..len], blocks[n].free - len)]) + rest[len..] == Flat(blocks) + rest
  {
    hide Flat;
    var n := |blocks| - 1;
    var filled := blocks[n := Block(blocks[n].data + rest[..len], blocks[n].free - len)];
    FlatLast(blocks);
    FlatLast(filled);
    assert filled[..n] == blocks[..n];
    assert rest == rest[..len] + rest[len..];
  }

  lemma NewBlock(blocks: seq<Block>)
    ensures Flat(blocks + [Block([], BLOCK_SIZE)]) == Flat(blocks)
  {
    var more := blocks + [Block([], BLOCK_SIZE)];
    FlatLast(more);
    assert more[..|more| - 1] == blocks;
  }

  // ---------------------------------------------------------------- system calls

  /** What one write call does. */
  datatype Write = Wrote(n: nat) | Interrupted | Failed

  datatype Policy = Always | EverySecond | NoSync

  /** How many of `len` bytes get out when the calls do `writes`, and after those
      everything succeeds. */
  function Written(len: nat, writes: seq<Write>): (n: nat)
    ensures n <= len
    decreases |writes|
  {
    if len == 0 then 0
    else if writes == [] then len
    else
      match writes[0]
      case Interrupted => Written(len, writes[1..])
      case Failed => 0
      case Wrote(k) =>
        var m := if k < len then k else len;
        m + Written(len - m, writes[1..])
  }

  /** No call fails for good: each writes something, nothing yet, or is interrupted. */
  predicate NoneFails(writes: seq<Write>) {
    forall i :: 0 <= i < |writes| ==> !writes[i].Failed?
  }

  function Amount(w: Write): nat { if w.Wrote? then w.n else 0 }

  /** What the calls offer to take altogether. */
  function Offered(writes: seq<Write>): nat {
    if writes == [] then 0 else Offered(writes[..|writes| - 1]) + Amount(writes[|writes| - 1])
  }

  lemma {:induction false} OfferedMore(w: Write, writes: seq<Write>)
    ensures Offered([w] + writes) == Amount(w) + Offered(writes)
    decreases |writes|
  {
    if writes != [] {
      var n := |writes| - 1;
      assert ([w] + writes)[..n + 1] == [w] + writes[..n];
      OfferedMore(w, writes[..n]);
    } else {
      assert [w][..0] == [];
    }
  }

  /** If no call fails, everything gets out. */
  lemma {:induction false} AllGetsOut(len: nat, writes: seq<Write>)
    requires NoneFails(writes)
    ensures Written(len, writes) == len
    decreases |writes|
  {
    if len > 0 && writes != [] {
      var m := if Amount(writes[0]) < len then Amount(writes[0]) else len;
      AllGetsOut(len - m, writes[1..]);
    }
  }

  /** If one does, all that was offered before it, as far as there was anything to
      write. */
  lemma {:induction false} PartGetsOut(len: nat, before: seq<Write>, after: seq<Write>)
    requires NoneFails(before)
    ensures Written(len, before + [Failed] + after) == if Offered(before) < len then Offered(before) else len
    decreases |before|
  {
    var all := before + [Failed] + after;
    if before == [] {
      assert all[0] == Failed;
    } else {
      assert before == [before[0]] + before[1..];
      OfferedMore(before[0], before[1..]);
      if len > 0 {
        assert all[0] == before[0] && all[1..] == before[1..] + [Failed] + after;
        var m := if Amount(before[0]) < len then Amount(before[0]) else len;
        PartGetsOut(len - m, before[1..], after);
      }
    }
  }

  lemma WrittenMeans(data: Bytes, writes: seq<Write>)
    ensures NoneFails(writes) ==> Written(|data|, writes) == |data| && data[..|data|] == data
    ensures forall before, after :: NoneFails(before) && writes == before + [Failed] + after ==>
              data[..Written(|data|, writes)] == if Offered(before) < |data| then data[..Offered(before)] else data
  {
    hide Written, Offered;
    if NoneFails(writes) {
      AllGetsOut(|data|, writes);
    }
    assert data[..|data|] == data;
    forall before, after | NoneFails(before) && writes == before + [Failed] + after
      ensures data[..Written(|data|, writes)] == if Offered(before) < |data| then data[..Offered(before)] else data
    {
      PartGetsOut(|data|, before, after);
    }
  }

  /** How many bytes of the block buffer the pipe takes. */
  function Sent(blocks: seq<Block>, writes: seq<Write>): nat
    decreases |writes| + |blocks|
  {
    if blocks == [] then 0
    else if blocks[0].data == [] then Sent(blocks[1..], writes)
    else if writes == [] || !writes[0].Wrote? || writes[0].n == 0 then 0
    else if writes[0].n < |blocks[0].data| then
      var n := writes[0].n;
      n + Sent(blocks[0 := Block(blocks[0].data[n..], blocks[0].free + n)], writes[1..])
    else |blocks[0].data| + Sent(blocks[1..], writes[1..])
  }

  /** Every block gets out in one write each. */
  predicate AllWritten(blocks: seq<Block>, writes: seq<Write>) {
    if blocks == [] then true
    else if blocks[0].data == [] then AllWritten(blocks[1..], writes)
    else if writes == [] then AllWritten(blocks[1..], [])
    else writes[0] == Wrote(|blocks[0].data|) && AllWritten(blocks[1..], writes[1..])
  }

  /** A pipe that takes every block whole. */
  predicate TakesAll(blocks: seq<Block>, writes: seq<Write>) {
    |blocks| <= |writes| && forall i :: 0 <= i < |writes| ==> writes[i].Wrote? && writes[i].n >= BLOCK_SIZE
  }

  /** Such a pipe takes the whole buffer. */
  lemma {:induction false} AllSent(blocks: seq<Block>, writes: seq<Write>)
    requires BlocksOk(blocks) && TakesAll(blocks, writes)
    ensures Sent(blocks, writes) == |Flat(blocks)|
    decreases |blocks|
  {
    if blocks != [] {
      AllSent(blocks[1..], if blocks[0].data == [] then writes else writes[1..]);
    }
  }

  /** A pipe that takes a byte now gets one, if there is any; and no pipe gets more than
      it takes. */
  lemma {:induction false} SomeSent(blocks: seq<Block>, writes: seq<Write>)
    ensures Flat(blocks) != [] && writes != [] && writes[0].Wrote? && writes[0].n > 0 ==> Sent(blocks, writes) > 0
    ensures Sent(blocks, writes) <= Offered(writes)
    decreases |writes| + |blocks|
  {
    hide Offered;
    if blocks != [] {
      if blocks[0].data == [] {
        DropFirst(blocks);
        SomeSent(blocks[1..], writes);
      } else if writes != [] && writes[0].Wrote? && writes[0].n > 0 {
        assert writes == [writes[0]] + writes[1..];
        OfferedMore(writes[0], writes[1..]);
        var n := writes[0].n;
        if n < |blocks[0].data| {
          SomeSent(blocks[0 := Block(blocks[0].data[n..], blocks[0].free + n)], writes[1..]);
        } else {
          SomeSent(blocks[1..], writes[1..]);
        }
      }
    }
  }

  /** The blocks that hold something. */
  function Filled(blocks: seq<Block>): seq<Block> {
    if blocks == [] then [] else (if blocks[0].data == [] then [] else [blocks[0]]) + Filled(blocks[1..])
  }

  /** Each of them, in order, gets out whole in its own call. */
  predicate OneCallEach(filled: seq<Block>, writes: seq<Write>) {
    forall i :: 0 <= i < |writes| && i < |filled| ==> writes[i] == Wrote(|filled[i].data|)
  }

  lemma OneCallMore(b: Block, filled: seq<Block>, w: Write, writes: seq<Write>)
    ensures OneCallEach([b] + filled, [w] + writes) <==> w == Wrote(|b.data|) && OneCallEach(filled, writes)
  {
    var bs, ws := [b] + filled, [w] + writes;
    assert bs[0] == b && ws[0] == w;
    assert forall i :: 0 <= i < |filled| ==> bs[i + 1] == filled[i];
    assert forall i :: 0 <= i < |writes| ==> ws[i + 1] == writes[i];
    if OneCallEach(bs, ws) {
      forall i | 0 <= i < |writes| && i < |filled| ensures writes[i] == Wrote(|filled[i].data|) {
        assert ws[i + 1] == Wrote(|bs[i + 1].data|);
      }
    }
  }

  lemma {:induction false} AllWrittenIff(blocks: seq<Block>, writes: seq<Write>)
    ensures AllWritten(blocks, writes) <==> OneCallEach(Filled(blocks), writes)
    decreases |blocks|
  {
    hide OneCallEach;
    if blocks == [] {
      NoCalls([], writes);
    } else if blocks[0].data == [] {
      AllWrittenIff(blocks[1..], writes);
      assert [] + Filled(blocks[1..]) == Filled(blocks[1..]);
    } else if writes == [] {
      AllWrittenIff(blocks[1..], []);
      NoCalls(Filled(blocks), []);
      NoCalls(Filled(blocks[1..]), []);
    } else {
      AllWrittenIff(blocks[1..], writes[1..]);
      assert writes == [writes[0]] + writes[1..];
      OneCallMore(blocks[0], Filled(blocks[1..]), writes[0], writes[1..]);
    }
  }

  lemma NoCalls(filled: seq<Block>, writes: seq<Write>)
    requires filled == [] || writes == []
    ensures OneCallEach(filled, writes)
  {
  }

  /** Whether a flush is put off: a sync is in progress, for less than two seconds. */
  predicate Postponed(force: bool, policy: Policy, syncing: bool, now: int, since: int) {
    policy == EverySecond && !force && syncing && (since == 0 || now - since < 2)
  }

  class AppendOnlyFile {
    var on: bool
    var selectedDb: int
    var file: Bytes
    var aofBuf: Bytes
    var currentSize: nat
    var forked: bool
    var blocks: seq<Block>
    var pipe: Bytes
    var stopSending: bool
    var lastWriteOk: bool
    var postponedSince: int

    ghost predicate Valid()
      reads this
    {
      BlocksOk(blocks) && currentSize == |file| && (!forked ==> blocks == [] && pipe == [])
    }

    ghost function Abs(): Aof
      reads this
    {
      Aof(on, selectedDb, file, aofBuf, currentSize, forked, Flat(blocks), pipe, stopSending)
    }

    constructor (waiting: bool, existing: Bytes)
      ensures Valid()
      ensures Abs() == Aof(!waiting, -1, existing, [], |existing|, false, [], [], false)
    {
      on := !waiting;
      selectedDb := -1;
      file, currentSize := existing, |existing|;
      aofBuf, blocks, pipe := [], [], [];
      forked, stopSending := false, false;
      lastWriteOk, postponedSince := true, 0;
    }

    // -------------------------------------------------------------- feeding

    /** Appends to the block buffer, filling the last block before allocating. */
    method RewriteBufferAppend(s: Bytes)
      requires BlocksOk(blocks)
      modifies this`blocks
      ensures BlocksOk(blocks)
      ensures Flat(blocks) == old(Flat(blocks)) + s
    {
      hide Flat;
      var rest := s;
      var room := |blocks| > 0;   // there is a block to try
      while rest != []
        invariant BlocksOk(blocks)
        invariant room <==> |blocks| > 0
        invariant Flat(blocks) + rest == old(Flat(blocks)) + s
        decreases |rest|, if |blocks| > 0 && blocks[|blocks| - 1].free > 0 then 0 else 1
      {
        if room {
          var n := |blocks| - 1;
          var last := blocks[n];
          var len := if last.free < |rest| then last.free else |rest|;
          if len > 0 {
            FillLast(blocks, rest, len);
            blocks := blocks[n := Block(last.data + rest[..len], last.free - len)];
            rest := rest[len..];
          }
        }
        if rest != [] {
          NewBlock(blocks);
          blocks := blocks + [Block([], BLOCK_SIZE)];
          room := true;
        }
      }
      assert Flat(blocks) + [] == Flat(blocks);
    }

    /** PEXPIREAT for a command with an expiry. */
    method CatExpireAt(dst: Bytes, k: Kind, key: Bytes, text: Bytes, clock: int) returns (r: Bytes)
      requires InSeconds(k) || IsRelative(k)
      ensures r == dst + EncodeCommand(ExpireAt(key, When(k, text, clock)))
    {
      var when := ParseInt(text);
      if k.KExpire? || k.KSetEx? || k.KExpireAt? {
        when := Wrap64(when * 1000);
      }
      if k.KExpire? || k.KPExpire? || k.KSetEx? || k.KPSetEx? {
        when := Wrap64(when + clock);
      }
      r := CatAppendOnlyGenericCommand(dst, [PEXPIREAT, key, Decimal(when)]);
    }

    /** The scan for EX and PX among the arguments of SET. */
    method ScanOptions(argv: Argv) returns (ex: SetTime, px: SetTime)
      requires |argv| >= 3
      ensures ScanTime(argv, 3, SetTime.Never, SetTime.Never) == Scan(ex, px)
      ensures ex.After? ==> ex.unit.KExpire?
      ensures px.After? ==> px.unit.KPExpire?
    {
      ex, px := SetTime.Never, SetTime.Never;
      for i := 3 to |argv|
        invariant ScanTime(argv, 3, SetTime.Never, SetTime.Never) == ScanTime(argv, i, ex, px)
        invariant ex.After? ==> ex.unit.KExpire?
        invariant px.After? ==> px.unit.KPExpire?
      {
        var u := Upper(argv[i]);
        assert EX != PX;
        if u == EX && i + 1 < |argv| {
          ex := After(KExpire, argv[i + 1]);
        }
        if u == PX && i + 1 < |argv| {
          px := After(KPExpire, argv[i + 1]);
        }
      }
    }

    /** The translated command, without the SELECT. */
    method CatCommand(dst: Bytes, c: Fed) returns (r: Bytes)
      requires Feedable(c)
      ensures r == dst + EncodeAll(if Executed(c) then Translate(c) else [c.argv])
    {
      hide KindOf, EncodeCommand, EncodeAll, Decimal, ReadOptions;
      var k := KindOf(c.argv[0]);
      var argv := c.argv;
      if k.KExpire? || k.KPExpire? || k.KExpireAt? {
        r := CatExpireAt(dst, k, argv[1], argv[2], c.clock);
        EncodeAllSingle(ExpireAt(argv[1], When(k, argv[2], c.clock)));
      } else if k.KSetEx? || k.KPSetEx? {
        r := CatAppendOnlyGenericCommand(dst, [SET, argv[1], argv[3]]);
        r := CatExpireAt(r, k, argv[1], argv[2], c.clock);
        EncodeAllTwo([SET, argv[1], argv[3]], ExpireAt(argv[1], When(k, argv[2], c.clock)));
        ConcatAssoc(dst, EncodeCommand([SET, argv[1], argv[3]]), EncodeCommand(ExpireAt(argv[1], When(k, argv[2], c.clock))));
      } else if k.KSet? && |argv| > 3 {
        r := CatSet(dst, c);
      } else {
        r := CatAppendOnlyGenericCommand(dst, argv);
        EncodeAllSingle(argv);
      }
    }

    method CatSet(dst: Bytes, c: Fed) returns (r: Bytes)
      requires Executed(c) && KindOf(c.argv[0]).KSet? && |c.argv| > 3
      ensures r == dst + EncodeAll(Translate(c))
    {
      hide KindOf, EncodeCommand, EncodeAll, Decimal, ReadOptions, ScanTime;
      var set3 := c.argv[..3];
      r := CatAppendOnlyGenericCommand(dst, set3);
      var ex, px := ScanOptions(c.argv);
      ScanAgrees(c.argv, 3, SetTime.Never, SetTime.Never);
      assert !(ex.After? && px.After?);
      EncodeAllSingle(set3);
      if ex.After? {
        r := CatExpireAt(r, ex.unit, c.argv[1], ex.text, c.clock);
        assert Translate(c) == [set3, ExpireAt(c.argv[1], When(ex.unit, ex.text, c.clock))];
        EncodeAllTwo(set3, ExpireAt(c.argv[1], When(ex.unit, ex.text, c.clock)));
        ConcatAssoc(dst, EncodeCommand(set3), EncodeCommand(ExpireAt(c.argv[1], When(ex.unit, ex.text, c.clock))));
      } else if px.After? {
        r := CatExpireAt(r, px.unit, c.argv[1], px.text, c.clock);
        assert Translate(c) == [set3, ExpireAt(c.argv[1], When(px.unit, px.text, c.clock))];
        EncodeAllTwo(set3, ExpireAt(c.argv[1], When(px.unit, px.text, c.clock)));
        ConcatAssoc(dst, EncodeCommand(set3), EncodeCommand(ExpireAt(c.argv[1], When(px.unit, px.text, c.clock))));
      } else {
        assert Translate(c) == [set3];
      }
    }

    /** Logs one command: a SELECT if the database changed, the translated command;
        to the file's buffer if logging is on, to the block buffer if a rewrite is
        running. */
    method FeedAppendOnlyFile(c: Fed)
      requires Valid() && Feedable(c)
      modifies this`selectedDb, this`aofBuf, this`blocks
      ensures Valid() && Abs() == FeedOne(old(Abs()), c) && selectedDb == c.dictid
      ensures var select := if c.dictid == old(selectedDb) then [] else EncodeCommand([SELECT, Decimal(c.dictid)]);
              var text := select + EncodeAll(if Executed(c) then Translate(c) else [c.argv]);
              && aofBuf == (if on then old(aofBuf) + text else old(aofBuf))
              && Flat(blocks) == (if forked then old(Flat(blocks)) + text else old(Flat(blocks)))
    {
      hide EncodeAll, Flat, KindOf, Executed, Translate, EncodeCommand;
      var buf: Bytes := [];
      ghost var sel := SelectIfNeeded(selectedDb, c.dictid);
      NoneEncoded();
      if c.dictid != selectedDb {
        var seldb := Decimal(c.dictid);
        buf := [42, 50, 13, 10, 36, 54, 13, 10] + SELECT + CRLF + NumberLine(DOLLAR, |seldb|) + seldb + CRLF;
        SelectPrinted(seldb);
        EncodeAllSingle([SELECT, seldb]);
        selectedDb := c.dictid;
      }
      assert buf == EncodeAll(sel);
      ghost var tail := if Executed(c) then Translate(c) else [c.argv];
      buf := CatCommand(buf, c);
      EncodeAllConcat(sel, tail);
      if on {
        aofBuf := aofBuf + buf;
      }
      if forked {
        RewriteBufferAppend(buf);
      }
    }

    // -------------------------------------------------------------- flushing

    /** Write until everything is out or an error occurs; the result is what got
        out, or -1 if nothing did. `writes` is what the calls do. */
    method AofWrite(data: Bytes, writes: seq<Write>) returns (n: int)
      modifies this`file
      ensures n == if data != [] && Written(|data|, writes) == 0 then -1 else Written(|data|, writes)
      ensures file == old(file) + data[..Written(|data|, writes)]
      ensures NoneFails(writes) ==> n == |data| && file == old(file) + data
      ensures forall before, after :: NoneFails(before) && writes == before + [Failed] + after ==>
                file == old(file) + if Offered(before) < |data| then data[..Offered(before)] else data
    {
      hide Offered;
      var total, calls := 0, writes;
      while total < |data|
        invariant 0 <= total <= |data|
        invariant file == old(file) + data[..total]
        invariant Written(|data|, writes) == total + Written(|data| - total, calls)
        decreases |calls|, |data| - total
      {
        var call := if calls == [] then Wrote(|data| - total) else calls[0];
        calls := if calls == [] then [] else calls[1..];
        match call
        case Interrupted =>
        case Failed =>
          WrittenMeans(data, writes);
          return if total > 0 then total else -1;
        case Wrote(k) =>
          var m := if k < |data| - total then k else |data| - total;
          file := file + data[total..total + m];
          assert data[..total + m] == data[..total] + data[total..total + m];
          total := total + m;
      }
      n := total;
      WrittenMeans(data, writes);
    }

    /** Writes the buffer to the file. A short write is undone by truncating the
        file; if that fails, what got out is dropped from the buffer instead. Under
        the `Always` policy an incomplete write ends the process. */
    method FlushAppendOnlyFile(force: bool, policy: Policy, syncing: bool, now: int, writes: seq<Write>, truncates: bool)
      returns (exits: bool)
      requires Valid()
      modifies this`file, this`aofBuf, this`currentSize, this`lastWriteOk, this`postponedSince
      ensures !exits ==> Valid() && Flushes(old(Abs()), Abs())
      ensures NoneFails(writes) && !(policy == EverySecond && !force && syncing && (old(postponedSince) == 0 || now - old(postponedSince) < 2)) ==>
                !exits && file == old(file) + old(aofBuf) && aofBuf == []
      ensures forall before, after ::
                && NoneFails(before) && writes == before + [Failed] + after && Offered(before) < |old(aofBuf)|
                && !(policy == EverySecond && !force && syncing && (old(postponedSince) == 0 || now - old(postponedSince) < 2)) ==>
                  && exits == (policy == Always)
                  && (!exits ==> !lastWriteOk && if truncates then file == old(file) && aofBuf == old(aofBuf)
                                 else file == old(file) + old(aofBuf)[..Offered(before)] && aofBuf == old(aofBuf)[Offered(before)..])
      ensures var n := Written(|old(aofBuf)|, writes);
              var idle := old(aofBuf) == [] || Postponed(force, policy, syncing, now, old(postponedSince));
              && exits == (!idle && policy == Always && n < |old(aofBuf)|)
              && (!exits && !idle ==> lastWriteOk == (n == |old(aofBuf)|))
              && (!exits ==> aofBuf == if idle || (n < |old(aofBuf)| && truncates) then old(aofBuf) else old(aofBuf)[n..])
              && postponedSince == if old(aofBuf) == [] then old(postponedSince)
                                   else if !idle then 0
                                   else if old(postponedSince) == 0 then now else old(postponedSince)
    {
      hide Flat, Written, NoneFails, Offered;
      exits := false;
      if aofBuf == [] {
        assert file + aofBuf == file;
        return;
      }
      if policy == EverySecond && !force && syncing {
        if postponedSince == 0 {
          postponedSince := now;
          return;
        } else if now - postponedSince < 2 {
          return;
        }
      }
      exits := WriteBuffer(policy, writes, truncates);
      ghost var buf := old(aofBuf);
      forall before, after | NoneFails(before) && writes == before + [Failed] + after && Offered(before) < |buf|
        ensures Written(|buf|, writes) == Offered(before)
      {
        PartGetsOut(|buf|, before, after);
      }
      assert old(file) + [] == old(file);
    }

    /** The part of the flush that writes. */
    method WriteBuffer(policy: Policy, writes: seq<Write>, truncates: bool) returns (exits: bool)
      requires Valid() && aofBuf != []
      modifies this`file, this`aofBuf, this`currentSize, this`lastWriteOk, this`postponedSince
      ensures !exits ==> Valid() && Flushes(old(Abs()), Abs())
      ensures NoneFails(writes) ==> !exits && file == old(file) + old(aofBuf) && aofBuf == []
      ensures !exits ==> file == old(file) + if Written(|old(aofBuf)|, writes) < |old(aofBuf)| && truncates then []
                                             else old(aofBuf)[..Written(|old(aofBuf)|, writes)]
      ensures var n := Written(|old(aofBuf)|, writes);
              && exits == (policy == Always && n < |old(aofBuf)|)
              && (!exits ==> lastWriteOk == (n == |old(aofBuf)|)) && postponedSince == 0
              && (!exits ==> aofBuf == if n < |old(aofBuf)| && truncates then old(aofBuf) else old(aofBuf)[n..])
    {
      hide Flat, Written, NoneFails;
      exits := false;
      var n := AofWrite(aofBuf, writes);
      postponedSince := 0;
      if n != |aofBuf| {
        if n != -1 && truncates {
          file := file[..currentSize];
          assert file == old(file);
          n := -1;
        }
        if policy == Always {
          return true;
        }
        lastWriteOk := false;
        if n > 0 {
          currentSize := currentSize + n;
          assert aofBuf == aofBuf[..n] + aofBuf[n..];
          aofBuf := aofBuf[n..];
        } else {
          assert aofBuf == aofBuf[0..];
        }
        return;
      }
      lastWriteOk := true;
      currentSize := currentSize + n;
      aofBuf := [];
    }

    // -------------------------------------------------------------- the rewrite

    /** Starts a rewrite; refused while one, or a child that saves a snapshot, is running. */
    method StartRewrite(rdbChild: bool) returns (ok: bool)
      requires Valid()
      modifies this`forked, this`selectedDb, this`pipe, this`stopSending
      ensures Valid() && ok == (!old(forked) && !rdbChild)
      ensures Abs() == if ok then Fork(old(Abs())) else old(Abs())
    {
      ok := !forked && !rdbChild;
      if ok {
        forked, pipe, stopSending, selectedDb := true, [], false, -1;
      }
    }

    /** The sending loop. */
    method SendBlocks(writes: seq<Write>)
      requires Valid() && forked
      modifies this`blocks, this`pipe
      ensures Valid() && Sends(old(Abs()), Abs())
      ensures |pipe| == |old(pipe)| + if stopSending then 0 else Sent(old(blocks), writes)
    {
      hide Flat;
      var calls := writes;
      ghost var all := pipe + Flat(blocks);
      while !stopSending && |blocks| > 0
        invariant BlocksOk(blocks) && |old(pipe)| <= |pipe|
        invariant pipe + Flat(blocks) == all
        invariant stopSending ==> pipe == old(pipe) && blocks == old(blocks)
        invariant !stopSending ==> |old(pipe)| + Sent(old(blocks), writes) == |pipe| + Sent(blocks, calls)
        decreases |calls| + |blocks|
      {
        var block := blocks[0];
        if |block.data| > 0 {
          if calls == [] || !calls[0].Wrote? || calls[0].n == 0 {
            return;
          }
          var n := if calls[0].n < |block.data| then calls[0].n else |block.data|;
          SentStep(blocks, calls, n);
          calls := calls[1..];
          SendFirst(pipe, blocks, n);
          pipe := pipe + block.data[..n];
          block := Block(block.data[n..], block.free + n);
          blocks := blocks[0 := block];
        }
        if |block.data| == 0 {
          DropFirst(blocks);
          blocks := blocks[1..];
        }
      }
    }

    /** The write handler of the data pipe: sends from the first block, drops blocks
        that are empty, until the pipe is full, the buffer is empty or the child
        asked to stop. */
    method ChildWriteDiffData(writes: seq<Write>)
      requires Valid() && forked
      modifies this`blocks, this`pipe
      ensures Valid() && Sends(old(Abs()), Abs())
      ensures |pipe| == |old(pipe)| + if stopSending then 0 else Sent(old(blocks), writes)
      ensures !stopSending && TakesAll(old(blocks), writes) ==> pipe == old(pipe) + old(Flat(blocks)) && Flat(blocks) == []
      ensures !stopSending && old(Flat(blocks)) != [] && writes != [] && writes[0].Wrote? && writes[0].n > 0 ==> |pipe| > |old(pipe)|
    {
      hide Flat, Offered, Sent, TakesAll, BlocksOk;
      SomeSent(blocks, writes);
      if TakesAll(blocks, writes) {
        AllSent(blocks, writes);
      }
      SendBlocks(writes);
      NoneLeft(pipe, Flat(blocks), old(pipe), old(Flat(blocks)));
    }

    /** The child's single '!' arrived: send nothing more. */
    method ChildAsksToStop()
      requires Valid() && forked
      modifies this`stopSending
      ensures Valid() && Abs() == old(Abs()).(stop := true)
    {
      stopSending := true;
    }

    /** Every block in one write each; anything short is an error. */
    method RewriteBufferWrite(temp: Bytes, writes: seq<Write>) returns (ok: bool, r: Bytes)
      ensures ok == AllWritten(blocks, writes)
      ensures ok <==> OneCallEach(Filled(blocks), writes)
      ensures ok ==> r == temp + Flat(blocks)
    {
      hide Flat, Filled, OneCallEach;
      AllWrittenIff(blocks, writes);
      r := temp;
      var calls := writes;
      AllBlocks(blocks);
      for i := 0 to |blocks|
        invariant r == temp + Flat(blocks[..i])
        invariant AllWritten(blocks, writes) == AllWritten(blocks[i..], calls)
      {
        assert blocks[i..][1..] == blocks[i + 1..];
        FlatLast(blocks[..i + 1]);
        assert blocks[..i + 1][..i] == blocks[..i];
        var used := |blocks[i].data|;
        if used > 0 {
          var call := if calls == [] then Wrote(used) else calls[0];
          calls := if calls == [] then [] else calls[1..];
          if call != Wrote(used) {
            return false, r;
          }
          r := r + blocks[i].data;
        }
      }
      ok := true;
    }

    /** The child is gone. If it succeeded, its file is completed with what it was
        not sent and becomes the log; if anything fails the old log stays. */
    method RewriteDone(success: bool, temp: Bytes, opens: bool, writes: seq<Write>, renames: bool) returns (installed: bool)
      requires Valid() && forked
      modifies this
      ensures Valid()
      ensures Abs() == if installed then Install(old(Abs()), temp) else Cleanup(old(Abs()))
      ensures installed == (success && opens && renames && AllWritten(old(blocks), writes))
      ensures success && opens && renames && writes == [] ==> installed && file == temp + old(Flat(blocks)) && aofBuf == [] && on
    {
      hide Flat;
      AllWrittenIff(blocks, writes);
      installed := false;
      if success && opens {
        var ok, r := RewriteBufferWrite(temp, writes);
        if ok && renames {
          file := r;
          selectedDb := -1;
          currentSize := |file|;
          aofBuf := [];
          on := true;
          installed := true;
        }
      }
      pipe, blocks, forked := [], [], false;
      NoBlocks();
    }
  }

  lemma SentStep(blocks: seq<Block>, writes: seq<Write>, n: nat)
    requires blocks != [] && blocks[0].data != [] && writes != [] && writes[0].Wrote? && writes[0].n > 0
    requires n == if writes[0].n < |blocks[0].data| then writes[0].n else |blocks[0].data|
    ensures Sent(blocks, writes) == n + Sent(blocks[0 := Block(blocks[0].data[n..], blocks[0].free + n)], writes[1..])
  {
    var left := blocks[0 := Block(blocks[0].data[n..], blocks[0].free + n)];
    assert left[1..] == blocks[1..];
  }

  lemma SendFirst(pipe: Bytes, blocks: seq<Block>, n: nat)
    requires blocks != [] && n <= |blocks[0].data|
    ensures (pipe + blocks[0].data[..n]) + Flat(blocks[0 := Block(blocks[0].data[n..], blocks[0].free + n)]) == pipe + Flat(blocks)
  {
    var data := blocks[0].data;
    var sent := blocks[0 := Block(data[n..], blocks[0].free + n)];
    var rest := Flat(blocks[1..]);
    assert sent[1..] == blocks[1..];
    assert Flat(sent) == data[n..] + rest && Flat(blocks) == data + rest;
    assert data == data[..n] + data[n..];
  }

  lemma DropFirst(blocks: seq<Block>)
    requires blocks != [] && blocks[0].data == []
    ensures Flat(blocks[1..]) == Flat(blocks)
  {
    assert [] + Flat(blocks[1..]) == Flat(blocks[1..]);
  }

  lemma NoneLeft(a: Bytes, b: Bytes, c: Bytes, d: Bytes)
    requires a + b == c + d
    ensures |a| == |c + d| ==> a == c + d && b == []
  {
    assert |a + b| == |a| + |b|;
    if |a| == |c + d| {
      assert b == [] && a + b == a;
    }
  }

  lemma NoBlocks()
    ensures Flat([]) == []
  {
  }

  lemma AllBlocks(blocks: seq<Block>)
    ensures Flat(blocks[..0]) == [] && Flat(blocks[..|blocks|]) == Flat(blocks)
  {
    assert blocks[..|blocks|] == blocks;
  }

  lemma NoneEncoded()
    ensures EncodeAll([]) == []
  {
  }

  lemma EncodeAllTwo(a: Argv, b: Argv)
    ensures EncodeAll([a, b]) == EncodeCommand(a) + EncodeCommand(b)
  {
    hide EncodeCommand;
    assert [a, b] == [a] + [b];
    EncodeAllConcat([a], [b]);
    EncodeAllSingle(a);
    EncodeAllSingle(b);
  }

  /** The SELECT written as text is the SELECT the printer would print. */
  lemma SelectPrinted(seldb: Bytes)
    ensures [42, 50, 13, 10, 36, 54, 13, 10] + SELECT + CRLF + NumberLine(DOLLAR, |seldb|) + seldb + CRLF
            == EncodeCommand([SELECT, seldb])
  {
    hide NumberLine;
    SelectHeader();
    var n := NumberLine(DOLLAR, |seldb|);
    assert [SELECT, seldb][1..] == [seldb] && [seldb][1..] == [];
    assert EncodeBulks([]) == [];
    assert EncodeBulks([seldb]) == EncodeBulk(seldb);
    hide EncodeBulks;
    FiveParts([42, 50, 13, 10], [36, 54, 13, 10], SELECT, CRLF, n, seldb);
  }

  lemma SelectHeader()
    ensures NumberLine(STAR, 2) == [42, 50, 13, 10] && NumberLine(DOLLAR, 6) == [36, 54, 13, 10]
  {
    assert Digits(2) == [50] && Digits(6) == [54];
  }

  lemma FiveParts(a: Bytes, b: Bytes, c: Bytes, d: Bytes, e: Bytes, f: Bytes)
    ensures (a + b) + c + d + e + f + d == a + ((b + c + d) + (e + f + d))
  {
  }
}
