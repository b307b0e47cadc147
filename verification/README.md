# Redis persistence, cluster, blocking and bit operations: a verified model

A Dafny model of the parts of this repository whose correctness is least obvious, with
proofs. Most of it is the Redis 5.0.10 source under `code/lesson1.10`; the thread pool is
the course's own web server. `dafny verify dfyconfig.toml` checks everything.

| files | part of the system |
|---|---|
| `Resp`, `Dataset`, `AofFeed`, `AofLoad`, `AofRecovery`, `AofDump`, `AofServer`, `AofDurability` | the append-only file: wire format, what is logged, loading and recovery, the dump of a rewrite, flushing, the rewrite protocol between server and child |
| `ClusterBasics`, `ClusterElection`, `ClusterEpochs`, `ClusterCollision`, `ClusterSlots`, `ClusterConvergence` | votes and elections, config epochs and their collisions, slot ownership and slot claims |
| `Adlist`, `Blocking`, `ReadyKeys`, `Delivery`, `Propagation`, `BlockingRuns` | the linked list, the index of blocked clients made of such lists, the drain that serves them, what clients get and what is propagated, and all of it over whole runs |
| `Bits`, `Bitfield`, `BitCount`, `BitSearch`, `BitOp` | bitfields with overflow policies, population count, bit search, BITOP |
| `Keyspace` | the dictionary with expires and the slot index |
| `ThreadPool`, `BackgroundJobs` | the web server's request queue and Redis' background jobs |
| `Basics` | an option type, the elements of a sequence, sizes of sets |

Objects that the source updates in place are classes with the source's fields; each
method is proved equal to, or related to, a function or relation on values, and those
functions are the steps of the state machines over which the whole-run theorems are
stated. Time, randomness, system calls, the network and the outcome of writes are
parameters, chosen freely. The commands other than those the log treats specially are an
arbitrary function on the databases; CRC16 is an arbitrary function on keys.

What fails, and exactly when it does not:

- An expiry is computed from one clock reading when a command executes and from another
  when it is logged (`LoggedExpiryExact`).
- A log cut inside a command of an open transaction is truncated to the end of the last
  whole command, inside the transaction; what is logged next is then lost or applied
  together with the torn part (`AppendableAfterRecovery`).
- A replica's vote count is cleared when a retry is scheduled but the election's epoch
  changes only when the request is sent, so late votes of the old attempt count for the
  new one (`UnbackedWinIff`, `TwoWinners`).
- A hard reset keeps the epoch of the last election, so a node that joins again can win
  with an epoch past its current one (`EpochDominance`, `ResetThenWin`).
- A slot whose owner claims nothing can stay with it, and which node ends up with it can
  depend on the order of packets (`ConvergesIffOwnerYields`, `OrderMatters`).
- Replacing a value by a list does not announce the key as adding one does: a client that
  waits for the key while it holds a value of another type is passed over
  (`AllFedIffCareful`, `ForgottenWaiter`).
- The comment above the signed overflow check says that `max - value` is used only after
  the value's range was checked; for widths below 64 it is used before, and a SET of a
  value far below the range saturates to the upper bound (`CheckSignedBitfieldOverflow`).
- `threadpool::append` compares with `>`, so the queue holds one request more than the
  limit (`ExceedsLimit`, `ExceedsIff`).
- The pool's workers ignore whether their wait succeeded. That none finds the queue empty
  holds as long as every wait succeeds (`NeverEmpty`, `EmptyAfterFailedWait`).

The election results assume a fixed set of voting masters on which all agree, no hard
reset, and epochs and votes that are saved before they are sent. Collision results are
about masters whose config epochs nothing else changes. A slot claim is the latest of its
sender: no view knows the sender under a greater epoch. Bitfields are 1 to 63 bits wide, or
64 if signed; at 64 the source shifts a word by its own size, which C leaves undefined and
which is taken here to shift everything out (`WordWide` says what else would do).

## Model

| member | source | states |
|---|---|---|
| `Resp.CatAppendOnlyGenericCommand` | code/lesson1.10/redis-5.0.10/src/aof.c:518-541 | the printing loop appends exactly the encoding of the command to what was there |
| `Resp.ParseDecimal` | code/lesson1.10/redis-5.0.10/src/aof.c:773-795 | reading back a printed number gives the number, whatever non-digit follows it |
| `Resp.ParseForms` | code/lesson1.10/redis-5.0.10/src/aof.c:773-795 | reading a number skips blanks, takes one sign or none, stops at the first byte that is no digit, and is zero without digits |
| `Resp.WireFormat` | code/lesson1.10/redis-5.0.10/src/aof.c:518-541 | the printed command in bytes |
| `Resp.ReadEncoded` | code/lesson1.10/redis-5.0.10/src/aof.c:752-858 | reading a printed command, followed by anything, returns exactly that command, binary-safe, and consumes exactly its bytes |
| `Resp.ReadCutCommand` | code/lesson1.10/redis-5.0.10/src/aof.c:752-858 | every proper non-empty prefix of a printed command is read as an unexpected end of file, never as a command or as a format error |
| `AofLoad.LoadAppendOnlyFile` | code/lesson1.10/redis-5.0.10/src/aof.c:698-910 | the loader loop with its recovery jumps computes the reference loader, for every file and setting; the rows below say what that gives |
| `AofLoad.LoadFromCut` | code/lesson1.10/redis-5.0.10/src/aof.c:752-898 | from any point of a log on, the loader replays exactly the commands that are whole before the cut |
| `AofLoad.LoadCutLog` | code/lesson1.10/redis-5.0.10/src/aof.c:752-898 | for every byte prefix of every log exactly the wholly contained commands are replayed; the file is truncated to their end, to before the last MULTI when the cut is on a boundary inside an open transaction, and otherwise kept |
| `AofLoad.LoadWholeLog` | code/lesson1.10/redis-5.0.10/src/aof.c:852-875 | a log that leaves no transaction open is replayed whole and kept whole |
| `AofLoad.LoadStrict` | code/lesson1.10/redis-5.0.10/src/aof.c:852-898 | when truncation is not allowed, a cut log is loaded, and kept whole, exactly when it ends with a whole command and leaves no transaction open; otherwise the process exits |
| `AofLoad.UnknownExits` | code/lesson1.10/redis-5.0.10/src/aof.c:814-821 | under either setting, a command with an unknown name after any log, whatever follows it, exits |
| `AofLoad.GarbageExits` | code/lesson1.10/redis-5.0.10/src/aof.c:770-795 | under either setting, another byte than the star, a count below one, or an argument without its dollar sign, after any log, exits |
| `AofLoad.SpecialFiles` | code/lesson1.10/redis-5.0.10/src/aof.c:711-749 | an empty file and a file with an RDB preamble are not read as commands |
| `AofFeed.ScanAgrees` | code/lesson1.10/redis-5.0.10/src/aof.c:607-633 | on every option list SET accepts, the log writer's scan, which also looks at option values, finds the very EX or PX that SET used, and never both |
| `AofFeed.TranslateMeans` | code/lesson1.10/redis-5.0.10/src/aof.c:550-644 | running what is logged for a command does to the databases what executing the command did at the logged time |
| `AofFeed.ExpireExact` | code/lesson1.10/redis-5.0.10/src/aof.c:550-578 | for every number n and clock t, EXPIRE, PEXPIRE and EXPIREAT are logged with, and leave by execution and by replay, the expiry t + 1000 n, t + n, 1000 n; a missing key stays missing |
| `AofFeed.SetExExact` | code/lesson1.10/redis-5.0.10/src/aof.c:599-606 | SETEX and PSETEX are logged as SET and PEXPIREAT with t + 1000 n and t + n, and leave the value with that expiry |
| `AofFeed.SetOptionExact` | code/lesson1.10/redis-5.0.10/src/aof.c:607-624 | so is SET with EX or PX, wherever the option stands among NX and XX |
| `AofFeed.SetPlainExact` | code/lesson1.10/redis-5.0.10/src/aof.c:625-630 | a plain SET is logged as it is and leaves the value without an expiry |
| `AofFeed.LogUnitMeans` | code/lesson1.10/redis-5.0.10/src/aof.c:580-644 | replaying what is logged for a command or a whole transaction equals executing it, leaves no transaction open and leaves its database selected |
| `AofFeed.LogMeansExecution` | code/lesson1.10/redis-5.0.10/src/aof.c:550-644 | for every sequence of commands and transactions over several databases, replaying the log gives the same values and absolute expiries as execution did |
| `AofFeed.LoggedExpiryExact` | code/lesson1.10/redis-5.0.10/src/aof.c:560-572 | the clock is read when the command executes and again when it is logged: the log means what was executed if and only if both readings agree or the command's expiry did not use the clock |
| `AofFeed.LoggedLate` | code/lesson1.10/redis-5.0.10/src/aof.c:560-572 | a concrete SETEX logged one millisecond after it executed is logged with another expiry |
| `AofRecovery.CutLogRecovers` | code/lesson1.10/redis-5.0.10/src/aof.c:752-898 | for every log, whatever the file held before (an earlier life of the server, a rewrite), and every cut after that, loading rebuilds exactly the units that are whole before the cut on top of it; no transaction is applied in part; only a single command printed as two may have lost its expiry |
| `AofRecovery.PartOfTransaction` | code/lesson1.10/redis-5.0.10/src/aof.c:847-861 | replaying part of a logged transaction changes no database and leaves exactly the commands read queued |
| `AofRecovery.PartOfSingle` | code/lesson1.10/redis-5.0.10/src/aof.c:595-633 | replaying part of what is logged for a single command changes nothing, or stores its value without the expiry |
| `AofRecovery.KeptCommands` | code/lesson1.10/redis-5.0.10/src/aof.c:877-898 | what recovery of any such cut leaves in the file is a whole log that replays to the recovered databases; it leaves a transaction open exactly when the cut was inside a command of one |
| `AofRecovery.TornLogLosesWrites` | code/lesson1.10/redis-5.0.10/src/aof.c:877-898 | after a cut inside a command of an open transaction, single commands logged later are all lost at the next load |
| `AofRecovery.TornTransactionApplied` | code/lesson1.10/redis-5.0.10/src/aof.c:877-898 | after such a cut, a transaction logged later applies the torn one's leftover commands at the next load |
| `AofRecovery.AppendableAfterRecovery` | code/lesson1.10/redis-5.0.10/src/aof.c:877-898 | for every such log and cut, every later write to the recovered file survives the next load if and only if the cut was not inside a command of an open transaction |
| `AofRecovery.TornExample` | code/lesson1.10/redis-5.0.10/src/aof.c:877-898 | a concrete log and cut for which it does not |
| `AofDump.RewriteItems` | code/lesson1.10/redis-5.0.10/src/aof.c:932-962 | the loop that starts a new command whenever its counter wraps prints, for every length and chunk size, commands whose declared argument counts are those that follow |
| `AofDump.ChunksRun` | code/lesson1.10/redis-5.0.10/src/aof.c:932-1009 | running such chunks on an absent key builds the list, set or hash of all items, in order |
| `AofDump.RewriteEntry` | code/lesson1.10/redis-5.0.10/src/aof.c:1327-1359 | one key is printed as its value and, if it has one, its expiry, whatever the iteration order of its members |
| `AofDump.EntryRuns` | code/lesson1.10/redis-5.0.10/src/aof.c:1327-1359 | replaying what is printed for a key restores its value and expiry |
| `AofDump.RewriteDb` | code/lesson1.10/redis-5.0.10/src/aof.c:1310-1361 | a SELECT and every key of the database, in any iteration order, extend the restored databases by that one |
| `AofDump.RewriteAppendOnlyFileRio` | code/lesson1.10/redis-5.0.10/src/aof.c:1299-1372 | replaying the output on an empty server restores every string, list, set, hash and expiry of every database, and the loader can read all of it |
| `AofServer.AppendOnlyFile.RewriteBufferAppend` | code/lesson1.10/redis-5.0.10/src/aof.c:125-169 | filling the last block and allocating more appends exactly the given bytes, and used plus free stays the block size |
| `AofServer.AppendOnlyFile.ScanOptions` | code/lesson1.10/redis-5.0.10/src/aof.c:613-620 | the loop over the arguments of SET finds the last EX and the last PX |
| `AofServer.AppendOnlyFile.CatCommand` | code/lesson1.10/redis-5.0.10/src/aof.c:592-636 | appends the encoding of the translated command |
| `AofServer.SelectPrinted` | code/lesson1.10/redis-5.0.10/src/aof.c:584-590 | the SELECT written as a format string is the encoding of a SELECT command |
| `AofServer.AppendOnlyFile.FeedAppendOnlyFile` | code/lesson1.10/redis-5.0.10/src/aof.c:580-644 | appends a SELECT exactly when the database differs from the last one, and the translated command, to the file buffer if logging is on and to the block buffer if a rewrite runs |
| `AofServer.AppendOnlyFile.AofWrite` | code/lesson1.10/redis-5.0.10/src/aof.c:297-316 | if no call fails the whole buffer gets out, however short and interrupted the writes; otherwise the sum of what the calls before the first failure wrote, as far as there is anything to write |
| `AofServer.AllGetsOut` | code/lesson1.10/redis-5.0.10/src/aof.c:297-316 | the number written is the length if no call fails |
| `AofServer.PartGetsOut` | code/lesson1.10/redis-5.0.10/src/aof.c:297-316 | and otherwise the lesser of the length and the sum of the writes before the first failure |
| `AofServer.AppendOnlyFile.FlushAppendOnlyFile` | code/lesson1.10/redis-5.0.10/src/aof.c:337-489 | a flush that is not put off empties the buffer into the file if no call fails; if one does, the always policy ends the process, and otherwise the partial write is truncated away, or, if that fails, leaves the buffer; in all cases file followed by buffer is unchanged and the recorded size is the file length |
| `AofServer.AppendOnlyFile.StartRewrite` | code/lesson1.10/redis-5.0.10/src/aof.c:1569-1627 | refused while a rewrite child or a snapshot child runs; otherwise pipe and buffer start empty and the next command logs its SELECT |
| `AofServer.AppendOnlyFile.ChildWriteDiffData` | code/lesson1.10/redis-5.0.10/src/aof.c:95-122 | moves exactly the bytes the pipe takes from the front of the block buffer to its end, all of them if it takes whole blocks, some if it takes any, and none once the child asked to stop |
| `AofServer.AppendOnlyFile.RewriteBufferWrite` | code/lesson1.10/redis-5.0.10/src/aof.c:174-194 | succeeds exactly when each block that holds something gets out whole in its own write, and then the file was extended by the whole block buffer |
| `AofServer.AppendOnlyFile.RewriteDone` | code/lesson1.10/redis-5.0.10/src/aof.c:1670-1819 | the child's file completed by the residual buffer becomes the log exactly when nothing fails; otherwise the old log stays |
| `AofDurability.FeedUnit` | code/lesson1.10/redis-5.0.10/src/aof.c:580-644 | feeding a transaction call by call logs exactly its MULTI, its commands and its EXEC with the SELECTs between |
| `AofDurability.ChildDump` | code/lesson1.10/redis-5.0.10/src/aof.c:1299-1372 | the child's dump is a log of the databases at the fork |
| `AofDurability.LogGrows` | code/lesson1.10/redis-5.0.10/src/aof.c:580-644 | a log of the databases extended by what is fed is a log of the databases after execution |
| `AofDurability.NothingLost` | code/lesson1.10/redis-5.0.10/src/aof.c:95-194 | in every interleaving of feeding, partial pipe writes, child reads and the handshake, what the child received, then the pipe, then the block buffer are all bytes fed since the fork |
| `AofDurability.InstallKeeps` | code/lesson1.10/redis-5.0.10/src/aof.c:1670-1780 | an installed file is the dump followed by every byte fed since the fork, and is a log of the current databases |
| `AofDurability.NextKeeps` | code/lesson1.10/redis-5.0.10/src/aof.c:1436-1507 | every step of server and child keeps the protocol and both logs |
| `AofDurability.Durable` | code/lesson1.10/redis-5.0.10/src/aof.c:1670-1780 | in every run, whatever the rewrite is doing, loading file and buffer rebuilds exactly the databases the server holds |
| `AofDurability.CrashRecovers` | code/lesson1.10/redis-5.0.10/src/aof.c:337-489 | in every run, at every moment, loading the file alone rebuilds the databases after some prefix of the units executed since the start, the next unit possibly stored without its expiry |
| `AofDurability.CutsGrow` | code/lesson1.10/redis-5.0.10/src/aof.c:580-644 | logging a unit keeps every cut of the log, after what the file started with, loadable to such a prefix |
| `ClusterElection.Elector.ReceiveHeader` | code/lesson1.10/redis-5.0.10/src/cluster.c:1733-1738 | the current epoch becomes the greater of both |
| `ClusterElection.Elector.SendFailoverAuthIfNeeded` | code/lesson1.10/redis-5.0.10/src/cluster.c:2737-2838 | the vote is granted exactly when the voter is a master with slots, the request is not old, this epoch is not voted in, the requester is a replica of a known and failed master or forces, the master was not voted about recently, and no claimed slot has an owner of greater epoch; a granted vote and its time are recorded |
| `ClusterElection.Elector.ReceiveAck` | code/lesson1.10/redis-5.0.10/src/cluster.c:2076-2088 | a vote is counted if it comes from a master with slots and its epoch is not before the election's |
| `ClusterElection.Elector.HandleSlaveFailover` | code/lesson1.10/redis-5.0.10/src/cluster.c:2977-3146 | a call schedules, asks in a fresh epoch, wins with a quorum and takes the epoch of the election as its config epoch if that is greater, or does nothing, each exactly under its time and state conditions |
| `ClusterElection.OneVotePerEpoch` | code/lesson1.10/redis-5.0.10/src/cluster.c:2762-2833 | in every run each master grants at most one vote per epoch |
| `ClusterElection.ElectionSafety` | code/lesson1.10/redis-5.0.10/src/cluster.c:2977-3146 | in every run two elections won in the same epoch, neither with votes counted before its request was sent, have the same winner |
| `ClusterElection.CleanRunsAreSafe` | code/lesson1.10/redis-5.0.10/src/cluster.c:3050-3142 | in every run in which no vote of an older attempt is counted after a retry was scheduled, no two replicas win in the same epoch |
| `ClusterElection.WinTakesEpoch` | code/lesson1.10/redis-5.0.10/src/cluster.c:3130-3139 | in every run, right after a win the config epoch is at least the epoch of the election, and is that epoch if it was smaller before |
| `ClusterElection.ConfigNeverFalls` | code/lesson1.10/redis-5.0.10/src/cluster.c:3130-3139 | no step lowers a config epoch |
| `ClusterElection.ElectedEpochsDiffer` | code/lesson1.10/redis-5.0.10/src/cluster.c:2977-3146 | in every such run two nodes whose config epochs changed since the start have different ones |
| `ClusterElection.VoteConditions` | code/lesson1.10/redis-5.0.10/src/cluster.c:2737-2838 | at any point of any run, exactly when a vote can be cast |
| `ClusterElection.QuorumIsMajority` | code/lesson1.10/redis-5.0.10/src/cluster.c:2980-2980 | the votes needed are the least majority |
| `ClusterElection.CountIsVotes` | code/lesson1.10/redis-5.0.10/src/cluster.c:2076-2088 | in every run the count of an attempt is the votes counted too early plus the masters whose vote for it in its epoch arrived |
| `ClusterElection.TwoWinners` | code/lesson1.10/redis-5.0.10/src/cluster.c:3053-3125 | without the premise: a concrete run in which two replicas win the same epoch |
| `ClusterElection.UnbackedWinIff` | code/lesson1.10/redis-5.0.10/src/cluster.c:3053-3142 | at any point of any run, a replica about to ask for votes can come to win that election without a majority if and only if its count is not zero and, with the masters that can still vote in the new epoch, reaches a majority |
| `ClusterElection.WinsFromHere` | code/lesson1.10/redis-5.0.10/src/cluster.c:3053-3142 | whoever wins the election that starts here had the count of this moment and the votes of masters able to vote at this moment |
| `ClusterEpochs.ClusterConfig.GetMaxEpoch` | code/lesson1.10/redis-5.0.10/src/cluster.c:983-996 | the greatest of the current epoch and all known config epochs |
| `ClusterEpochs.ClusterConfig.BumpConfigEpochWithoutConsensus` | code/lesson1.10/redis-5.0.10/src/cluster.c:1027-1044 | moves to a new epoch exactly when the own one is zero or some greater one is known |
| `ClusterEpochs.ClusterConfig.HandleConfigEpochCollision` | code/lesson1.10/redis-5.0.10/src/cluster.c:1092-1107 | the master with the smaller ID of two with the same config epoch takes the next epoch |
| `ClusterEpochs.ClusterConfig.ProcessPacket` | code/lesson1.10/redis-5.0.10/src/cluster.c:1733-1744 | the epoch effects of a packet: header, role, collision, UPDATE |
| `ClusterEpochs.PacketEffect` | code/lesson1.10/redis-5.0.10/src/cluster.c:1733-1744 | after a packet the current epoch is the greater of both, the sender is known under the greater of both epochs, so is the subject of an UPDATE, and nothing else changes but for a collision |
| `ClusterEpochs.ClusterConfig.SetConfigEpoch` | code/lesson1.10/redis-5.0.10/src/cluster.c:4744-4781 | accepted only from a node that knows nobody and has no epoch; raises the current epoch with it |
| `ClusterEpochs.ClusterConfig.WinElection` | code/lesson1.10/redis-5.0.10/src/cluster.c:3130-3139 | the config epoch becomes the election's if that is greater |
| `ClusterEpochs.ClusterConfig.ClusterReset` | code/lesson1.10/redis-5.0.10/src/cluster.c:545-597 | the node knows only itself; a hard reset also zeroes both epochs and changes the ID; neither clears the epoch of the last election |
| `ClusterEpochs.ClusterConfig.LoadConfig` | code/lesson1.10/redis-5.0.10/src/cluster.c:298-303 | after a restart the current epoch is at least every config epoch loaded, and no greater than needed |
| `ClusterEpochs.WinKeepsIff` | code/lesson1.10/redis-5.0.10/src/cluster.c:3130-3139 | winning keeps the table dominated if and only if the epoch of the election is not past the current one |
| `ClusterEpochs.NextKeepsIff` | code/lesson1.10/redis-5.0.10/src/cluster.c:983-1044 | of all steps, packets, bumps, elections, resets, restarts and administration, exactly a win in an epoch past the current one breaks dominance |
| `ClusterEpochs.EpochDominance` | code/lesson1.10/redis-5.0.10/src/cluster.c:983-1044 | in every run with resets and restarts, all states have each current epoch at least every config epoch in its table, and each packet at least those it carries, if and only if every win is of an election whose epoch the winner has reached |
| `ClusterEpochs.NoHardReset` | code/lesson1.10/redis-5.0.10/src/cluster.c:545-597 | a run without a hard reset has no other wins, so all its states are dominated |
| `ClusterEpochs.ResetThenWin` | code/lesson1.10/redis-5.0.10/src/cluster.c:545-597 | a concrete run that is not: ask for votes, hard reset, meet a node, become its replica, win |
| `ClusterEpochs.BumpIsGreatest` | code/lesson1.10/redis-5.0.10/src/cluster.c:1027-1044 | in every such run a bump that succeeds gives an epoch greater than every other known one, and one is refused exactly when the own epoch is positive and the current one |
| `ClusterCollision.ReceiveEffect` | code/lesson1.10/redis-5.0.10/src/cluster.c:1092-1107 | a packet leaves the receiver's config epoch alone, or moves it from the epoch the sender published, the sender having the greater ID, to one past all it knows |
| `ClusterCollision.HeldBound` | code/lesson1.10/redis-5.0.10/src/cluster.c:1092-1107 | a node has held at most one epoch more than all nodes with greater IDs together |
| `ClusterCollision.BoundedMoves` | code/lesson1.10/redis-5.0.10/src/cluster.c:1092-1107 | in every run the node with the k-th greatest ID moves at most 2^(k-1) - 1 times, the greatest never |
| `ClusterCollision.QuietIffDistinct` | code/lesson1.10/redis-5.0.10/src/cluster.c:2020-2027 | where all have seen each other's epochs, nobody can move if and only if all epochs are distinct |
| `ClusterSlots.BitsAt` | code/lesson1.10/redis-5.0.10/src/cluster.c:3664-3682 | setting or clearing a bit changes that bit and no other |
| `ClusterSlots.SlotOrder` | code/lesson1.10/redis-5.0.10/src/cluster.c:3664-3668 | slot 0 is the least significant bit of the first byte, the reverse, within each byte, of the bits of a string |
| `ClusterSlots.CountChanged` | code/lesson1.10/redis-5.0.10/src/cluster.c:3702-3732 | and changes the number of set bits by one exactly when it changes the bit |
| `ClusterSlots.SlotTable.NodeSetSlotBit` | code/lesson1.10/redis-5.0.10/src/cluster.c:3702-3724 | sets the bit, counts it if it was clear, returns what it was |
| `ClusterSlots.SlotTable.NodeClearSlotBit` | code/lesson1.10/redis-5.0.10/src/cluster.c:3727-3732 | clears the bit, discounts it if it was set, returns what it was |
| `ClusterSlots.SlotTable.AddSlot` | code/lesson1.10/redis-5.0.10/src/cluster.c:3743-3748 | refused if the slot has an owner; keeps table, bitmaps and counts in agreement |
| `ClusterSlots.SlotTable.DelSlot` | code/lesson1.10/redis-5.0.10/src/cluster.c:3753-3760 | refused if the slot has no owner; the owner's bit is always set, so its assertion holds; keeps the agreement |
| `ClusterSlots.DelAgrees` | code/lesson1.10/redis-5.0.10/src/cluster.c:3753-3760 | in an agreeing table the owner's bit of every assigned slot is set, and clearing both keeps the agreement |
| `ClusterSlots.SlotTable.DelNodeSlots` | code/lesson1.10/redis-5.0.10/src/cluster.c:3764-3774 | unassigns exactly the node's slots and returns how many it had |
| `ClusterSlots.SlotTable.DelNode` | code/lesson1.10/redis-5.0.10/src/cluster.c:920-947 | unassigns exactly the node's slots, ends the imports and migrations it takes part in, and forgets it |
| `ClusterSlots.SlotTable.FailoverReplaceYourMaster` | code/lesson1.10/redis-5.0.10/src/cluster.c:2939-2955 | moves exactly the old master's slots to the new one and leaves the old with none |
| `ClusterSlots.SlotTable.UpdateSlotsConfigWith` | code/lesson1.10/redis-5.0.10/src/cluster.c:1553-1647 | a claim takes exactly the claimed slots that are free or owned under a smaller epoch and not being imported; the node becomes a replica exactly when its master lost a slot and has none left, and otherwise deletes exactly the lost slots that hold keys; a module that turned redirections off suppresses both |
| `ClusterConvergence.SameBitmapChangesNothing` | code/lesson1.10/redis-5.0.10/src/cluster.c:1955-1973 | skipping the scan when the bitmap is already known skips no change |
| `ClusterConvergence.OwnerEpochNeverFalls` | code/lesson1.10/redis-5.0.10/src/cluster.c:1592-1611 | no delivery unassigns a slot or lowers the known epoch of its owner |
| `ClusterConvergence.SlotsConverge` | code/lesson1.10/redis-5.0.10/src/cluster.c:1553-1613 | after every claim arrived at least once, in any order and repetition, a slot not being imported whose present owner is none, claims it, or is outranked belongs to its claimant of greatest epoch |
| `ClusterConvergence.ConvergesIffOwnerYields` | code/lesson1.10/redis-5.0.10/src/cluster.c:1592-1611 | it does so in every order if and only if the present owner is none, claims the slot, or will be known only under an epoch below the greatest claimant's |
| `ClusterConvergence.StuckOrder` | code/lesson1.10/redis-5.0.10/src/cluster.c:1592-1611 | otherwise an order in which the slot stays with its owner |
| `ClusterConvergence.OrderMatters` | code/lesson1.10/redis-5.0.10/src/cluster.c:1592-1611 | a concrete view and two claims that end differently in the two orders |
| `ClusterConvergence.UnclaimedStays` | code/lesson1.10/redis-5.0.10/src/cluster.c:1592-1611 | a slot nobody claims keeps its owner |
| `ClusterConvergence.ImportedStays` | code/lesson1.10/redis-5.0.10/src/cluster.c:1579-1590 | a slot being imported keeps its owner, whoever claims it and in whatever order |
| `ClusterConvergence.ViewsAgree` | code/lesson1.10/redis-5.0.10/src/cluster.c:1553-1613 | so two nodes agree, whatever the orders, on every claimed slot that neither imports and whose owner in each view yields in this sense |
| `Adlist.List.AddNodeHead` | code/lesson1.10/redis-5.0.10/src/adlist.c:88-106 | a new node in front of the same nodes |
| `Adlist.List.AddNodeTail` | code/lesson1.10/redis-5.0.10/src/adlist.c:114-132 | a new node after the same nodes |
| `Adlist.List.InsertNode` | code/lesson1.10/redis-5.0.10/src/adlist.c:134-161 | a new node before or after the given one, the others unchanged and in order |
| `Adlist.List.DelNode` | code/lesson1.10/redis-5.0.10/src/adlist.c:167-180 | exactly the given node leaves; all others are the same nodes in order |
| `Adlist.List.RotateHeadToTail` | code/lesson1.10/redis-5.0.10/src/adlist.c:345-357 | the same nodes, the first now last |
| `Adlist.List.RotateTailToHead` | code/lesson1.10/redis-5.0.10/src/adlist.c:330-342 | the same nodes, the last now first |
| `Adlist.List.Join` | code/lesson1.10/redis-5.0.10/src/adlist.c:361-376 | the nodes of both in order; the other list is left empty |
| `Adlist.List.Index` | code/lesson1.10/redis-5.0.10/src/adlist.c:315-327 | the node at that position from either end, or none |
| `Adlist.List.SearchKey` | code/lesson1.10/redis-5.0.10/src/adlist.c:290-308 | the first node whose value matches, or none if none does |
| `Adlist.List.Dup` | code/lesson1.10/redis-5.0.10/src/adlist.c:250-279 | new nodes with copies of the values in order, or no list exactly when a value cannot be copied |
| `Adlist.Iterator.Next` | code/lesson1.10/redis-5.0.10/src/adlist.c:229-240 | the next node in its direction, or none at the end |
| `Adlist.Iterator.DelReturned` | code/lesson1.10/redis-5.0.10/src/adlist.c:210-228 | deleting the node just returned leaves the iterator before the same nodes |
| `Blocking.Db.BlockForKeys` | code/lesson1.10/redis-5.0.10/src/blocked.c:522-563 | the client joins, once and last, the linked lists of exactly the given keys; the lists stay well linked and share no node, and both sides of the index and the counters stay exact |
| `Blocking.Db.BlockClient` | code/lesson1.10/redis-5.0.10/src/blocked.c:117-122 | the counters stay the numbers of blocked clients |
| `Blocking.Db.AddWaiter` | code/lesson1.10/redis-5.0.10/src/blocked.c:539-560 | the list of the key, made if need be, gets a new last node, which the client remembers |
| `Blocking.Db.UnblockClientWaitingData` | code/lesson1.10/redis-5.0.10/src/blocked.c:567-601 | the client leaves every linked list by deleting the very nodes it stored, without a search; the others keep their order, lists stay separate, and no empty list is kept |
| `Blocking.Db.RemoveNode` | code/lesson1.10/redis-5.0.10/src/blocked.c:579-585 | deletes the stored node from its linked list, and the list with its last node; all other lists are untouched |
| `Blocking.Db.UnblockClient` | code/lesson1.10/redis-5.0.10/src/blocked.c:177-196 | additionally the counters go down by one and the client is queued once for reprocessing |
| `Blocking.Db.RotateHeadToTail` | code/lesson1.10/redis-5.0.10/src/blocked.c:306-311 | rotating a waiter list moves its first node to the end, touches no other list, and keeps every stored node that very client's node |
| `Blocking.DropCrossed` | code/lesson1.10/redis-5.0.10/src/blocked.c:567-601 | removing a client's node from one list keeps all other handles and lists in agreement |
| `Blocking.BothSidesAgree` | code/lesson1.10/redis-5.0.10/src/blocked.c:522-601 | a client waits for a key, once, exactly when the key is in its own table, and the stored node is its node in that list |
| `ReadyKeys.Server.SignalKeyAsReady` | code/lesson1.10/redis-5.0.10/src/blocked.c:610-631 | a key is queued exactly when somebody waits for it and it is not queued |
| `ReadyKeys.Server.ServeClientBlockedOnList` | code/lesson1.10/redis-5.0.10/src/t_list.c:628-683 | one element is delivered or moved to the target list, which is signalled if it had to be made, or put back if the target is of another type; the pop and the push are propagated |
| `Delivery.DrainTrace` | code/lesson1.10/redis-5.0.10/src/blocked.c:261-349 | a drain is a sequence of steps: a client gets the first element of its list, or the last if it did not ask with BLPOP; or that element becomes the first of its target list and the reply carries it; or it is told of a wrong type and nothing moves; or nothing is said |
| `Delivery.DrainConserves` | code/lesson1.10/redis-5.0.10/src/t_list.c:628-683 | over a whole drain, all elements of all lists before are those after and those in the new replies |
| `Delivery.DrainAnswers` | code/lesson1.10/redis-5.0.10/src/blocked.c:305-337 | over a whole drain, each client that is freed gets exactly one reply and nobody else gets any |
| `Propagation.DrainPropagates` | code/lesson1.10/redis-5.0.10/src/t_list.c:628-683 | running the commands a whole drain propagated, as ordinary pops and pushes, on the keyspace it started from gives the keyspace it ended with |
| `ReadyKeys.ServedToClient` | code/lesson1.10/redis-5.0.10/src/blocked.c:305-331 | serving without a target removes exactly the element delivered |
| `ReadyKeys.ServedToList` | code/lesson1.10/redis-5.0.10/src/t_list.c:550-563 | serving with a target moves exactly one element and touches no other key |
| `ReadyKeys.ServedBack` | code/lesson1.10/redis-5.0.10/src/blocked.c:318-328 | serving to the same list, or to a key of another type, loses no element |
| `ReadyKeys.ServeOneEffect` | code/lesson1.10/redis-5.0.10/src/blocked.c:305-337 | serving a client frees exactly that one and keeps all waiters in order; another key that thereby has elements for a list client is queued |
| `ReadyKeys.ServeVisits` | code/lesson1.10/redis-5.0.10/src/blocked.c:295-337 | a visit looks at each waiter in order and at most once: those looked at are gone or, not waiting for a list, last; the rest are untouched, and remain only if the list ran empty |
| `ReadyKeys.ServeEnds` | code/lesson1.10/redis-5.0.10/src/blocked.c:284-349 | after a visit the key is not both a non-empty list and awaited by a list client |
| `ReadyKeys.VisitKeeps` | code/lesson1.10/redis-5.0.10/src/blocked.c:265-349 | each visit lowers the number of blocked clients or, leaving that alone, the number of queued keys, and leaves no newly served-for key unqueued |
| `ReadyKeys.DrainFeeds` | code/lesson1.10/redis-5.0.10/src/blocked.c:261-349 | the drain ends with an empty queue; a non-empty list that a list client then still awaits was one before, and was not queued |
| `ReadyKeys.Server.ServeFirst` | code/lesson1.10/redis-5.0.10/src/blocked.c:295-337 | one turn of the loop, on the linked index and the queue, is one turn on values |
| `ReadyKeys.Server.ServeListKey` | code/lesson1.10/redis-5.0.10/src/blocked.c:284-349 | the loop bounded by the number of waiters computes the visit of a list key, and deletes an emptied list |
| `ReadyKeys.Server.HandleClientsBlockedOnKeys` | code/lesson1.10/redis-5.0.10/src/blocked.c:261-349 | the two nested loops over the swapped queues terminate and compute the drain |
| `BlockingRuns.NextFedIff` | code/lesson1.10/redis-5.0.10/src/db.c:173-225 | of all steps, clients blocking and leaving, keys added, replaced and deleted, and drains, exactly replacing an awaited and unqueued value of another type by a list makes a non-empty awaited list that is not queued |
| `BlockingRuns.AllFedIffCareful` | code/lesson1.10/redis-5.0.10/src/db.c:173-225 | in every run all states have every non-empty list that a list client awaits queued, if and only if no step does that |
| `BlockingRuns.NobodyStarves` | code/lesson1.10/redis-5.0.10/src/blocked.c:261-349 | after every drain of such a run no list client waits for a non-empty list |
| `BlockingRuns.ForgottenWaiter` | code/lesson1.10/redis-5.0.10/src/db.c:189-225 | a concrete run that leaves one waiting: block on a key, store a string there, replace it by a list, as SORT with STORE does |
| `Bitfield.GetUnsignedBitfield` | code/lesson1.10/redis-5.0.10/src/bitops.c:229-241 | the number written in those bits |
| `Bitfield.GetSignedBitfield` | code/lesson1.10/redis-5.0.10/src/bitops.c:243-263 | its two's complement reading |
| `Bitfield.SetUnsignedBitfield` | code/lesson1.10/redis-5.0.10/src/bitops.c:209-222 | the field holds the value modulo its width and no other bit changes |
| `Bitfield.SetSignedBitfield` | code/lesson1.10/redis-5.0.10/src/bitops.c:224-227 | the field reads back as the wrapped value and no other bit changes |
| `Bitfield.WrapFits` | code/lesson1.10/redis-5.0.10/src/bitops.c:354-372 | the wrapped value fits, and a value that fits is left alone |
| `Bitfield.WrapUnique` | code/lesson1.10/redis-5.0.10/src/bitops.c:354-372 | it is the only value that fits and differs by a multiple of the width |
| `Bitfield.CheckUnsignedBitfieldOverflow` | code/lesson1.10/redis-5.0.10/src/bitops.c:288-323 | zero exactly when value and sum fit; otherwise the limit is the sum modulo the width, or the bound on the side of the overflow |
| `Bitfield.WrapSigned` | code/lesson1.10/redis-5.0.10/src/bitops.c:354-372 | masking or sign-extending the unsigned sum gives the wrapped value |
| `Bitfield.CheckSignedBitfieldOverflow` | code/lesson1.10/redis-5.0.10/src/bitops.c:325-375 | zero exactly when value and sum fit, for every 64-bit value; otherwise the wrapped sum or the nearest bound, the latter for a value that does not fit if and only if its distance to the upper bound is a 64-bit number |
| `Bitfield.SaturationMisses` | code/lesson1.10/redis-5.0.10/src/bitops.c:332-335 | a concrete value that saturates to the wrong end |
| `Bitfield.WordWide` | code/lesson1.10/redis-5.0.10/src/bitops.c:258-262 | a 64-bit field reads right for every negative number if and only if the shift by 64, which C leaves undefined, yields no bit but possibly the top one |
| `Bitfield.StoreSigned` | code/lesson1.10/redis-5.0.10/src/bitops.c:1022-1052 | SET and INCRBY store the exact value if it fits, else what the policy says, nothing under FAIL, touch no other bit and reply the old or the new value |
| `Bitfield.StoreUnsigned` | code/lesson1.10/redis-5.0.10/src/bitops.c:1053-1085 | the same for unsigned fields |
| `Bitfield.IncrByMeans` | code/lesson1.10/redis-5.0.10/src/bitops.c:1022-1085 | INCRBY in numbers: the sum if it fits; else nothing under FAIL, the nearer bound under SAT, the congruent number in range under WRAP, which is also the reply |
| `Bitfield.GetField` | code/lesson1.10/redis-5.0.10/src/bitops.c:1087-1120 | reading through the nine-byte copy equals reading the zero-extended string |
| `Bitfield.Execute` | code/lesson1.10/redis-5.0.10/src/bitops.c:1014-1122 | each operation of a command acts on what the ones before left, with its own reply |
| `Bitfield.BitfieldCommand` | code/lesson1.10/redis-5.0.10/src/bitops.c:990-1122 | the string is grown with zeros up to its farthest write, which changes no bit, and only if there is a write |
| `Bitfield.SetThenGet` | code/lesson1.10/redis-5.0.10/src/bitops.c:1014-1122 | a value that fits reads back after SET, and every disjoint field reads what it did |
| `Bits.BitOrder` | code/lesson1.10/redis-5.0.10/src/bitops.c:187-207 | bit 0 is the most significant bit of the first byte; the example of the source, 23 in five bits at offset 7 |
| `BitCount.PopIsCount` | code/lesson1.10/redis-5.0.10/src/bitops.c:44-49 | counting by byte table is counting bit by bit |
| `BitCount.WordTotal` | code/lesson1.10/redis-5.0.10/src/bitops.c:60-78 | the parallel additions leave in each byte of a word its number of set bits |
| `BitCount.FoldTotal` | code/lesson1.10/redis-5.0.10/src/bitops.c:79-86 | multiplying and shifting sums the four byte counts without overflow |
| `BitCount.SevenWords` | code/lesson1.10/redis-5.0.10/src/bitops.c:56-87 | the seven-word reduction counts exactly the bits of 28 bytes |
| `BitCount.Popcount` | code/lesson1.10/redis-5.0.10/src/bitops.c:40-92 | for every length and alignment the result is the number of set bits |
| `BitSearch.SkipWordIff` | code/lesson1.10/redis-5.0.10/src/bitops.c:131-138 | a word is skipped exactly when none of its 64 bits is sought |
| `BitSearch.LoadLast` | code/lesson1.10/redis-5.0.10/src/bitops.c:148-156 | the last bytes are loaded big-endian with zeros after the end |
| `BitSearch.Bitpos` | code/lesson1.10/redis-5.0.10/src/bitops.c:101-186 | for every length and alignment: the first matching position; -1 exactly when no one-bit exists; a zero is found at the latest just past the end; the panic is unreachable |
| `BitOp.CombineWord` | code/lesson1.10/redis-5.0.10/src/bitops.c:679-720 | a 64-bit operation acts byte by byte |
| `BitOp.Lengths` | code/lesson1.10/redis-5.0.10/src/bitops.c:628-652 | the shortest and the longest source length, missing keys being empty |
| `BitOp.Bitop` | code/lesson1.10/redis-5.0.10/src/bitops.c:655-745 | the 32-byte strides and the byte loop together give, for all lengths and numbers of sources, the combination of the zero-padded sources |
| `BitOp.StringBits` | code/lesson1.10/redis-5.0.10/src/bitops.c:722-744 | bit by bit: set in all sources, in some, in an odd number of them, or not set |
| `Keyspace.KeyHashSlot` | code/lesson1.10/redis-5.0.10/src/cluster.c:676-695 | the two search loops hash what is between the first brace and the next closing one if that is not empty, else the whole key |
| `Keyspace.TaggedTogether` | code/lesson1.10/redis-5.0.10/src/cluster.c:676-695 | keys with the same tag are in the same slot |
| `Keyspace.HashedPart` | code/lesson1.10/redis-5.0.10/src/cluster.c:676-695 | a non-empty tag is hashed alone; a key without an opening brace, without a closing one after it, or with nothing between, is hashed whole; modulo 16384 |
| `Keyspace.Db.DbAdd` | code/lesson1.10/redis-5.0.10/src/db.c:173-182 | a new key joins dictionary, index and count together |
| `Keyspace.Db.DbOverwrite` | code/lesson1.10/redis-5.0.10/src/db.c:189-206 | the value changes, the expiry stays |
| `Keyspace.Db.SetKey` | code/lesson1.10/redis-5.0.10/src/db.c:216-225 | the key has the value and no expiry, whether it existed or not |
| `Keyspace.Db.DbSyncDelete` | code/lesson1.10/redis-5.0.10/src/db.c:271-281 | the key leaves dictionary, expires, index and count together |
| `Keyspace.Db.RemoveExpire` | code/lesson1.10/redis-5.0.10/src/db.c:1065-1070 | only the expiry goes |
| `Keyspace.Db.SetExpire` | code/lesson1.10/redis-5.0.10/src/db.c:1076-1088 | expires stays a subset of the dictionary |
| `Keyspace.Db.GetExpire` | code/lesson1.10/redis-5.0.10/src/db.c:1092-1103 | the expiry or -1; a key with an expiry exists, so its assertion holds |
| `Keyspace.Db.ExpireIfNeeded` | code/lesson1.10/redis-5.0.10/src/db.c:1186-1206 | a key past its time is deleted, except on a replica |
| `Keyspace.Db.Rename` | code/lesson1.10/redis-5.0.10/src/db.c:869-909 | names past their time are deleted first, except on a replica; then value and expiry move, the old target goes, RENAMENX refuses an existing target, and nothing else changes |
| `Keyspace.Db.SlotToKeyUpdateKey` | code/lesson1.10/redis-5.0.10/src/db.c:1489-1506 | exactly one entry and one count change |
| `Keyspace.Db.CountKeysInSlot` | code/lesson1.10/redis-5.0.10/src/db.c:1566-1568 | the number of keys in the slot |
| `Keyspace.Db.DelKeysInSlot` | code/lesson1.10/redis-5.0.10/src/db.c:1545-1564 | terminates and removes exactly the keys of that slot, returning their number |
| `Keyspace.SeekFinds` | code/lesson1.10/redis-5.0.10/src/db.c:1553-1560 | in the ordered index the first entry at or after the two slot bytes is a key of that slot, if it has any |
| `Keyspace.SlotsInOrder` | code/lesson1.10/redis-5.0.10/src/db.c:1495-1498 | the index is in the order of the slots, whatever the keys |
| `Keyspace.Between` | code/lesson1.10/redis-5.0.10/src/db.c:1553-1560 | whatever lies between the slot bytes and one of its entries starts with the slot bytes |
| `ThreadPool.PoolSafe` | code/webserver/threadpool.h:89-131 | in every interleaving accepted requests are dequeued ++ queued in order, at most as many workers find the queue empty as waits failed, and the queue never exceeds the limit plus one |
| `ThreadPool.ExceedsLimit` | code/webserver/threadpool.h:90-97 | for every limit some run queues one request more |
| `ThreadPool.ExceedsIff` | code/webserver/threadpool.h:90-97 | a step takes the queue over the limit if and only if it appends to a queue that holds the limit |
| `ThreadPool.EmptyAfterFailedWait` | code/webserver/threadpool.h:112-119 | after one failed wait, whose result the worker ignores, a worker can find the queue empty |
| `ThreadPool.NeverEmpty` | code/webserver/threadpool.h:112-119 | as long as no wait failed, the branch for an empty queue is not taken |
| `BackgroundJobs.JobsInOrder` | code/lesson1.10/redis-5.0.10/src/bio.c:131-225 | in every interleaving jobs take effect and finish in creation order, each once, the removed node is the first, and the pending count is zero exactly when every created job has finished |

## Left out

- The RDB preamble of an append-only file: the loader reports it and stops there.
- Sorted sets, streams and module values in the dump, and clients blocked on sorted sets and streams in the drain: the loops are of the same kind as those for lists, sets and hashes.
- fsync: when it happens and the delay it causes; a crash may lose what was written and not synced. The file is what the write calls produced.
- Failure of the loader's own truncate call, which ends the process, and of memory allocation.
- Numbers in the log beyond 64 bits and lengths beyond 2^64.
- AOF turned off and on again while a rewrite runs; BGREWRITEAOF asked for inside a transaction.
- AofDump.RewriteAppendOnlyFileRio: does not dump sorted sets, streams and module values, because their loops repeat those for lists, sets and hashes.
- AofServer.AppendOnlyFile.RewriteDone: does not model a one-time rewrite while the append-only file is off, because nothing is logged then and only a file is replaced.
- AofDurability.CrashRecovers: is about what the write calls put into the file, because what a crash takes from it before an fsync is up to the system.
- AofServer.AppendOnlyFile.FlushAppendOnlyFile: does not model the fsync bookkeeping and the latency samples, because they do not touch the data.
- AofDurability.Durable: takes databases without empty collections at a fork, because the server deletes a collection that becomes empty.
- ClusterElection.Elector.HandleSlaveFailover: takes the preconditions on roles and data age as one flag and the delays as parameters, because they only restrict when a step is taken.
- ClusterSlots.SlotTable.NodeSetSlotBit: does not set the flag that lets a new master receive replicas, because no slot decision reads it.
- ClusterSlots.SlotTable.DelNode: does not withdraw the node's failure reports, because failure detection is not part of the model.
- ClusterSlots.SlotTable.UpdateSlotsConfigWith: takes a replica's master as known, because a replica is given its master when it becomes one.
- Gossip sections, failure reports, handshakes, links, MIGRATE and the text of nodes.conf.
- ReadyKeys.Server.HandleClientsBlockedOnKeys: is about one database and serves list keys only, because databases share only the queue of ready keys, and a ready key of another type is served by a loop of its own.
- ReadyKeys.Server.ServeClientBlockedOnList: does not emit keyspace notifications, because they change no data.
- BlockingRuns.AllFedIffCareful: is about one database, because SWAPDB is the only command that moves keys under waiting clients and it announces the lists itself.
- Propagation.DrainPropagates: takes clients that move an element to pop from the tail, because BRPOPLPUSH is the only such command.
- BitCount.Popcount: takes the 256-entry table as giving the number of set bits of each byte, because its entries are constants.
- Lazy deletion, SCAN cursors and the insides of `dict` and `rax`, which are maps and an ordered set here.
- Listing the keys of a slot, which walks the index as the deletion does.
- Keyspace.Db.DbAdd: does not wake blocked clients, because that is ReadyKeys.Server.SignalKeyAsReady.
- Starting and stopping the threads of the pool, and `m_stop`.
- The HTTP parser and the event loop of the web server, and the exercise programs.
