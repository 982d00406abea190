# Redis 3.2.5: cluster bus, append only file, bit operations, integer sets and keyspace

This project models the parts of the vendored Redis server whose correctness is hard to see from the
code, and proves what its documentation promises of them. `dafny verify dfyconfig.toml` checks it.

**Cluster bus.** `ClusterView` gives one node's view of the cluster as a value and what every packet
handler, command and failover step does to it. `ClusterProtocol` puts any number of such nodes and a
bag of packets into one state machine; packets may be delayed or lost. Over every run of it,
`ClusterProtocol` proves that epochs dominate, and `Election` that at most one slave wins an epoch:
always for counts that hold votes of that epoch only, and for all counts in clean runs, where no
request or ack of a node's last attempt is in flight when it schedules the next. `StaleAcks` has a run
without that condition in which two slaves win the same epoch, and a clean run with a win.
`ClusterEffects` says of the views before and after what a header, a vote, the failover cron, a win, a
claim and an announced role do. `EpochCollision` bounds the number
of epoch bumps among masters, and `GossipEpochs` carries the bound over to runs of the whole machine.
`SlotConvergence` says exactly when claims delivered by pings and UPDATEs leave a slot with its
claimant of greatest epoch, and when their order does not matter.
`ClusterState` is the same state in memory: node table, slot bitmaps, slot array, and the loops over
them, each tied to the view it changes. `ClusterPackets` handles a packet on that state and does to
the view, and to the keys, exactly what the handler on values says.

**Append only file.** `AofFormat` prints commands and loads files byte by byte, also files cut
anywhere. `AofFlush` writes the buffer against short and failing writes, `AofRewrite` is the rewrite
buffer and the handshake between parent and child, and `AofReplay` says what a file means once
SELECTs were left out and a rewrite put it together.

**Bit operations.** `Bits` and `BitString` relate machine words and strings to rows of bits.
`Popcount`, `Bitpos`, `Bitop` and `Bitfield` prove the word-at-a-time algorithms and the overflow
arithmetic equal to definitions bit by bit.

**Integer sets and keyspace.** `Intset` works on the bytes of the array, including the
widening in place. `Keyspace` keeps the main dictionary, the expire times and the index of keys by
hash slot in agreement.

Where the code does not do what is written about it, the model follows the code:

- Acks counted between scheduling an election and choosing its epoch are kept (cluster.c:2777, 2838).
  `StaleAcksElectTwo` is the run, `OneWinnerPerEpoch` and `ElectionSafety` the conditions.
- An UPDATE is ignored once its epoch is known, also when only a header told of it, so that UPDATEs
  alone may leave a slot with a claimant of lesser epoch. `UpdatesDiverge` is the input,
  `TableConverges` the exact condition.
- An UPDATE from a sender still in handshake is believed although its header is not.
  `UpdateDominanceExact` states exactly when the epoch order is lost and
  `PlaceholderUpdateLosesDominance` gives the input. It takes a packet sent under the random name of a
  handshake placeholder, which no genuine node bears (`LostDominanceIsNotGenuine`, `EpochDominance`).
- A replica that owns slots stops at an assertion when it has to follow a new master.
  `UpdateSlotsConfigWith`, `HandlePing` and `HandleUpdate` state exactly when, `ReplicaWithSlotStops`
  gives the input.
- `clusterDelNodeSlots` returns the size of the table, not the number of slots it took away.
- `aofReadDiffFromParent` gives up at the first failing read. `InstalledIsComplete` states that a
  rewritten file is whole exactly when the last read emptied the pipe.
- A saturating BITFIELD SET of a number far below the range stores the greatest value, not the least,
  because `max-value` wraps around. `ExecSigned` states exactly when and `SaturatesToWrongBound` gives
  the input. C leaves that overflow of an int64_t undefined; the model takes it to wrap.
- RENAME takes an expire time of -1 for none, so that the new name loses it (`Rename`,
  `RenameLosesExpire`).

## Model

| member | source | states |
|---|---|---|
| `ClusterProtocol.StepKeepsDominance` | redis-stable/src/cluster.c:1541-1979 | every step of the cluster (delivery of any packet, loss, ping, failover, command) keeps each node's currentEpoch at least every configEpoch it knows, keeps every packet's configEpoch at most its currentEpoch, and lowers no currentEpoch |
| `ClusterProtocol.EpochDominance` | redis-stable/src/cluster.c:1601-1612 | at every moment of every run no node knows a configEpoch above its currentEpoch, and no header in flight carries one |
| `ClusterProtocol.EpochsNeverFall` | redis-stable/src/cluster.c:1605-1607 | between any two moments of any run no node's currentEpoch has decreased |
| `ClusterProtocol.BumpExceedsAllKnown` | redis-stable/src/cluster.c:970-987 | a bump without consensus ends strictly above every epoch known to the node, and is refused exactly when the node already has the greatest |
| `ClusterProtocol.UpdateDominanceExact` | redis-stable/src/cluster.c:1953-1974 | handling an UPDATE keeps the epoch order if and only if the sender is past its handshake, or one of the nodes is unknown, or the epoch is not above currentEpoch |
| `ClusterProtocol.LostDominanceIsNotGenuine` | redis-stable/src/cluster.c:1600-1613 | a packet that breaks the epoch order bears the name of a handshake placeholder, which is no node's name |
| `ClusterProtocol.PlaceholderUpdateLosesDominance` | redis-stable/src/cluster.c:1953-1974 | such a packet and a view on which it breaks the order |
| `Election.VoteIsForRequestedEpoch` | redis-stable/src/cluster.c:2466-2566 | a vote is granted for exactly the epoch requested, strictly later than any vote before it, and the ack carries that epoch |
| `Election.StepKeepsVotes` | redis-stable/src/cluster.c:1925-1940 | every step keeps the books: each master grants one vote per epoch, every ack in flight or counted is such a vote granted to its receiver, none is counted twice |
| `Election.CountsExactly` | redis-stable/src/cluster.c:1928-1940 | an ack is counted exactly if its sender is a master seen serving slots and it carries the epoch its receiver last asked votes for |
| `Election.AckCountsExactly` | redis-stable/src/cluster.c:1928-1940 | in every run, clean or not, a received ack adds one to the count exactly then, and nothing otherwise |
| `Election.StepKeepsClean` | redis-stable/src/cluster.c:2773-2798 | if no request or ack of the last attempt is in flight when the next is scheduled, every vote counted is for the epoch of the attempt; those of still earlier attempts may be in flight |
| `Election.MajoritiesMeet` | redis-stable/src/cluster.c:2707 | two majorities of one set of voters share a voter |
| `Election.OneWinnerPerEpoch` | redis-stable/src/cluster.c:2842-2865 | in every run, two wins of one epoch by votes of that epoch from one set of voters, no larger than either winner's cluster size, are wins of the same node |
| `Election.ElectionSafety` | redis-stable/src/cluster.c:2704-2869 | in every clean run, two wins of one epoch by votes from one set of voters, no larger than either winner's cluster size, are wins of the same node |
| `Election.SteadyVotersElectOne` | redis-stable/src/cluster.c:2704-2869 | in every clean run, two nodes that take no one else for voters when they count an ack, and whose size counts those voters when they win, do not both win an epoch |
| `StaleAcks.StaleAcksElectTwo` | redis-stable/src/cluster.c:2773-2840 | a run in which two slaves win the same epoch, each by a majority of the same three masters, because one counted acks of an earlier attempt |
| `StaleAcks.CleanRunElects` | redis-stable/src/cluster.c:2773-2869 | a clean run with a win, by voters of the winner's view and with a size that is their number, so that the conditions of election safety can be met |
| `ClusterEffects.HeaderSpeaksForMaster` | redis-stable/src/cluster.c:2116-2147 | a slave's header carries its master's configEpoch and slots, a master's its own |
| `ClusterEffects.HeaderNotesEpochs` | redis-stable/src/cluster.c:1599-1613 | a header raises exactly the receiver's currentEpoch and the sender's noted epoch, and only if the sender is known and past its handshake |
| `ClusterEffects.VoteExactly` | redis-stable/src/cluster.c:2466-2566 | a vote is granted exactly to a slave of a failed master (or by force), for an epoch not behind and later than the last vote, with no recent vote for that master and no claimed slot owned at a greater epoch |
| `ClusterEffects.BranchExactly` | redis-stable/src/cluster.c:2727-2869 | which branch the failover cron takes, in terms of slots owned, failure, clock and votes |
| `ClusterEffects.NoCauseNoFailover` | redis-stable/src/cluster.c:2731-2770 | without a cause to fail over the cron changes nothing in the cluster |
| `ClusterEffects.HealthyMasterStays` | redis-stable/src/cluster.c:2731-2739 | a slave whose master has not failed does nothing unless the failover is manual |
| `ClusterEffects.AskSends` | redis-stable/src/cluster.c:2833-2844 | asking for votes takes the next epoch and sends each destination a request of it in the master's name |
| `ClusterEffects.WinnerTakesOver` | redis-stable/src/cluster.c:2850-2865 | in every run a recorded win is that of a slave with a majority, which right after is a master, owns what its master owned, and has the epoch it won or a greater one of its own |
| `ClusterEffects.FailoverSpreads` | redis-stable/src/cluster.c:1826-1829 | one ping of a winner takes the old master's slots over in every other node's table that has them free or at a lesser epoch |
| `ClusterEffects.TakeoverTakesOver` | redis-stable/src/cluster.c:4303-4311 | a takeover does the same without votes, at an epoch no less than any known |
| `ClusterEffects.CollisionExactly` | redis-stable/src/cluster.c:1035-1050 | an epoch collision moves exactly the master of lesser name, beyond every epoch it knows |
| `ClusterEffects.SizeCountsMasters` | redis-stable/src/cluster.c:3514-3523 | the cluster size is the number of masters that own a slot |
| `ClusterEffects.ForgetLeavesNoTrace` | redis-stable/src/cluster.c:863-890 | no entry, slot, import or slave of a forgotten node is left, and all else stays |
| `ClusterEffects.RenameMovesReferences` | redis-stable/src/cluster.c:907-920 | the end of a handshake moves every reference from the placeholder to the real name |
| `ClusterEffects.ReplicateFollows` | redis-stable/src/cluster.c:4196-4236 | this node is a slave of the other, with nothing to import if it was a master |
| `ClusterEffects.ClaimTakesExactly` | redis-stable/src/cluster.c:1442-1530 | a claim changes exactly the slots that are not being imported and are free or owned at a lesser epoch; this node follows the claimant exactly when that takes all the slots of its master |
| `ClusterEffects.UpdateBelieved` | redis-stable/src/cluster.c:1953-1975 | an UPDATE is believed exactly when both nodes are known and its epoch is news; then the node has that epoch, is a master if it was a slave, and gets the slots it takes |
| `ClusterEffects.AnnouncedRole` | redis-stable/src/cluster.c:1766-1800 | what a ping makes of its sender's role, master and slots; no third node's entry changes |
| `ClusterEffects.AnswersTellOfOwners` | redis-stable/src/cluster.c:1843-1868 | every answer to a ping is an UPDATE about another node of greater epoch that owns a claimed slot, with its epoch and all its slots |
| `ClusterEffects.OutdatedMasterIsTold` | redis-stable/src/cluster.c:1843-1868 | a master that claims a slot someone of greater epoch owns is sent such an UPDATE |
| `EpochCollision.PingIsHear` | redis-stable/src/cluster.c:1874-1879 | what a whole ping between masters does to the epochs of the receiver |
| `EpochCollision.StepKeepsInv` | redis-stable/src/cluster.c:1035-1050 | every step keeps what each master has held, and what others believe it holds, consistent with the bumps it made |
| `EpochCollision.BumpBound` | redis-stable/src/cluster.c:1028-1050 | in every run a master with k peers of greater name bumps its epoch at most k times; the greatest never moves |
| `EpochCollision.TotalBumpBound` | redis-stable/src/cluster.c:1035-1050 | N masters together bump at most N(N-1)/2 times however long the run |
| `EpochCollision.RestIffDistinct` | redis-stable/src/cluster.c:1035-1050 | no fresh ping can cause a bump if and only if all configEpochs differ |
| `EpochCollision.CollisionsResolve` | redis-stable/src/cluster.c:1035-1050 | from every reachable state pings between colliding masters lead to pairwise distinct configEpochs, two steps for each bump |
| `EpochCollision.UpdateIsLearn` | redis-stable/src/cluster.c:1953-1974 | what a whole UPDATE does to the epochs of the receiver |
| `GossipEpochs.RunProjects` | redis-stable/src/cluster.c:1766-1974 | every run of the whole machine in which masters only ping, answer with UPDATEs, lose packets and change slots projects to a run of the masters' epochs, bump for bump |
| `GossipEpochs.GossipBumpBound` | redis-stable/src/cluster.c:1028-1050 | in every such run a master with k peers of greater name changes its epoch at most k times |
| `SlotConvergence.PingIsHeard` | redis-stable/src/cluster.c:1826-1879 | what a whole ping does to the owner of one slot and to the epochs that decide about it |
| `SlotConvergence.UpdateIsTold` | redis-stable/src/cluster.c:1953-1974 | the same for a whole UPDATE, with its sender's header |
| `SlotConvergence.FreeSlotOwner` | redis-stable/src/cluster.c:1465-1502 | after any pings and UPDATEs a slot that was free belongs to the claimant of greatest epoch among those whose claim arrived by ping, or by an UPDATE while its epoch was news |
| `SlotConvergence.GreatestPrevailsExactly` | redis-stable/src/cluster.c:1465-1502 | the claimant of greatest epoch owns a slot in the end if and only if its claim arrived so, or it owned the slot before and nothing took it away first |
| `SlotConvergence.TableConverges` | redis-stable/src/cluster.c:1431-1530 | for any pings and UPDATEs in any order, with repeats, every slot is bound to its claimant of greatest epoch if and only if that claimant prevails, and unclaimed slots stay unbound |
| `SlotConvergence.PingsConverge` | redis-stable/src/cluster.c:1826-1829 | once every claimant has been heard by ping, whatever UPDATEs came between, every slot is bound to its claimant of greatest epoch |
| `SlotConvergence.UpdatesDiverge` | redis-stable/src/cluster.c:1960-1963 | two UPDATEs that leave a slot with different owners in different orders |
| `SlotConvergence.OrderIndependenceExact` | redis-stable/src/cluster.c:1465-1502 | for a slot already bound, the final owner is the same for all deliveries by which every claim arrives if and only if the claims decide the slot |
| `SlotBitmap.BitChanged` | redis-stable/src/cluster.c:3339-3357 | setting or clearing a position of a bitmap changes the test at that position and nowhere else |
| `SlotBitmap.SlotSetChanged` | redis-stable/src/cluster.c:3346-3357 | the set of slots of a bitmap gains or loses exactly the one |
| `ClusterState.State.constructor` | redis-stable/src/cluster.c:398-435 | the state of a new node: a master without slots |
| `ClusterState.State.ModelIsWf` | redis-stable/src/cluster.c:3377-3407 | bitmap, counter and slot array of every node agree, and the view they stand for is well formed |
| `ClusterState.State.AddSlot` | redis-stable/src/cluster.c:3418-3423 | a free slot goes to the node in array, bitmap and counter; an owned one is refused |
| `ClusterState.State.DelSlot` | redis-stable/src/cluster.c:3428-3435 | the slot becomes free; the assertion that the owner's bit was set never fires |
| `ClusterState.State.DelNodeSlots` | redis-stable/src/cluster.c:3439-3447 | exactly the slots of the node become free; the returned number is always the size of the table |
| `ClusterState.State.CloseAllSlots` | redis-stable/src/cluster.c:3451-3456 | no slot is being imported any more and nothing else changed |
| `ClusterState.State.SetNodeAsMaster` | redis-stable/src/cluster.c:1415-1429 | the node is a master without a master and nothing else changed |
| `ClusterState.State.SetMaster` | redis-stable/src/cluster.c:3638-3654 | this node follows n, given what its assertions demand |
| `ClusterState.State.GetMaxEpoch` | redis-stable/src/cluster.c:926-939 | the greatest of currentEpoch and all known configEpochs |
| `ClusterState.State.BumpConfigEpochWithoutConsensus` | redis-stable/src/cluster.c:970-987 | the in-memory bump is the one of the view, for the greatest epoch known |
| `ClusterState.State.HandleConfigEpochCollision` | redis-stable/src/cluster.c:1035-1050 | the in-memory collision handler is the one of the view |
| `ClusterState.State.RebindClaims` | redis-stable/src/cluster.c:1465-1511 | the loop rebinds exactly the slots the view says, finds out whether this node must follow the claimant, and collects exactly the lost slots that hold keys |
| `ClusterState.State.UpdateSlotsConfigWith` | redis-stable/src/cluster.c:1442-1530 | the view after the message; when an assertion stops the server; unless this node becomes a replica no key is left in any slot it lost, and all other keys are untouched |
| `ClusterState.State.SendFailoverAuthIfNeeded` | redis-stable/src/cluster.c:2466-2566 | the vote is granted exactly under the conditions of the view, and only lastVoteEpoch changes |
| `ClusterState.State.ReplaceYourMaster` | redis-stable/src/cluster.c:2666-2682 | exactly the slots of the old master change hands and this node is a master |
| `ClusterState.State.HandleSlaveFailover` | redis-stable/src/cluster.c:2704-2869 | which branch is taken and what it does to the view; `BranchExactly`, `AskSends` and `WinnerTakesOver` say what that means |
| `ClusterState.State.DelNode` | redis-stable/src/cluster.c:863-890 | no slot, import or replica refers to the node any more, everything else is as before |
| `ClusterPackets.SameBitmap` | redis-stable/src/cluster.c:1816-1818 | memcmp tells two bitmaps apart exactly when they hold different slots |
| `ClusterPackets.OnHeader` | redis-stable/src/cluster.c:1599-1613 | epochs in memory after any packet are those of the view; an unknown sender or one in handshake changes nothing |
| `ClusterPackets.OnRole` | redis-stable/src/cluster.c:1766-1800 | roles, masters and slots after a ping announced a change of role are those of the view |
| `ClusterPackets.IsDirty` | redis-stable/src/cluster.c:1812-1820 | the comparison of bitmaps finds out whether the claimed slots differ from those of the sender or its master |
| `ClusterPackets.FirstOutdated` | redis-stable/src/cluster.c:1846-1867 | the least claimed slot that someone of greater epoch owns, or that there is none |
| `ClusterPackets.DemotionShows` | redis-stable/src/cluster.c:1513-1528 | an update of slots changes this node's role or master exactly when it takes the last slot of its master or its own |
| `ClusterPackets.RolesKeepMe` | redis-stable/src/cluster.c:1599-1800 | header and role switch of a packet from another node leave this node's role and slots alone |
| `ClusterPackets.ReplicaWithSlotStops` | redis-stable/src/cluster.c:3638-3640 | a ping that stops a replica which took a slot |
| `ClusterPackets.HandlePing` | redis-stable/src/cluster.c:1766-1877 | the view in memory after a ping is the one of the handler on values; an UPDATE is owed exactly when that handler sends one; the keys deleted are those of exactly the slots this node lost, none if it became a replica; exactly when the server stops |
| `ClusterPackets.HandleAuthRequest` | redis-stable/src/cluster.c:1925-1927 | the view after a vote request, and granted exactly when the handler on values sends an ack |
| `ClusterPackets.HandleAuthAck` | redis-stable/src/cluster.c:1928-1941 | the vote count grows exactly when the handler on values counts the ack, which `CountsExactly` spells out |
| `ClusterPackets.HandleUpdate` | redis-stable/src/cluster.c:1953-1975 | the same for an UPDATE: view, deleted keys, and exactly when the server stops |
| `Keyspace.Insert` | redis-stable/src/t_zset.c:110-164 | the sorted index gains exactly the entry |
| `Keyspace.Remove` | redis-stable/src/t_zset.c:188-213 | the sorted index loses exactly the entry |
| `Keyspace.IndexIsDetermined` | redis-stable/src/db.c:1240-1251 | the set of keys determines the index |
| `Keyspace.Database.DbAdd` | redis-stable/src/db.c:157-164 | a new key enters dictionary and slot index together |
| `Keyspace.Database.DbOverwrite` | redis-stable/src/db.c:171-176 | the value changes, expire time and indexes do not |
| `Keyspace.Database.SetKey` | redis-stable/src/db.c:184-193 | the key has the value and no expire time, whether or not it existed or had expired |
| `Keyspace.Database.DbDelete` | redis-stable/src/db.c:226-236 | the key leaves dictionary, expire times and slot index together |
| `Keyspace.Database.EmptyDb` | redis-stable/src/db.c:276-287 | everything in the database is gone and counted |
| `Keyspace.Database.Rename` | redis-stable/src/db.c:731-771 | value and expire time move to the new name; exactly when it is refused or finds no key; an expire time of -1 is lost |
| `Keyspace.Database.RenameLosesExpire` | redis-stable/src/db.c:748-765 | a key with an expire time of -1 has none under its new name |
| `Keyspace.Database.RemoveExpire` | redis-stable/src/db.c:840-845 | only the expire time goes, and whether there was one |
| `Keyspace.Database.SetExpire` | redis-stable/src/db.c:847-855 | the key has the expire time and nothing else changed |
| `Keyspace.Database.GetExpire` | redis-stable/src/db.c:859-870 | the expire time, for keys that are in the dictionary |
| `Keyspace.Database.ExpireIfNeeded` | redis-stable/src/db.c:896-930 | which keys are deleted when touched, and which only count as expired on a replica |
| `Keyspace.Database.LookupKeyWrite` | redis-stable/src/db.c:136-139 | the value after lazy expiry |
| `Keyspace.Database.DelKeysInSlot` | redis-stable/src/db.c:1276-1294 | exactly the keys of the slot are deleted, from all three, and counted |
| `Keyspace.Database.CountKeysInSlot` | redis-stable/src/db.c:1296-1323 | the rank arithmetic gives the number of keys that hash to the slot |
| `AofFormat.CatAppendOnlyGenericCommand` | redis-stable/src/aof.c:449-472 | the printed command is appended |
| `AofFormat.ReadCommandBack` | redis-stable/src/aof.c:653-689 | a command printed anywhere in a file is read back, to its last byte |
| `AofFormat.ReadCommandCut` | redis-stable/src/aof.c:653-689 | a file that ends inside a printed command is a short read, never a format error, even where a cut number reads as a smaller one |
| `AofFormat.LoadAppendOnlyFile` | redis-stable/src/aof.c:613-765 | the loops give the outcome defined command by command, for every file; the lemmas below say what that is for whole, cut and damaged logs |
| `AofFormat.CutLogRecovers` | redis-stable/src/aof.c:637-756 | the first n bytes of any log load as exactly the commands wholly inside them and are cut back to these; without the option the load fails exactly when something was cut or a transaction is open |
| `AofFormat.RoundTrip` | redis-stable/src/aof.c:449-472 | a log loads as the commands it was printed from |
| `AofFormat.BadMarkIsFormatError` | redis-stable/src/aof.c:659 | a log followed by any byte but a star, and anything after it, is a format error whether or not truncated files are loaded |
| `AofFormat.BadCountIsFormatError` | redis-stable/src/aof.c:660-662 | so is a command whose count atoi reads as less than one; one that starts with a zero byte is a read error |
| `AofFormat.NoArgumentsIsFormatError` | redis-stable/src/aof.c:661-662 | a printed count of zero, or a negative one, is a format error |
| `AofFormat.BadArgumentIsFormatError` | redis-stable/src/aof.c:674 | so is an argument, after any whole ones, that does not start with a dollar sign |
| `AofFormat.UnknownStops` | redis-stable/src/aof.c:692-697 | a whole command that is not in the table stops the loader |
| `AofFormat.TruncatedFileReloads` | redis-stable/src/aof.c:725-756 | whatever the file held: once loaded and cut back it loads again, whole, as the same commands |
| `AofFlush.Aof.Flush` | redis-stable/src/aof.c:287-425 | file, buffer, size and status after one flush, for every answer of write and ftruncate; `FlushOutcome` says what that means for the stream |
| `AofFlush.FlushAccounts` | redis-stable/src/aof.c:344-406 | file and buffer together stay the stream that was fed and the recorded size is the size of the file; under "always" the file is the stream unless the server exits |
| `AofFlush.RunAccounts` | redis-stable/src/aof.c:287-425 | the same over every run of feeds and flushes with any results |
| `AofFlush.FlushOutcome` | redis-stable/src/aof.c:287-425 | a flush goes ahead unless the policy is everysec, nothing forces it, an fsync is pending and it was first put off less than two seconds ago; then all of the stream is in the file if the write takes the buffer, and otherwise the process ends under always or notes the error |
| `AofFlush.PutOffFlushIsWritten` | redis-stable/src/aof.c:301-319 | after a flush put off at time t, unless some flush has gone ahead since, one at t + 2 or later whose write takes the buffer leaves every byte fed so far in the file |
| `AofFlush.PutOffAgain` | redis-stable/src/aof.c:301-319 | the condition is needed: a flush at t + 2 may be put off because another went ahead in between |
| `AofFlush.CrashRecovers` | redis-stable/src/aof.c:287-425 | a crash anywhere in any run, with any end of the file lost, leaves a file that loads as the first commands fed, each of them whole |
| `AofRewrite.RewriteBuffer.Append` | redis-stable/src/aof.c:124-168 | the bytes go to the end of the buffer, and no block is filled beyond its array |
| `AofRewrite.RewriteBuffer.WriteDiffData` | redis-stable/src/aof.c:95-121 | what goes into the pipe comes off the front of the buffer, as many as the successful writes took, up to the first that failed or until nothing is left; nothing goes once sending has stopped |
| `AofRewrite.RewriteBuffer.Write` | redis-stable/src/aof.c:173-193 | the whole buffer is written in order, or the failure is reported, exactly when some block was not written whole |
| `AofRewrite.RewriteBuffer.Size` | redis-stable/src/aof.c:79-90 | the number of bytes in all the blocks |
| `AofRewrite.StepConserves` | redis-stable/src/aof.c:1129-1201 | every step of parent or child keeps each fed byte in exactly one place, in order, and the child goes on only when the parent has stopped |
| `AofRewrite.InstalledIsComplete` | redis-stable/src/aof.c:1358-1391 | for every interleaving the installed file is the snapshot followed by everything fed since the fork if and only if the last read emptied the pipe |
| `AofRewrite.DrainedRunIsComplete` | redis-stable/src/aof.c:996-1006 | a last read that reads until the pipe is empty makes it so |
| `AofRewrite.EarlyReadLoses` | redis-stable/src/aof.c:996-1006 | a last read that stops early loses bytes |
| `AofReplay.Feeder.Feed` | redis-stable/src/aof.c:511-556 | the same bytes, with a SELECT exactly when the database changed, go to the buffers that are in use |
| `AofReplay.SelectElisionIsSound` | redis-stable/src/aof.c:511-523 | replaying what was logged runs every command on its own database, wherever the selected database was forgotten in between and whatever database replay starts from |
| `AofReplay.InstalledFileRebuilds` | redis-stable/src/aof.c:1263-1465 | a rewritten file loads whole and rebuilds the dataset of the fork with every later command applied to its own database |
| `AofReplay.CrashAfterRewrite` | redis-stable/src/aof.c:1263-1465 | after a rewrite is installed, any feeding, flushing and crash that spares the snapshot leaves a file that loads and rebuilds the dataset of the fork with the first operations since applied, each to its own database, and with all of them if nothing was lost |
| `Popcount.LinesCount` | redis-stable/src/bitops.c:66-86 | the three lines of masks and shifts put the number of one bits of every byte into that byte |
| `Popcount.MultiplySums` | redis-stable/src/bitops.c:80-86 | the multiplication adds up four lanes in the highest byte |
| `Popcount.RoundCounts` | redis-stable/src/bitops.c:54-87 | one round counts the one bits of 28 bytes and no sum in it overflows |
| `Popcount.RedisPopcount` | redis-stable/src/bitops.c:40-92 | the number of one bits, for every string and every alignment |
| `Bitpos.LoadBigEndian` | redis-stable/src/bitops.c:144-152 | the last word holds the remaining bits, first byte most significant, padded with zeros |
| `Bitpos.WordHasMatch` | redis-stable/src/bitops.c:159-178 | the word that stopped the skipping holds the bit looked for, so that the final panic is unreachable |
| `Bitpos.Scan` | redis-stable/src/bitops.c:165-173 | the scan ends at the first such bit |
| `Bitpos.RedisBitpos` | redis-stable/src/bitops.c:101-179 | the least position of the bit; -1 exactly for 1 in a string of zeros, the length exactly for 0 in a string of ones; for every length, alignment and word size |
| `Bitop.Lengths` | redis-stable/src/bitops.c:620-647 | the common and the greatest length, a missing key counting as empty |
| `Bitop.LoadZip` | redis-stable/src/bitops.c:668-706 | combining words combines their bytes |
| `Bitop.CombineRound` | redis-stable/src/bitops.c:668-717 | one round of the fast path does to four words what the plain algorithm does to their bytes |
| `Bitop.CombineByte` | redis-stable/src/bitops.c:722-732 | one byte of the plain algorithm |
| `Bitop.BitopCommand` | redis-stable/src/bitops.c:649-734 | every byte of the result is the fold of the operation over the zero-padded sources, whichever part the fast path did; each bit of the result is set exactly if all, some, an odd number, or none of the sources have it there |
| `Bitop.FoldBitMeans` | redis-stable/src/bitops.c:729-737 | AND sets a bit exactly if every string has it, OR if some has, XOR if an odd number have, NOT if the string has not |
| `Bitop.ResultBits` | redis-stable/src/bitops.c:721-733 | and so is every bit |
| `Bitfield.SetUnsignedBitfield` | redis-stable/src/bitops.c:202-215 | the low bits of the value are written at the offset and no other bit of the string changes |
| `Bitfield.SetSignedBitfield` | redis-stable/src/bitops.c:217-220 | the same for the two's complement of a signed value |
| `Bitfield.GetUnsignedBitfield` | redis-stable/src/bitops.c:222-234 | the number the bits of the field stand for |
| `Bitfield.GetSignedBitfield` | redis-stable/src/bitops.c:236-256 | the number they stand for in two's complement |
| `Bitfield.StoredIsCongruent` | redis-stable/src/bitops.c:217-256 | a stored number reads back modulo 2^n, and as it was if it fits |
| `Bitfield.FieldsAreIndependent` | redis-stable/src/bitops.c:202-234 | a field reads back as written and a disjoint one as before |
| `Bitfield.CheckUnsignedOverflow` | redis-stable/src/bitops.c:281-316 | zero exactly if the sum fits; the limit is the residue or the bound |
| `Bitfield.CheckSignedOverflow` | redis-stable/src/bitops.c:318-368 | the same for signed fields, with the case where the distance to the greatest value overflows |
| `Bitfield.ExecSigned` | redis-stable/src/bitops.c:1010-1039 | SET and INCRBY: the goal if it fits, else residue, bound or nothing; the reply; saturation is to the nearest value if and only if the operation is no SET of a number that far below; no bit outside the field changes |
| `Bitfield.ExecUnsigned` | redis-stable/src/bitops.c:1040-1069 | the same for unsigned fields, where the exception is a SET of a negative number |
| `Bitfield.ExecGet` | redis-stable/src/bitops.c:1071-1104 | the field of the string continued by zeros; nine copied bytes are enough |
| `Bitfield.SaturatesToWrongBound` | redis-stable/src/bitops.c:1023-1029 | a saturating SET of the least int64_t into eight bits stores 127 |
| `Intset.DecodeEncode` | redis-stable/src/intset.c:55-94 | a number in range comes back from its bytes |
| `Intset.LittleEndian` | redis-stable/src/intset.c:54-74 | byte i of a stored number is worth 256 to the i, whatever the machine |
| `Intset.ValueEncodingIsLeast` | redis-stable/src/intset.c:45-52 | the encoding of a number is the least one it fits into |
| `Intset.IntegerSet.constructor` | redis-stable/src/intset.c:97-102 | the empty set |
| `Intset.IntegerSet.Search` | redis-stable/src/intset.c:115-154 | whether the value is there and where, or where it belongs |
| `Intset.WidenedCell` | redis-stable/src/intset.c:171-172 | rewriting one number in the wider encoding destroys none that was not yet read |
| `Intset.IntegerSet.Widen` | redis-stable/src/intset.c:168-172 | after the loop the block holds the old numbers in the new encoding, with a free cell at one end |
| `Intset.IntegerSet.UpgradeAndAdd` | redis-stable/src/intset.c:157-180 | the wider set is the old numbers with the new one before or behind them, strictly sorted |
| `Intset.MovedCells` | redis-stable/src/intset.c:182-201 | the numbers of the tail are found again at their new place, whatever overlaps, and all others stay where they were |
| `Intset.IntegerSet.InsertAt` | redis-stable/src/intset.c:224-230 | the value stands at its place and all others in order around it |
| `Intset.IntegerSet.Add` | redis-stable/src/intset.c:204-231 | the set gains the value, success tells whether it was new, the block stays sorted, the encoding never narrows |
| `Intset.IntegerSet.Remove` | redis-stable/src/intset.c:234-251 | the set loses the value, success tells whether it was there, the encoding stays |
| `Intset.IntegerSet.Find` | redis-stable/src/intset.c:254-257 | membership, also for values too wide for the encoding |

## Left out

- The Ruby application around the server, its user interface, and the parts of Redis not named above.
- Epochs, counters and lengths of 32 or 64 bits are unbounded in the cluster, AOF, keyspace and intset models; wrap-around is modelled in the bit operations only.
- Clocks, random delays, node timeouts, slave ranks, links and failure detection are free choices of each step; gossip and failure reports appear only as a node being marked failed or not.
- CLUSTER RESET HARD and restarts that forget lastVoteEpoch; migrating slots, lists of slaves and the migration of replicas.
- Of clusterProcessPacket: MEET and the handshake, FAIL, PUBLISH and MFSTART packets, and the gossip section.
- ClusterPackets.HandlePing: leaves out one ping, a node's own, sent as a replica and read after it became a master and forgot the master it names; the code would make it a replica without a master.
- ClusterPackets.OnRole: leaves out the same ping.
- ClusterState.State.CloseAllSlots: clears the slots being imported; slots being migrated away are not modelled.
- SlotConvergence.TableConverges: the observer is a master that serves no slot and imports none, each node publishes one configuration, and UPDATEs come from nodes past their handshake.
- Keyspace.Database.EmptyDb: empties one database; the source empties all of them.
- AofReplay.Feeder.Feed: commands that are translated before they are logged (EXPIRE, SETEX, PSETEX) are not modelled.
- AofReplay.InstalledFileRebuilds: that the snapshot rebuilds the dataset of the fork is a hypothesis; how the child writes it is not modelled.
- AofReplay.CrashAfterRewrite: the same hypothesis.
- Parsing of packets, of nodes.conf and of command arguments; the table of commands is a parameter of the loader.
- Whether a log leaves a transaction open is a parameter of the loader.
- Memory allocation never fails, so that an absurd length in a file is a short read; truncate(2) and lseek(2) on a file being loaded succeed.
- What fsync(2) makes durable: a crash may lose any end of the file.
- The table of the number of bits in a byte is taken as the function it tabulates.
- BITFIELD with 64 bits, where C leaves a shift undefined, and the length the string is extended to before a BITFIELD writes, which is a precondition.
- BITOP on keys that hold no strings.
- The skip list behind the index of keys by slot is a sorted sequence, the dictionaries are maps, and crc16 is any function from keys to slots.
- Lists of pending fsyncs and background threads appear only as whether an fsync is in progress.
