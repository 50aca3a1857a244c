# D2PC: a verified model

The repository is a geo-replicated transactional store: Viewstamped Replication, Inconsistent
Replication, a parallel two-phase commit (D2PC) in which coordinators bypass the shard leaders,
an optimistic versioned store, the two transports under them and a JSON library. This project
models its step machines and codecs in Dafny and proves what they are for, over every run and
every input. Everything here is checked statically.

| part | files |
|---|---|
| Viewstamped Replication in one view, with batching and state transfer | `ReplicaLog`, `VrSpec`, `VrSystem`, `VrInvariant`, `VrAgreement`, `VrSteps`, `VrTheorems`, `VrProgress`, `VrReplica` |
| Log transfer between any two logs | `LogTransfer` |
| Parallel commit: shard leaders, followers, coordinators and a network | `CommitMessages`, `CoordinatorSpec`, `LrReplicaSpec`, `D2pcSystem`, `D2pcInvariant`, `D2pcCoordinator`, `D2pcReplica`, `D2pcTheorems`, `D2pcCommits`, `CoordinatorAlone`, `CoordinatorSteps`, `CoordinatorReplica`, `LrReplica` |
| Dependencies on pre-committed transactions | `Dependencies`, `Recoverability` |
| What parallel commit can reach: every transaction that can commit, and the states in which the code falls short | `CoordinatorProgress`, `D2pcRuns`, `D2pcReach`, `D2pcShortfalls` |
| Optimistic validation over a multi-version store | `VersionStore`, `OccSpec`, `OccSerializability`, `OccGuarded`, `OccPrecommits`, `OccEffects`, `OccRuns`, `OccStore` |
| Inconsistent Replication: merge, fast path, client; the lock server's merge | `IrMerge`, `IrFastPath`, `IrReplica`, `IrClientSpec`, `IrClient`, `LockServer` |
| JSON pointers, patches and differences | `JsonPointer`, `JsonPatch`, `JsonOperations`, `JsonDiff` |
| TCP framing, UDP fragments, `hashlittle` with its three paths and its mixing | `Bytes`, `TcpFraming`, `UdpFragments`, `Lookup3`, `HashMixing` |
| Latency histograms | `Latency` |
| Sizes of finite sets | `Counting` |

How the parts are built: where the source updates an object in place there is a `class` with the
source's fields, and each of its methods is proved equal to a function on the object's value
(`VrReplica.VRReplica` to `VrSpec`, `CoordinatorReplica.Replica` to `CoordinatorSpec`, and so
on). Systems of several nodes are step machines over those functions: a network is the set of all
messages ever sent, any of which may be delivered at any time and any number of times, so loss,
delay, repetition and reordering are covered. Theorems are about every sequence of events. Those on
dependencies are about orderly runs, in which a leader takes up at most one prepare request per
transaction, after the transaction's reads; what a second one does is stated below.

## Where the code falls short

These are results about the code as it is. Each is about all runs or all inputs; conditions are
exact, and where it matters that a state can be reached there is a run that reaches it.

* Which transactions can commit. Where a leader does not receive its own broadcasts, a transaction
  can be committed if and only if there are at least three replicas and its primary coordinator is
  beside no leader of a participant (`D2pcReach.CommitExactly`, for any number of replicas and
  participants, both directions); in the default layout, where the leader of a shard is the shard
  number modulo n, that is never (`D2pcReach.DefaultLayout`). (The transport skips the sender's own
  address; a replica that registers with several transports is known by the last address only, so
  that in practice it does hear itself. `Config.loopback` covers both.)
* The coordinators' records. The primary coordinator broadcasts the state PREPARED, and every other
  coordinator files whatever is not COMMIT as ABORT: in every run a coordinator's record of a
  transaction says ABORT if and only if it is not the primary coordinator
  (`D2pcTheorems.OthersFileAbort`), and every coordinator beside an answering replica can come to
  hold such a record (`D2pcShortfalls.AbortIsRecorded`).
* Notices that go astray. When the last transaction that `t` waits for commits, the notice that the
  dependencies of `t` are cleared is sent to the coordinator of the committing transaction, not to
  that of `t` (replication/lr/replica.cc:796-813). `Recoverability.NoticeGoesToLast` says exactly who
  is told; `LastHasSameCoordinator` that a transaction prepared while it waited is committed only if
  the last transaction it waited for has the same primary coordinator; `StrandedForever` that
  otherwise it never is; and `D2pcShortfalls.StrandedIsReachable` gives the run.
* A second prepare request. It replaces an active transaction by one with a counter of 0 and an empty
  out list. The counters stay exact if and only if the transaction waits for nobody and nobody who
  still reads or is active waits for it (`Dependencies.SecondPrepareConserves`); otherwise the next
  commit of one it waits for clears it, however many others are left
  (`Dependencies.SecondPrepareClearsEarly`), which `D2pcShortfalls.ClearedEarlyIsReachable` reaches.
* The state of log entries. A commit sets the state of the entry at the position that has the
  transaction's id as its number (replication/lr/replica.cc:823). That is the transaction's own entry
  if and only if the two numbers agree (`Dependencies.CommitMarks`; over whole runs
  `Recoverability.EntryStates`). `D2pcShortfalls.FirstEntry` reaches a committed transaction whose
  entry is not marked, `D2pcShortfalls.WrongEntry` an uncommitted one whose entry is.
* Commits at time 0. The followers' votes never set their timestamp, so every commit decision
  carries timestamp 0 (`D2pcTheorems.CommitsAtTimeZero`). A write becomes the latest version exactly
  if its timestamp exceeds the stored ones (`OccSerializability.WriteTakesEffect`), so that with
  commits at time 0 a key that was loaded at the start never changes
  (`OccSerializability.LoadedKeysStay`).
* A decision that reaches the transaction's own primary coordinator while the transaction is pending
  there leaves it both pending and decided, and nothing else does
  (`CoordinatorAlone.HandleTouches`). In whole runs this never happens (`D2pcTheorems.DecidedOnce`).
* The pre-commit notice is repeated with every later vote
  (`CoordinatorAlone.RepeatedVoteNotifiesAgain`), and a repeated pre-commit replaces the transaction
  in the store by an empty one (`OccSerializability.SecondPreCommitLosesWrites`), since the build
  disables the assertion that would stop it.
* Reads of pre-committed writes. Where the store reports a pre-committed writer of a key, a read is
  answered with that writer's value and timestamp 0 (store/common/backend/versionstore.cc:50-67,
  replication/lr/replica.cc:1043-1058). A run is serializable in commit order if and only if each
  transaction is committed while what it was given is what the latest versions say
  (`OccSerializability.SerialExactly`). The code does not see to that: a transaction commits with a
  value that no transaction ever committed, if its writer was aborted before it was prepared
  (`OccRuns.DirtyReadCommits`); and since a pre-committed transaction is no longer validated against,
  two transactions that no serial order explains both commit (`OccRuns.PreCommitAllowsWriteSkew`).
  `OccGuarded.Serializability` says which precautions suffice; without pre-commits none are needed
  (`OccGuarded.PlainSerializability`), and the path that parallel mode is for violates none
  (`OccRuns.ReadFromPreCommitted`). Because of the timestamp 0 the reader is refused once its writer
  has committed (`OccSerializability.LateReaderRefused`).
* Dead writers. An abort does not take a transaction off the store's lists of pre-committed writers
  (store/strongstore/occstore.cc:195-215). The lists are exact in every state of a run if and only if
  no transaction that writes something leaves the pre-committed ones other than by its commit
  (`OccPrecommits.ListsExactly`); a transaction that was pre-committed and aborted keeps every later
  read of its keys from any stored version, for good (`OccPrecommits.AbortedIsListed`,
  `OccPrecommits.DeadWriterStays`).
* Nothing stops the client's slow path timer when the fast path succeeds. Over all that can happen, a
  result other than the one returned is sent out for finalization if and only if the timer has fired
  and the application's decision on the first view with a quorum of replies differs
  (`IrClientSpec.OtherResultSent`); `IrClientSpec.FastThenOther` is such a run.
* Assertions. The Makefile compiles them out. With them the TCP receiver takes a frame if and only if
  its data is not empty and its size is below a limit; without them, every frame
  (`TcpFraming.FrameAccepted`). With them a late UDP fragment of an older message stops the process,
  and so does one that completes a message of 2^31 bytes (`UdpFragments.AssertsFragment`, exactly
  when).
* Replies in one message. The flag by which a coordinator skips a reply it knows is not reset within
  the message: if the first reply is known, the others are dropped
  (`CoordinatorSteps.KnownReplyDropsRest`); if none is known, the message does what its replies would
  do one by one (`CoordinatorSteps.UnionIsSingles`).
* JSON patches. A removal below a primitive value is not noticed and does nothing
  (`JsonOperations.RemoveExactly`, exactly when). Moving a value into itself, which RFC 6902 forbids,
  succeeds if and only if it is an element of an array whose next element it can be added to
  (`JsonOperations.MoveIntoItself`).
* The sum of two latency histograms is that of all samples, but it follows a null pointer exactly if
  a type that is new to the destination has every 32-bit count wrapped around to 0
  (`Latency.Recorder.Sum`).

## Model

| member | source | states |
|---|---|---|
| `VrTheorems.RunInv` | replication/vr/replica.cc:90-167 | in every run confined to the first view no RPanic and no ASSERT of the handlers fires, and the invariant holds in every state reached |
| `VrTheorems.Agreement` | replication/vr/replica.cc:371-470 | every replica's log is a prefix of the leader's, any two executed sequences are prefixes of one another, and what any replica has executed is in the logs of at least f+1 replicas |
| `VrTheorems.AtMostOnce` | replication/vr/replica.cc:255-269 | along every log a client's request ids strictly increase, so no request is logged or executed twice, however often it is sent |
| `VrTheorems.RepliesAreDurable` | replication/vr/replica.cc:104-126 | a reply with an opnum was computed from exactly the leader's requests up to that opnum, which f+1 replicas hold |
| `VrTheorems.StateTransferCatchesUp` | replication/vr/replica.cc:680-786 | one request and one answer of the leader make a follower's log and executed sequence equal the leader's, however far behind it was |
| `VrTheorems.RoundCommits` | replication/vr/replica.cc:494-637 | a prepare that reaches f followers that miss nothing before it, and whose acknowledgements return, makes the leader execute every request of the batch |
| `VrProgress.RequestIsLogged` | replication/vr/replica.cc:371-470 | after every run, a request that the leader does not know and the application wants replicated is the one addition to the leader's requests, and a prepare that ends with it is on its way to every follower, or the batch timer is on |
| `VrProgress.TimerProposes` | replication/vr/replica.cc:284-318 | the batch timer sends every follower a prepare that ends with the last request logged |
| `VrProgress.RequestIsExecuted` | replication/vr/replica.cc:371-637 | from every run there is a continuation, by closing the batch, delivering the proposal to f followers and their acknowledgements, after which the leader has executed the new request and a reply with its id has gone to the client's address |
| `VrProgress.AnswerComes` | replication/vr/replica.cc:90-134 | whatever happens in between, a request that was new is answered to its client once the leader has executed it, if the client stays at its address |
| `VrProgress.OtherRequests` | replication/vr/replica.cc:380-441 | a stale request is dropped, a repeated one gets the stored reply once there is one, a refused one the application's answer; none is logged |
| `VrProgress.CommitUpToStores` | replication/vr/replica.cc:90-134 | execution stores the reply that a repeated request will get, unless the client has a later request |
| `VrProgress.AckEffect` | replication/vr/replica.cc:574-637 | an acknowledgement below a quorum is counted and nothing else; with a quorum everything up to its opnum is executed and answered |
| `VrProgress.QuorumIsAnnounced` | replication/vr/replica.cc:574-637 | the acknowledgement that completes a quorum makes the leader tell every follower |
| `VrProgress.FollowerExecutes` | replication/vr/replica.cc:639-678 | a follower that has the operations of a commit message executes them and no more |
| `VrProgress.TimerResends` | replication/vr/replica.cc:271-282 | the resend timer sends the last proposal again to every follower while something is uncommitted |
| `VrProgress.TimerAnnounces` | replication/vr/replica.cc:241-253 | the null commit timer tells every follower how far the leader has executed |
| `VrProgress.GapIsFilled` | replication/vr/replica.cc:494-786 | a follower told of operations it misses asks for them, and one exchange brings it level with the leader |
| `VrProgress.TransferIsAcknowledged` | replication/vr/replica.cc:710-786 | after a state transfer every new operation that was not shown as committed has been acknowledged |
| `VrReplica.VRReplica.UpdateClientTable` | replication/vr/replica.cc:255-269 | the table entry of the client after a request, or failure where the source asserts |
| `VrReplica.VRReplica.CommitUpTo` | replication/vr/replica.cc:90-134 | the loop executes, answers and records every operation up to the bound, as the function the run theorems are about |
| `VrReplica.VRReplica.SendPrepareOKs` | replication/vr/replica.cc:136-167 | one acknowledgement per new operation, to the leader |
| `VrReplica.VRReplica.RequestStateTransfer` | replication/vr/replica.cc:169-192 | asks for state once per opnum and view |
| `VrTheorems.EnterViewStartsOver` | replication/vr/replica.cc:194-216 | entering a view keeps the log, what has been executed and the client table, runs only a leader's timers, takes all that is logged as proposed, and counts no earlier acknowledgement: until f new ones have come nothing is executed (`VrReplica.VRReplica.EnterView` is proved to be this function) |
| `VrReplica.VRReplica.CloseBatch` | replication/vr/replica.cc:284-318 | the prepare message holds exactly the requests since the last batch |
| `VrReplica.VRReplica.HandleRequest` | replication/vr/replica.cc:371-470 | is the step of `VrProgress.RequestIsLogged` and `VrProgress.OtherRequests`: duplicates are answered from the client table, the rest logged, and a full batch is closed |
| `VrReplica.VRReplica.HandlePrepare` | replication/vr/replica.cc:494-572 | stale, early and applicable prepares are told apart and handled |
| `VrReplica.VRReplica.HandlePrepareOK` | replication/vr/replica.cc:574-637 | acknowledgements are counted by replica and a quorum commits |
| `VrReplica.VRReplica.HandleCommit` | replication/vr/replica.cc:639-678 | commits up to the leader's point or asks for state |
| `VrReplica.VRReplica.HandleRequestStateTransfer` | replication/vr/replica.cc:680-708 | answers with the tail of the log |
| `VrReplica.VRReplica.HandleStateTransfer` | replication/vr/replica.cc:710-786 | installs the tail, commits, acknowledges what is new, and drops the postponed prepares: the list is cleared before the loop over it |
| `LogTransfer.LogVector.Find` | replication/common/log.cc:46-64 | found exactly if the opnum is in range, and then the entry has it |
| `LogTransfer.LogVector.Append` | replication/common/log.cc:24-43 | opnums stay contiguous |
| `LogTransfer.LogVector.SetStatus` | replication/common/log.cc:67-77 | one entry's state changes, and the answer tells whether there was one |
| `LogTransfer.LogVector.RemoveAfter` | replication/common/log.cc:95-115 | nothing at or behind the opnum is left |
| `LogTransfer.LogVector.Dump` | replication/common/log-impl.h:6-19 | the entries from an opnum on |
| `LogTransfer.LogVector.Install` | replication/common/log-impl.h:24-55 | the two loops refine the recursive definition and keep opnums contiguous |
| `LogTransfer.InstallEffect` | replication/common/log-impl.h:24-55 | Install leaves a log that ends with exactly the given operations and is unchanged before them |
| `LogTransfer.TransferMakesEqual` | replication/common/log-impl.h:6-55 | RemoveAfter behind the sender's end and Install of its Dump make the receiver equal the sender from the first dumped operation on and unchanged before it, if the logs agree on requests where they agree on viewstamps |
| `D2pcTheorems.CommitIsDurable` | replication/commit/coordinator.cc:92-317 | when a coordinator has decided to commit, or the decision is on its way to the others, every participant's leader has validated and logged the transaction and at least n/2+1 distinct replicas of every participant hold the leader's entry |
| `D2pcTheorems.PreCommitIsSound` | replication/commit/coordinator.cc:135-158 | a decision is sent to leaders only if it is PREPARED and every participant's leader has passed the transaction and logged it, under any repetition and reordering of votes |
| `D2pcTheorems.DecidedOnce` | replication/commit/coordinator.cc:98-170 | in every run pending and decided transactions are disjoint at every coordinator, and each commit is announced at most once, by the transaction's primary coordinator |
| `D2pcTheorems.ResultsStay` | replication/commit/coordinator.cc:193-233 | a recorded result is never overwritten or dropped |
| `D2pcTheorems.OthersFileAbort` | replication/commit/coordinator.cc:335-362 | a coordinator's record says ABORT if and only if it is not the primary coordinator |
| `D2pcTheorems.CommitsAtTimeZero` | replication/lr/replica.cc:479-503 | every decision message carries timestamp 0 |
| `D2pcTheorems.CommitNeeds` | replication/lr/replica.cc:393-405 | only transactions with participants are committed, and without loopback only with three replicas or more and a primary coordinator beside no participant's leader |
| `D2pcTheorems.RunInv` | replication/commit/coordinator.cc:38-87 | the invariant that ties coordinators, leaders, followers and messages holds in every state of every run |
| `D2pcCommits.CommitIsReplicated` | replication/lr/replica.cc:822-842 | in every run, for every commit that a leader has applied a ReplicateCommit for its followers is in the network, at time 0 and with the position of the transaction's own entry in the leader's log, and the leader knows the transaction as committed |
| `D2pcCommits.FollowerDrops` | replication/lr/replica.cc:963-1012 | a follower that receives it drops exactly that transaction from its active ones and keeps its log |
| `D2pcCommits.LatePrepareIsDropped` | replication/lr/replica.cc:121-314 | in every run a prepare request for a transaction that the leader has applied sends and logs nothing |
| `D2pcCommits.PrepareIsSent` | replication/lr/replica.cc:121-410 | a new transaction that the store accepts takes the next position of the log and is sent from there, with its participants and whether it waits |
| `D2pcCommits.RefusedIsDropped` | replication/lr/replica.cc:121-314 | one that the store refuses is neither logged nor sent |
| `D2pcCommits.FollowerStores` | replication/lr/replica.cc:412-504 | a follower logs a new entry under its position, and answers every copy of the request to the leader and to the coordinator beside it |
| `D2pcCommits.DecisionPrecommits` | replication/lr/replica.cc:1082-1142 | a decision makes a transaction readable before its commit exactly if it is PREPARED and still being replicated; otherwise it changes nothing |
| `D2pcCommits.TimerResends` | replication/lr/replica.cc:372-410 | in every run the timer of a transaction that is being replicated sends its request again, from the leader's log |
| `D2pcCommits.RepliesReachConsensus` | replication/lr/replica.cc:507-544 | for every sequence of replies, replication is complete if and only if f+1 distinct replicas are among them |
| `D2pcReach.CommitExactly` | replication/commit/coordinator.cc:92-234 | a commit decision on a transaction is reachable if and only if it has participants and there is loopback, or three replicas or more and a primary coordinator beside no participant's leader |
| `D2pcReach.AlwaysCommits` | replication/commit/coordinator.cc:92-234 | from every orderly state in which such a transaction is new, some events lead to its commit and touch no other transaction |
| `D2pcReach.DefaultLayout` | replication/lr/replica.cc:393-398 | with leaders at the shard number modulo n and the primary shard a participant, a commit is reachable if and only if leaders hear themselves |
| `D2pcReach.DecisionIsOut` | replication/commit/coordinator.cc:529-551 | in every orderly run, what the primary coordinator has decided has been sent to its leader and to the other coordinators |
| `CoordinatorProgress.VoteCounts` | replication/commit/coordinator.cc:92-184 | the votes of all participants, one by one, make the transaction agreed, are each passed on, and the last notifies the leaders of this index |
| `CoordinatorProgress.AllRepliesDecide` | replication/commit/coordinator.cc:186-234 | an agreed transaction without dependencies whose answering replicas have all replied is decided |
| `CoordinatorSteps.LastVoteDecides` | replication/commit/coordinator.cc:92-184 | where enough replicas have replied, the last missing vote without a dependency commits the transaction, which is recorded and announced to the primary leader and the other coordinators |
| `CoordinatorSteps.NoticeDecidesExactly` | replication/commit/coordinator.cc:292-317 | a notice of cleared dependencies commits the transaction if and only if consensus, enough replicas and the other participants' independence are there; otherwise it is only noted |
| `CoordinatorSteps.RefusalAborts` | replication/commit/coordinator.cc:92-184 | a vote that is not PREPARED records an abort, ends the transaction and tells the leaders with this index |
| `CoordinatorSteps.UnionIsSingles` | replication/commit/coordinator.cc:236-290 | a message with several unknown replies does what the replies would do one by one |
| `CoordinatorSteps.KnownReplyDropsRest` | replication/commit/coordinator.cc:236-290 | if the first reply of a message is known, none of the others is counted and nothing is sent |
| `CoordinatorSteps.DecisionIsAnswered` | replication/commit/coordinator.cc:319-363 | a decision on a pending transaction is recorded and answered to its primary coordinator |
| `CoordinatorSteps.MajorityEnds` | replication/commit/coordinator.cc:365-388 | for every sequence of replies to a decision, the transaction ends if and only if a majority of distinct coordinators is among them |
| `D2pcShortfalls.AbortIsRecorded` | replication/commit/coordinator.cc:335-362 | any coordinator beside an answering replica can come to record ABORT for a transaction that the primary coordinator records as committed |
| `D2pcShortfalls.StrandedIsReachable` | replication/lr/replica.cc:796-813 | a transaction that waits for one with another primary coordinator can come to have its notice sent to that one only |
| `D2pcShortfalls.ClearedEarlyIsReachable` | replication/lr/replica.cc:184-203 | with a second prepare request, the notice is sent while a transaction that was read from is uncommitted |
| `D2pcShortfalls.FirstEntry` | replication/lr/replica.cc:822-823 | a shard's first transaction, once committed, has its entry marked if and only if its id is 0 |
| `D2pcShortfalls.WrongEntry` | replication/lr/log.cc:92-101 | the commit of transaction 0 can mark the entry of an uncommitted transaction |
| `D2pcCoordinator.ConsensusSays` | replication/commit/coordinator.cc:390-406 | in a run the check never inserts a vote and succeeds only if all participants have validated |
| `D2pcCoordinator.NoDependencySays` | replication/commit/coordinator.cc:408-429 | the check succeeds only if every participant has been declared free of dependencies |
| `D2pcCoordinator.FaultToleranceSays` | replication/commit/coordinator.cc:431-449 | the check on sizes succeeds only if every participant has a majority |
| `D2pcCoordinator.HandleOk` | replication/commit/coordinator.cc:38-87 | every message that can reach a coordinator keeps its part of the invariant |
| `CoordinatorAlone.HandleTouches` | replication/commit/coordinator.cc:319-363 | for any message at all, decided results stay as they are, and pending and decided stay disjoint exactly unless the message is a decision on a transaction pending at its own primary coordinator |
| `CoordinatorAlone.RecordedOnce` | replication/commit/coordinator.cc:98-170 | over any sequence of messages without such a decision, results stay and no commit is announced twice or after its result is recorded |
| `CoordinatorAlone.RepeatedVoteNotifiesAgain` | replication/commit/coordinator.cc:142-147 | after consensus every further PREPARED vote sends the pre-commit notice again |
| `CoordinatorReplica.CheckConsensus` | replication/commit/coordinator.cc:390-406 | the scanning loop, with the vote it inserts, decides exactly whether all participants voted PREPARED |
| `CoordinatorReplica.CheckNoDependency` | replication/commit/coordinator.cc:408-429 | the scanning loop decides the dependency condition |
| `CoordinatorReplica.CheckFaultTolerance` | replication/commit/coordinator.cc:431-449 | the scanning loop decides the replication condition |
| `CoordinatorReplica.Replica.NotifyCommitDecision` | replication/commit/coordinator.cc:500-523 | exactly the participants whose leader has this index are notified |
| `CoordinatorReplica.Replica.HandleReplicateReplyAndVote` | replication/commit/coordinator.cc:92-184 | refines the step that the run theorems are about |
| `CoordinatorReplica.Replica.HandleBypassLeaderReply` | replication/commit/coordinator.cc:186-234 | refines the step that the run theorems are about |
| `CoordinatorReplica.Replica.HandleBypassLeaderReplyUnion` | replication/commit/coordinator.cc:236-290 | the nested loop, with the flag that is never reset and the empty lists it creates |
| `CoordinatorReplica.Replica.HandleNotifyDependenciesAreCleared` | replication/commit/coordinator.cc:292-317 | refines the step that the run theorems are about |
| `CoordinatorReplica.Replica.HandleDecision` | replication/commit/coordinator.cc:319-363 | refines the step that the run theorems are about |
| `CoordinatorReplica.Replica.HandleDecisionReply` | replication/commit/coordinator.cc:365-388 | replies are counted by coordinator and a majority ends the transaction |
| `LrReplica.LRReplica.HandlePrepareTxn` | replication/lr/replica.cc:121-314 | the parallel path: known, refused and accepted transactions, the counter taken over, the log entry and the replication request |
| `LrReplica.LRReplica.InvokeReplicateTxn` | replication/lr/replica.cc:317-370 | a transaction being replicated is sent again as it was |
| `LrReplica.LRReplica.AddToLog` | replication/lr/log.cc:56-61 | the leader's log entry takes the next lsn |
| `LrReplica.LRReplica.HandleReplicateTransactionReply` | replication/lr/replica.cc:507-544 | a quorum of replies ends replication |
| `LrReplica.LRReplica.HandleRead` | replication/lr/replica.cc:1016-1070 | every read of a pre-committed write is entered in the writer's out list and counted for the reader |
| `LrReplica.LRReplica.NotifyForFollowingDependencies` | replication/lr/replica.cc:780-819 | the loop over the out list lowers counters and sends notices |
| `LrReplica.LRReplica.HandleCommit` | replication/lr/replica.cc:669-738 | is the step of the run theorems, `D2pcCommits.CommitIsReplicated` among them: the entry marked, the waiting ones released, the followers told |
| `LrReplica.LRReplica.HandleReplicateTransaction` | replication/lr/replica.cc:412-504 | the entry is logged once, and every copy of the request is answered with reply and vote |
| `LrReplica.LRReplica.HandleDecisionFromCoordinatorReplica` | replication/lr/replica.cc:1082-1124 | a pending transaction is pre-committed |
| `Recoverability.CountersAreExact` | replication/lr/replica.cc:201-203 | if a leader takes up at most one prepare per transaction, after its reads, then the counter of every reading and every active transaction equals its occurrences in the out lists of the active transactions |
| `Recoverability.NoticeIsExact` | replication/lr/replica.cc:796-813 | the notice that dependencies are cleared is sent exactly when the last transaction waited for commits, and exactly to that transaction's primary coordinator |
| `Recoverability.NoticeGoesToLast` | replication/lr/replica.cc:804-810 | in every orderly run, of a transaction prepared while it waited exactly the primary coordinator of the last transaction it waited for has been told |
| `Recoverability.LastHasSameCoordinator` | replication/commit/coordinator.cc:292-317 | a transaction is decided only if, at every participant, it was prepared free of dependencies or the last transaction it waited for has the same primary coordinator |
| `Recoverability.StrandedForever` | replication/lr/replica.cc:796-813 | a transaction whose notice went to another coordinator is never decided in any continuation |
| `Recoverability.EntryStates` | replication/lr/replica.cc:822-823 | in every orderly run an entry whose position is its transaction's id is marked if and only if the transaction is committed, and any other only if the transaction numbered by the position is |
| `Recoverability.ReadsFromCommitted` | replication/lr/replica.cc:1045-1058 | when a transaction is decided, every transaction whose pre-committed writes it read at a participant has been committed there and is recorded as committed by its own primary coordinator |
| `Dependencies.ReleaseAllEffect` | replication/lr/replica.cc:796-818 | a counter drops by exactly the occurrences in the list |
| `Dependencies.NoticeExactlyAtLastCommit` | store/common/transaction.h:87-92 | the same for one leader in any state that keeps its books |
| `Dependencies.SecondPrepareConserves` | replication/lr/replica.cc:184-203 | after a second prepare that passes the counters are exact if and only if the transaction waits for nobody and no reading or active transaction waits for it |
| `Dependencies.SecondPrepareClearsEarly` | replication/lr/replica.cc:796-813 | the next commit of a transaction it waits for sends the notice, though it may wait for others |
| `Dependencies.CommitMarks` | replication/lr/replica.cc:822-823 | a commit marks the transaction's own entry if and only if its position is the transaction's id, and another's if and only if the log has one there |
| `OccGuarded.Serializability` | store/strongstore/occstore.cc:41-193 | in every run with pre-commits and reads of pre-committed writes, if the reads of transactions that pass validation still stand, commits come after the related transactions that were pre-committed before, aborts after the readers' and pre-commits once, then replaying the committed transactions one at a time in commit order on a plain map gives each exactly the values it was given and ends in the store's latest versions |
| `OccGuarded.PlainSerializability` | store/strongstore/occstore.cc:74-173 | in every run without pre-commits the same holds without any precaution |
| `OccSerializability.SerialExactly` | store/strongstore/occstore.cc:41-193 | with reads answered as the leader answers them, dependencies included, a run is serializable in commit order if and only if each transaction is committed while what it was given is what the latest versions say |
| `OccGuarded.NoPreCommitIsGuarded` | store/strongstore/occstore.cc:74-133 | where nothing is pre-committed the precautions hold by themselves |
| `OccSerializability.LateReaderRefused` | replication/lr/replica.cc:1039-1058 | a transaction that read a pre-committed write, with timestamp 0, is refused once the writer has committed |
| `OccRuns.ReadFromPreCommitted` | replication/lr/replica.cc:1043-1058 | a run in which a transaction reads from a pre-committed one, commits after it, violates no precaution and is serial |
| `OccRuns.DirtyReadCommits` | store/strongstore/occstore.cc:195-215 | a run that commits a transaction with the value of an aborted one, and is not serial |
| `OccPrecommits.ListsExactly` | store/common/backend/versionstore.cc:135-182 | the lists of pre-committed writers are exact in every state of a run if and only if no transaction that writes something leaves the pre-committed ones other than by its commit |
| `OccPrecommits.DeadWriterStays` | store/common/backend/versionstore.cc:50-67 | while a listed transaction is not committed, no read of the key is answered with a stored version |
| `OccPrecommits.AbortedIsListed` | store/strongstore/occstore.cc:195-215 | after pre-commit and abort the transaction is gone and still reported, its value served as empty if the leader has dropped it |
| `OccEffects.PrepareExactly` | store/strongstore/occstore.cc:74-133 | a transaction is accepted if and only if it is prepared already, or its reads are current and every prepared one is unrelated to it; a refusal leaves the prepared ones alone |
| `OccEffects.AbortForgets` | store/strongstore/occstore.cc:195-215 | after an abort the transaction cannot commit and validation no longer looks at it |
| `OccEffects.CommitExactly` | store/strongstore/occstore.cc:135-173 | a commit ends exactly its transaction, adds exactly one version to each key written and takes it off the keys' lists |
| `OccEffects.ReadBeforeAndAfter` | store/common/backend/versionstore.cc:50-67 | what a pre-committed transaction wrote is read from it until its commit, and as a stored version afterwards |
| `OccSerializability.LoadedKeysStay` | store/strongstore/server.cc:390-435 | if all commits are at time 0, a key with a version of time 0, as loaded keys have, never changes |
| `OccSerializability.SnapshotsAreReplays` | store/common/backend/versionstore.cc:69-83 | at every timestamp the store reads as the replay, in commit order, of just the transactions committed at or before it |
| `OccSerializability.ValidationIsExact` | store/strongstore/occstore.cc:84-127 | validation passes exactly the transactions whose reads are not older than the latest versions and which are unrelated to every prepared one |
| `OccSerializability.WriteTakesEffect` | store/common/backend/versionstore.cc:105-111 | a write becomes the latest version exactly if its timestamp exceeds the stored ones, or the same version is there |
| `OccRuns.PreCommitAllowsWriteSkew` | store/strongstore/occstore.cc:175-193 | a run of Gets, Prepares, a PreCommit and both Commits whose two transactions no serial order explains |
| `OccSerializability.SecondPreCommitLosesWrites` | store/strongstore/occstore.cc:175-193 | after a repeated pre-commit the commit changes no version |
| `VersionStore.InsertMembers` | store/common/backend/versionstore.h:33-47 | inserting a version adds exactly it, and nothing if its timestamp is taken |
| `VersionStore.AtTimeIsGreatest` | store/common/backend/versionstore.cc:17-29 | the version in force at a time is the greatest not above it |
| `OccStore.VersionedKVStore.GetAt` | store/common/backend/versionstore.cc:69-83 | the search finds the greatest version not above the time, or there is none |
| `OccStore.VersionedKVStore.Commit` | store/common/backend/versionstore.cc:152-182 | the erasing loop takes every occurrence of the transaction out of the list |
| `OccStore.OCCStore.GetPreparedWrites` | store/strongstore/occstore.cc:223-234 | exactly the keys that a prepared transaction writes |
| `OccStore.OCCStore.GetPreparedReadWrites` | store/strongstore/occstore.cc:236-250 | exactly the keys that a prepared transaction reads or writes |
| `OccStore.OCCStore.Prepare` | store/strongstore/occstore.cc:74-133 | refines the validation that the run theorems are about |
| `OccStore.OCCStore.Commit` | store/strongstore/occstore.cc:135-173 | the loop over the writes, in any order, is one simultaneous write |
| `OccStore.OCCStore.PreCommit` | store/strongstore/occstore.cc:176-193 | the loop over the keys, in any order, enters the transaction everywhere |
| `OccStore.OCCStore.Abort` | store/strongstore/occstore.cc:195-215 | one transaction is dropped and nothing else changes |
| `IrMerge.MergeIsComplete` | replication/ir/replica.cc:509-612 | with types agreed, the merged record has exactly the operations of the latest records, and Add never meets a duplicate |
| `IrMerge.MergeFinalizes` | replication/ir/replica.cc:592-611 | every consensus operation of the merged record is finalized, the merged ones with the application's result in the new view |
| `IrMerge.MergeKeepsSettled` | replication/ir/replica.cc:525-530 | an operation that some latest record has settled, a finalized result above all, is kept as the first record that settles it has it |
| `IrMerge.MergedExactly` | replication/ir/replica.cc:514-541 | what is left to merge are exactly the operations of the latest records that no record settles, each with all its entries |
| `IrMerge.MergedRequest` | replication/ir/replica.cc:592-605 | the entry of a merged operation has its id, the request and the type that the first latest record holding it has, the application's result and the new view |
| `IrMerge.RequestsAreKept` | replication/ir/replica.cc:509-612 | where the latest records agree on requests, the merged record has every operation of every record under its id, with its request and type |
| `IrMerge.GroupSays` | replication/ir/replica.cc:514-541 | an operation is kept if one entry settles it, and then nothing of it is left to merge; otherwise all its entries are |
| `IrFastPath.FastPathSurvives` | replication/ir/replica.cc:543-576 | if a fast quorum holds an operation with one result in view v, then in every view change from v the operation is kept finalized or goes into d with that result, the only one to reach the threshold |
| `IrFastPath.QuorumArithmetic` | lib/configuration.cc:163-173 | a fast quorum and a quorum share a threshold of replicas, and the rest are too few for one |
| `IrReplica.FastPathSurvivesViewChange` | replication/ir/replica.cc:488-507 | the same for the records that a new leader collects from messages and itself |
| `IrReplica.IRReplica.CollectLatest` | replication/ir/replica.cc:488-507 | the records of the largest normal view, in order, its own last |
| `IrReplica.IRReplica.HandleProposeConsensus` | replication/ir/replica.cc:183-226 | a new operation is recorded tentative, a known one answered from the record |
| `IrReplica.IRReplica.HandleFinalizeConsensus` | replication/ir/replica.cc:228-262 | a known operation is finalized with the decided result |
| `IrReplica.GroupAll` | replication/ir/replica.cc:509-541 | the nested grouping loops, in any order within a record, compute the kept record and the groups |
| `IrReplica.FindMajority` | replication/ir/replica.cc:551-567 | a result at the threshold is found if there is one |
| `IrReplica.SplitGroups` | replication/ir/replica.cc:543-576 | d and u partition the groups, with a majority result for each operation of d and none for those of u |
| `IrReplica.AddMerged` | replication/ir/replica.cc:592-611 | what R has is kept, and per merge result one finalized entry is added, with the request and type of the group's first entry |
| `IrReplica.IRReplica.FinishMerge` | replication/ir/replica.cc:579-612 | the whole merged record, given the application's results: exactly the latest records' operations, consensus operations finalized, and every request that of the first record holding it, with none lost |
| `IrClientSpec.ReturnedIsBacked` | replication/ir/client.cc:261-549 | over every sequence of replies, confirmations and timers, a returned result rests on a fast quorum of equal answers in one view, or on a quorum of confirmations for the view in which it was found finalized or decided on a quorum of replies |
| `IrClientSpec.ReturnedOnce` | replication/ir/client.cc:307-311 | a returned result never changes |
| `IrClientSpec.OtherResultSent` | replication/ir/client.cc:184-205 | after a fast return another result is sent out for finalization if and only if the timer has fired and the decision on the first view with a quorum differs from the returned result |
| `IrClientSpec.TimerSends` | replication/ir/client.cc:198-204 | the timer does send that decision, whenever it fires after a fast return and before the end |
| `IrClientSpec.FastThenOther` | replication/ir/client.cc:184-205 | a run of three replicas in which A is returned, and A and then B are sent out |
| `IrClient.ConsensusRequest.HandleConsensusReply` | replication/ir/client.cc:449-501 | refines the step of the theorems above: the reply is filed, a finalized one decides, a quorum on the slow path decides by the application, a fast quorum returns |
| `IrClient.ConsensusRequest.TryFastPath` | replication/ir/client.cc:261-324 | the fast path is taken exactly if some result has a fast quorum, and returns such a result |
| `IrClient.ConsensusRequest.TransitionToSlowPath` | replication/ir/client.cc:184-205 | the first view with a quorum of replies is decided by the application's function of its counts, and the result sent out |
| `IrClient.ConsensusRequest.HandleConfirm` | replication/ir/client.cc:503-549 | a quorum of confirmations ends the request and, in the view of the decision and if nothing was returned, returns the decided result |
| `IrClientSpec.OneFastResult` | replication/ir/client.cc:277-313 | at most one result has a fast quorum, so the order of the search does not matter |
| `IrClient.FastResultSurvives` | replication/ir/client.cc:261-313 | a result the client has a fast quorum for is what every later merge from that view keeps or puts into d |
| `LockServer.Server.Merge` | lockserver/server.cc:140-215 | exactly the operations of d and u have a result: one of d succeeds if and only if its majority reply does, its key was free and no earlier one succeeded on it; an unsuccessful majority reply is kept, every other refusal says -1 for the key; and whoever is answered with success holds the lock, the other locks being those of before |
| `LockServer.GrantedExactly` | lockserver/server.cc:168-187 | an operation is granted exactly if its majority reply is a success, the key was free, and no earlier operation succeeded on it |
| `LockServer.MergeIsExclusive` | lockserver/server.cc:150-192 | at most one operation per key is granted |
| `LockServer.GrantedHolds` | lockserver/server.cc:173-178 | a granted key was free and ends with the granted client |
| `LockServer.LocksAfterMerge` | lockserver/server.cc:150-192 | a key is held after the merge exactly if it was held before, by the same client, or an operation on it was granted |
| `LockServer.MergeIsExact` | lockserver/server.cc:140-215 | the same of the specification, from the operations alone |
| `LockServer.OneSuccessPerKey` | lockserver/server.cc:150-192 | no two operations are answered with success for one key, and none for a key that was held |
| `JsonDiff.DiffPatch` | lib/nlohmann/json.hpp:4980-5110 | for all values, patching the source with the difference never throws and yields a value equal to the target; the difference is empty if and only if the values are equal, and has needed operations only |
| `JsonDiff.Diff` | lib/nlohmann/json.hpp:4980-5110 | wherever the source is found in a document, the operations turn it, and nothing else, into a value equal to the target; each replaces a value that differs and is not of the same shape, removes what only the source has, or adds what only the target has |
| `JsonDiff.DiffArrays` | lib/nlohmann/json.hpp:5004-5046 | the same for two arrays: changes to common elements, then removals from the end down, then the rest of the target appended |
| `JsonDiff.DiffObjects` | lib/nlohmann/json.hpp:5048-5088 | the same for two objects, with members visited in any order |
| `JsonDiff.TruncatesMore` | lib/nlohmann/json.hpp:5019-5031 | inserting each removal in front of those before it keeps every index valid |
| `JsonPatch.Document.PatchInPlace` | lib/nlohmann/json.hpp:4699-4966 | the loop applies the elements in order, or throws what the first failing one throws |
| `JsonPatch.AtPut` | lib/nlohmann/detail/json_pointer.hpp:421-464 | what is assigned at a location is found there, assigning again overwrites, assigning back changes nothing |
| `JsonPatch.ElementIsOp` | lib/nlohmann/json.hpp:4839-4965 | decoding an operation's object and applying it is applying the operation |
| `JsonPatch.EqualReflexive` | lib/nlohmann/json.hpp:3580-3649 | without NaN every value equals itself |
| `JsonOperations.AddExactly` | lib/nlohmann/json.hpp:4736-4801 | adding succeeds if and only if the parent is there and has the place; the value is then a member, or an element with those behind it moved up, and every other location reads as before |
| `JsonOperations.RemoveExactly` | lib/nlohmann/json.hpp:4803-4829 | removing takes exactly what is at the location, the elements behind it moving down; where there is nothing it throws, unless the parent is primitive, when it does nothing |
| `JsonOperations.RemoveThenAdd` | lib/nlohmann/json.hpp:4736-4829 | adding back what was removed restores the document |
| `JsonOperations.AddThenRemove` | lib/nlohmann/json.hpp:4736-4829 | removing what was added as something new restores the document |
| `JsonOperations.ReplaceExactly` | lib/nlohmann/json.hpp:4895-4900 | replacing is possible exactly where there is a value, is removing and adding, and changes nothing at other locations |
| `JsonOperations.MoveExactly` | lib/nlohmann/json.hpp:4902-4917 | a move is the removal at one location and the addition, to what is left, of the value that was there |
| `JsonOperations.MoveMember` | lib/nlohmann/json.hpp:4902-4917 | between objects: the value is at the new location, nothing at the old one, and every location that parts from both is as before |
| `JsonOperations.MoveToItself` | lib/nlohmann/json.hpp:4902-4917 | moving a value to where it is changes nothing |
| `JsonOperations.MoveIntoItself` | lib/nlohmann/json.hpp:4902-4917 | exactly when a move to a location inside the moved value succeeds |
| `JsonOperations.CopyExactly` | lib/nlohmann/json.hpp:4919-4932 | a copy is the addition of the value found, and fails exactly if there is none or it cannot be added |
| `JsonOperations.CopyMember` | lib/nlohmann/json.hpp:4919-4932 | into an object: the value is at both locations, nothing else differs, and a test for it passes |
| `JsonOperations.TestExactly` | lib/nlohmann/json.hpp:4934-4955 | a test passes, leaving the document alone, if and only if an equal value is at the location; it fails with 501 unless an index is ill-formed |
| `JsonOperations.PutElsewhere` | lib/nlohmann/detail/json_pointer.hpp:421-464 | an assignment changes nothing at locations that part from its own |
| `JsonOperations.IndexSpelledOnce` | lib/nlohmann/detail/json_pointer.hpp:213-249 | printing an index undoes reading it: an index has one spelling |
| `JsonPointer.ParseRender` | lib/nlohmann/detail/json_pointer.hpp:666-724 | splitting a rendered pointer gives the tokens back, whatever characters they hold |
| `JsonPointer.UnescapeEscape` | lib/nlohmann/detail/string_escape.hpp:49-69 | unescaping undoes escaping for every string |
| `JsonPointer.IndexOfToString` | lib/nlohmann/detail/json_pointer.hpp:213-249 | reading an array index undoes printing it |
| `TcpFraming.StreamFraming` | lib/tcptransport.cc:541-606 | with assertions or without, for every list of messages that may then be sent and every way of cutting their bytes into chunks, nothing fails, what is delivered is always a prefix of the list, and in the end it is all of it with an empty buffer |
| `TcpFraming.DrainInParts` | lib/tcptransport.cc:551-605 | for any bytes, taking them in two parts delivers the same messages and leaves the same buffer as taking them at once |
| `TcpFraming.FrameAccepted` | lib/tcptransport.cc:551-598 | with assertions a frame is taken if and only if its data is not empty and it is below the limit; without them every frame is |
| `TcpFraming.BuildFrame` | lib/tcptransport.cc:315-352 | the buffer, written field by field, is the frame |
| `TcpFraming.Receiver.Readable` | lib/tcptransport.cc:541-606 | the loop delivers and leaves what the recursive definition says |
| `UdpFragments.OnlySentIsDelivered` | lib/udptransport.cc:513-559 | for any sequence of sent packets, lost, repeated and reordered, the buffer holds a proper beginning of one sent message and every delivered message was sent |
| `UdpFragments.AssertsSmall` | lib/udptransport.cc:458-481 | a small message passes the assertions if and only if it has data |
| `UdpFragments.AssertsFragment` | lib/udptransport.cc:513-556 | a fragment passes them if and only if it is not of an older message than the one being put together and completes no message without data or of 2^31 bytes or more |
| `UdpFragments.InOrderDelivers` | lib/udptransport.cc:412-441 | the packets of one message in order deliver exactly it, whatever the buffer held of others |
| `UdpFragments.SendFragments` | lib/udptransport.cc:412-441 | the loop emits (len-1)/MAX+1 fragments, the ones the receiver is proved against |
| `UdpFragments.Transport.OnPacket` | lib/udptransport.cc:506-560 | one sender's buffer changes as the function says, the others' not at all |
| `Bytes.DecodeBodyBody` | lib/udptransport.cc:458-481 | decoding undoes the layout, with assertions exactly if there is data |
| `Latency.SumIsConcat` | lib/latency.cc:152-177 | the distribution of two sequences of samples is the sum of theirs, figure by figure and bucket by bucket, with their widths |
| `Latency.SumOfHistograms` | lib/latency.cc:152-177 | the sum of the histograms of two sequences of samples is the histogram of them all |
| `Latency.DistSays` | lib/latency.cc:79-91 | number, sum, extremes and magnitudes of the samples, modulo the width of the figures |
| `Latency.FindBucket` | lib/latency.cc:67-75 | the shifting loop finds the logarithm, rounded down |
| `Latency.Recorder.Add` | lib/latency.cc:79-91 | a histogram of samples becomes that of one more, unless the pool is used up |
| `Latency.Recorder.Sum` | lib/latency.cc:152-177 | the nested loops make the sum, and fail exactly if the types are too many or a new one has all counts wrapped to 0 |
| `Lookup3.HashLittle` | lib/lookup3.cc:125-295 | the alignment of the key chooses the path and not the result, whose mixing `HashMixing` fixes, and no byte behind the key matters |
| `Lookup3.Hash32` | lib/lookup3.cc:135-179 | the path by 32-bit words, with its masked reads beyond the end, computes the hash of the zero-padded key |
| `Lookup3.Hash16` | lib/lookup3.cc:203-248 | the path by 16-bit words computes the same |
| `Lookup3.Hash8` | lib/lookup3.cc:250-290 | the path by bytes computes the same |
| `HashMixing.UnmixMix` | lib/lookup3.cc:51-59 | mixing is undone by a function with its own rotations |
| `HashMixing.MixUnmix` | lib/lookup3.cc:51-59 | and undoes it, so that mixing is a bijection of states |
| `HashMixing.UnfinalFinal` | lib/lookup3.cc:86-95 | final mixing is undone by a function with its own rotations |
| `HashMixing.FinalUnfinal` | lib/lookup3.cc:86-95 | and undoes it |
| `HashMixing.BlocksStayApart` | lib/lookup3.cc:125-295 | keys of one length that differ in one block of twelve bytes leave different states |
| `HashMixing.StatesStayApart` | lib/lookup3.cc:125-295 | different states stay different, whatever key follows |
| `HashMixing.InitialValuesStayApart` | lib/lookup3.cc:125-132 | different initial values leave different states |
| `HashMixing.FourScoreHash` | lib/lookup3.cc:51-95 | the published hash of "Four score and seven years ago", 30 bytes over three blocks, is 0x17770551 |
| `HashMixing.EmptyKey` | lib/lookup3.cc:125-132 | the hash of the empty key is 0xdeadbeef plus the initial value |

## Left out

- View changes and recovery of Viewstamped Replication: nothing is proved here about agreement across views, either way; `LogTransfer` covers the log operations for any views.
- The hash chain of the replicated log: every log is constructed with it off.
- View change and crash recovery of Inconsistent Replication beyond the merge: proposals are accepted in any status, and a recovering replica reports an empty record.
- The state that a patch leaves behind when one of its operations throws: only the exception is modelled.
- JSON array indices beyond 64 bits, discarded values, and of the floating point numbers NaN, the infinities and the negative zero; comparing an integer with a floating point number is exact here, where the library rounds the integer first.
- HandleVote, HandleNotifyDecision, HandleRequestCommitResult, VoteForNext, CascadeAbort and HandleParallelModeCommit: legacy or incomplete paths; a client's abort of a prepared transaction is not an event of the runs.
- The SLOW, RC, FAST and CAROUSEL modes of replication/lr and the client's commit loop.
- Term and timestamp of a leader's log entries, the states other than COMMIT, and its clock: nothing on the parallel path reads them.
- The replicas' store behind the parallel commit protocol: its verdict on a transaction, and the dependency it reports for a key, are inputs of the events, constrained to transactions that are pre-committed there.
- Aliasing of heap objects: pending commits, pending transactions and fragments are values in their owner's map, which the source holds through one pointer each.
- LockServer::Sync: it takes a set difference of unordered sets, which std::set_difference does not define; `IrReplica.IRReplica.FinishMerge` takes the application's results as given.
- Protobuf encoding, sockets, timers' durations, logging, configuration files, SHA-1, random drops and command lines.
- Nesting, clocks, printing and files of the latency histograms; their types are in any order.
- LockStore, the TAPIR store, benchmarks and the Python and ycsb-t code.
- LrReplica.LRReplica.HandleRead: models what a read does to the dependency books; the reply to the client is `OccSpec.Serve`.
- LrReplica.LRReplica.HandleCommit: models a transaction that commits, not the ABORT state with its cascade, which only a client's abort brings about.
- LrReplica.LRReplica.HandleDecisionFromCoordinatorReplica: models the PREPARED state, the only one that is ever sent in the runs (`D2pcTheorems.PreCommitIsSound`).
- TcpFraming.StreamFraming: without assertions a received frame is copied to the stack, whose size is not modelled.
- UdpFragments.OnlySentIsDelivered: is about a build without assertions; where a packet that nobody sent would be read beyond its end, nothing is delivered.
