# A verified model of the quorum, the rollout engine and the cluster upkeep of bw

`bw` deploys software to a cluster of agents. A few agents form a quorum that
replicates a log of deploy events over Raft; the leader rolls a deployment out
with a pool of workers and a health monitor, and keeps the Raft configuration in
step with the cluster; agents exchange access grants by anti-entropy. This project
models those parts in Dafny 4.11 and proves what they guarantee.
`dafny verify dfyconfig.toml` checks everything.

| files | part |
|---|---|
| `Messages`, `Framing` | replicated messages, length-prefixed framing of snapshots |
| `DeployMachine`, `HistoryRing`, `Replica` | the deployment state machine, the bounded history, one replica |
| `Recovery`, `Slots`, `LogSystem`, `WriteAheadLog` | restoring, what a snapshot reads, every run of the log with its snapshots, the log updated in place |
| `Restarts`, `Overtaken` | what a snapshot says of a replica with any past, snapshots that a restore overtakes |
| `Rollout`, `RolloutRuns`, `RolloutAnswers`, `RolloutEnds`, `Worker`, `HealthMonitor`, `Partition` | workers and monitor as a step system, what it makes of the nodes' answers, one worker, the monitor's loops, sizing |
| `Membership`, `Convergence` | the leader's reconciliation of the Raft configuration, and when it comes to rest |
| `Grants`, `GrantSync` | grant storage, bloom filter, streams between agents |
| `Votes`, `Backoff` | the latest deployment by vote, retry delays |

## How the model is built

Code that mutates objects is a class whose methods are tied to functions on values;
code that several goroutines run is a step system with one action per atomic step,
and theorems quantify over every list of actions that can be taken. `Wire` carries
marshalling as a pair of functions of which only `Lawful` (unmarshalling undoes
marshalling) is assumed, and for overtaken snapshots `Proto` (no deploy command encodes
to nothing). The log's slice has a capacity, and places beyond its length hold nil
messages. `Message` is the type of messages whose tag and payload
agree and whose deploy commands are not ephemeral, as every constructor of the
program makes them. Calls to Raft, sinks, streams, visits and stores that can fail
get their outcome as a parameter, or by an arbitrary choice inside the method. The
fields of step systems that the program does not have (the uncompacted log, the fate
of a node) are marked in their datatypes.

Things the proofs turned up, each with an exact condition and an input that shows it:

- A replica restored from a snapshot and the one it was taken of can differ in what they
  refuse, and let a second Begin in (`RestoredAgreesIff`; `RestoredDisagrees`,
  `RestoredDisagreesAgain`).
- A reader that asks between the two writes of a Begin can be told "deploying" with no
  command, and crashes (`MidBeginCrash`; `MidBeginCrashes`).
- A snapshot cut between a frame's header and its non-empty payload is taken for a
  complete one (`DecodeAnyCut`, `RestoreTruncated`; `LosesMessageSilently`).
- A restore that comes between `Snapshot` and the reads of `Persist` makes the snapshot
  crash or write the wrong file (`OvertakenPersist`; `OvertakenCrash`, `WrongFile`).
- Refused entries leave no trace exactly when the transcoder that refuses comes before
  all transcoders with state, and only once (`RefusalIsNoOpIffGuardFirst`; inside it
  `GuardFirstNeeded`).
- A context that ends during a check, before three steps a task, can make the monitor
  return nil with tasks still open (`Run`, `Await`; `ReturnsNilTooEarly`).
- The leader's rounds never come to rest when a staging server is too many, or when
  candidates stand in each other's way, as two with swapped addresses do
  (`ConvergesIff`; `StagingBlocks`, `SwapBlocks`).
- A peer's grant replaces a held one exactly when the filter does not match it
  (`KeptIffMatched`; `Overriding`); a peer with a fingerprint in several storages sends
  the last one, though it looks up the first (`AgreesWithPeerIff`; `PeerDisagrees`).
- The order a map is gone through can decide which deployment is the latest
  (`WinnerIsUniqueIff`; `OrderCanMatter`).
- Jitter after a maximum can exceed it (`JitterAfterMaximum`; `MaximumExceeded`), and
  jitter panics on a small delay, and can on a large one with a multiplier above one
  (`DrawsEverywhereIff`, `JitteredExponentialIff`; `SmallScalePanics`,
  `LargeShareCanPanic`).

Where comments and code differ the code is modelled: `Restore` is said to discard all
previous state and keeps the transcoders' state; `cleanupPeers` is said to bail out
when a peer cannot be added and goes on to the removals; `ConstantPartitioner` is said
to return the smaller of two numbers and returns at least one; a partition of exactly
1.0, which its rules leave open, is a share of all nodes.

## Model

| member | source | states |
|---|---|---|
| Framing.LittleEndianRoundTrip | agent/quorum/transcoders.go:129-136 | the little-endian header gives back the length modulo the width of the header, for every length and width |
| Framing.FrameBytes | agent/quorum/transcoders.go:129-136 | every byte of a frame: eight for the length, least significant first, then the payload |
| Framing.RawOfFrame | agent/quorum/transcoders.go:169-184 | the front frame decodes to its payload and leaves what follows, whatever that is |
| Framing.RawOfCutFrame | agent/quorum/transcoders.go:169-184 | a frame cut short never decodes; the error is a plain end of file exactly at its start and right after its header |
| Framing.DecodeRaw | agent/quorum/transcoders.go:169-184 | the reader loop reads exactly one frame and consumes it, or reports why not |
| Framing.DecodeEvery | agent/quorum/transcoders.go:151-167 | the loop returns the messages and the error that decoding the whole stream gives |
| Framing.DecodeAnyCut | agent/quorum/transcoders.go:119-184 | every byte prefix of every encoding decodes to exactly the messages whose frames lie in it, with no error iff the cut is on a boundary or right after a non-empty frame's header |
| Framing.FirstIncompleteUnique | agent/quorum/transcoders.go:119-136 | the frame a cut falls in is determined by the cut |
| Framing.DecodeRoundTrip | agent/quorum/transcoders.go:119-167 | decoding what was encoded gives the same messages and no error |
| Framing.SameFrames | agent/quorum/transcoders.go:119-136 | two encodings are the same bytes iff they frame the same payloads |
| DeployMachine.Deployment.Decode | agent/quorum/deployment.go:46-81 | the three fields after a message, and that only a healthy Begin with the flag set is refused |
| DeployMachine.Deployment.Info | agent/quorum/deployment.go:83-99 | the response reflects the three fields, whose meaning InfoMeaning states |
| DeployMachine.InfoMeaning | agent/quorum/deployment.go:83-112 | after any mix of replayed and live messages the response says deploying iff the last accepted command is a live Begin, and names the last Begin no Done followed and the last Done |
| DeployMachine.StateIsFoldOfLog | agent/quorum/deployment.go:46-81 | after any healthy run the flag, the running and the last deploy are those read backwards off the accepted messages |
| DeployMachine.BeginsAreSeparated | agent/quorum/deployment.go:61-78 | between two accepted Begins of a healthy run an accepted command ends the first deploy |
| DeployMachine.FlagHasCommand | agent/quorum/deployment.go:61-78 | over every mix of replayed and live messages a set flag comes with a running command |
| DeployMachine.MixedIsFoldOfLog | agent/quorum/deployment.go:46-81 | after any mix of replayed and live messages the three fields are those read backwards off the accepted messages |
| DeployMachine.LatestNeverCrashes | agentutil/latest.go:115-131 | the reader of a response taken between two messages never dereferences nil, and sees an active deploy iff the flag is set and something was deployed |
| DeployMachine.LatestMeaning | agentutil/latest.go:115-131 | the reader is told of no deployment iff no Done was accepted, of the running one with its archive and options iff the last accepted command is a live Begin, and of the last Done's otherwise |
| DeployMachine.MidBeginCrash | agent/quorum/deployment.go:63-69 | after any mix of replayed and live messages a response taken between the flag and the command of a Begin crashes its reader iff the accepted messages have a Done with no Begin after it |
| DeployMachine.MidBeginCrashes | agent/quorum/deployment.go:63-69 | it does after a single Done, live or replayed |
| DeployMachine.RestartIsNeverRefused | agent/quorum/deployment.go:163-202 | the Restart, Cancel, Begin a new leader writes are accepted in every state and make all replicas agree on flag and running command |
| DeployMachine.RecoveryAcceptsAll | agent/quorum/deployment.go:61-69 | replaying refuses nothing |
| DeployMachine.ReplayFresh | agent/quorum/deployment.go:61-78 | replayed into a fresh machine a log gives back everything but the flag |
| DeployMachine.ReplayAnywhere | agent/quorum/deployment.go:61-78 | a replayed log with a Done in it overrides whatever state was there |
| HistoryRing.LogBuffer.Reset | agent/quorum/history.go:64-69 | an empty ring of the same size |
| HistoryRing.LogBuffer.Add | agent/quorum/history.go:71-80 | the ring holds the last messages, the oldest dropped when full |
| HistoryRing.LogBuffer.Snapshot | agent/quorum/history.go:82-107 | the walk around the ring returns the contents, oldest first |
| HistoryRing.History.Decode | agent/quorum/history.go:25-44 | hidden messages are ignored, a Begin empties the ring first |
| HistoryRing.RingIsSuffix | agent/quorum/history.go:25-107 | after any messages the history is the last 128 of the visible ones since the last visible Begin, in order |
| HistoryRing.RingSize | agent/quorum/history.go:13-17 | the history has as many messages as are visible since then, up to 128, and exactly the last 128 of more |
| HistoryRing.BeginForgets | agent/quorum/history.go:30-44 | after a visible Begin two histories agree whatever they were |
| Replica.RefusalIsNoOpIffGuardFirst | agent/quorum/transcoders.go:59-69 | for any list of transcoders: refused messages leave no trace iff only stateless ones precede one that refuses |
| Replica.PipelineMeaning | agent/quorum/quorum.go:71-79 | the quorum's transcoders refuse what the deployment refuses, and otherwise update deployment and history once each |
| Replica.RefusedEntryIsNoOp | agent/quorum/wal.go:66-89 | a refused entry leaves deployment, history and log unchanged in every state |
| Replica.AbsorbAllMeaning | agent/quorum/wal.go:66-89 | after any run the log has grown by the accepted durable messages and the history by the accepted ones |
| Replica.DoneSynchronises | agent/quorum/deployment.go:70-78 | two replicas in any states agree after a common Done on every common suffix, and on the history after the next accepted visible Begin |
| Replica.LastDeployMeaning | agent/quorum/wal.go:162-169 | the place compaction keeps from is a deploy command unless there is none, and none follows it |
| Replica.KeepFromLater | agent/quorum/wal.go:162-176 | compacting a log already cut at a deploy command keeps the same messages |
| Replica.KeepIdempotent | agent/quorum/wal.go:162-176 | compacting what was kept keeps all of it |
| Replica.FlagAfterReplay | agent/quorum/deployment.go:61-78 | replaying what a snapshot keeps into any state leaves the flag alone unless the last command is other than a Begin |
| Recovery.ReplayIsDecodeThenAbsorb | agent/quorum/wal.go:130-137 | the replay loop equals decoding the stream and absorbing its messages, for any bytes and any node |
| Recovery.RestoreSucceeds | agent/quorum/wal.go:104-138 | restoring a snapshot succeeds on every node, flag set or not; its messages are then the log, and the transcoders have replayed them |
| Recovery.BadVersion | agent/quorum/wal.go:118-128 | bytes that begin with any frame that is no version message are refused, the log is then empty and the transcoders have seen nothing |
| Recovery.NoVersion | agent/quorum/wal.go:118-128 | so are no bytes at all, with an end of file |
| Recovery.RestoreTruncated | agent/quorum/wal.go:104-138 | restoring a snapshot cut at any byte: which messages are in the log, and exactly when there is an error |
| Recovery.LosesMessageSilently | agent/quorum/wal.go:130-137 | a one-message snapshot cut after the header of its frame restores without error and without the message |
| Slots.LastDeployAtMeaning | agent/quorum/wal.go:162-169 | the mark is at a deploy command unless there is none, and none follows, nil messages included |
| Slots.WithinLength | agent/quorum/wal.go:162-169 | up to the length of the log the mark is that of its messages |
| Slots.RightBytesIff | agent/quorum/wal.go:171-180 | what was written is the snapshot of some messages iff each place written holds its message, or nil where that encodes to nothing |
| Slots.BytesPastEnd | agent/quorum/wal.go:171-180 | reading on past the end of the log encodes its messages and eight zero bytes for each place there |
| LogSystem.ActionKeeps | agent/quorum/wal.go:51-195 | each step of applying, snapshotting, persisting, releasing and restoring, in any order, keeps the tie between the log in memory, its capacity, the uncompacted log, and what sink and files hold |
| LogSystem.ReleaseCompacts | agent/quorum/wal.go:140-195 | in every reachable state, releasing a scanned snapshot that is the latest leaves in memory exactly the log it was taken of from its last deploy command on and what came since; releasing any other drops nothing; nothing else changes |
| LogSystem.MemoryIsCompacted | agent/quorum/wal.go:140-195 | and so it is in every run until the next release or restore, whatever is appended |
| LogSystem.ReleaseUnwritten | agent/quorum/wal.go:191-195 | after any run a snapshot taken and released without Persist only raises the counter |
| LogSystem.SharedIsArray | agent/quorum/wal.go:82-88 | in every run what a snapshot has still to write is what the array behind the log holds there now, entries appended in place included, until the log moves to another array |
| LogSystem.FilesAreCloses | agent/quorum/wal.go:187-187 | in every run there are as many files as sinks that closed without an error |
| LogSystem.CompactionIsInvisible | agent/quorum/wal.go:97-195 | in every interleaving, with failing sinks and restores at any time, every file whose snapshot no restore overtook holds the uncompacted log at its Snapshot from the last deploy command on, and only an overtaken one can slice beyond the capacity |
| LogSystem.FilesAreOfSnapshots | agent/quorum/wal.go:97-99 | the log a file is written from is the uncompacted log at one Snapshot of the run |
| LogSystem.FullIsAcceptedLog | agent/quorum/wal.go:66-89 | without restores the uncompacted log is every accepted durable message, and transcoders are as if there were no snapshots |
| LogSystem.WrittenFilesRestore | agent/quorum/wal.go:104-188 | any such file of any run restores on any node, and a snapshot of the restored log is the same file |
| Overtaken.FileIsRightIff | agent/quorum/wal.go:154-188 | any file of any run, overtaken or not, is the right one iff the places written match the messages to be kept |
| Overtaken.OvertakenPersist | agent/quorum/wal.go:118-188 | when a restore comes at any point before Persist has read the log, then in everything that follows but another restore (entries only if the restored log reaches as far as the snapshot marked) a crash means more places were marked than the new array has, and every file of an overtaken snapshot is right iff the restored log has the messages to be kept in the places where the old log had them |
| Overtaken.OvertakenGoesOn | agent/quorum/wal.go:154-188 | Persist can go on to its end: it crashes iff too many places were marked and writes a file if not |
| Overtaken.EverySnapshotCompacts | agent/quorum/wal.go:154-195 | from every state of every run with a snapshot no restore came after, it can be finished and released, and the log in memory is then what was to be kept and what came since |
| Overtaken.EntriesDoNotWait | agent/quorum/wal.go:91-96 | an entry can be applied wherever such a snapshot is, and the same holds after it |
| Overtaken.WrongFile | agent/quorum/wal.go:118-188 | a Begin, a snapshot and the restore of an empty one give a file with a nil message instead of the Begin |
| Overtaken.OvertakenCrash | agent/quorum/wal.go:118-162 | with more than 128 messages in memory the same restore makes Persist crash |
| Restarts.RunIsAccounted | agent/quorum/wal.go:51-138 | in every run with restores the deployment is what all messages handled make of it, and the uncompacted log is the durable ones accepted since the last restore began |
| Restarts.LastInMemory | agent/quorum/wal.go:140-195 | the last command in memory, if any, is the last the replica ever accepted |
| Restarts.SnapshotKeeps | agent/quorum/wal.go:154-188 | for each field of the deployment, exactly when a fresh replica restored from the snapshot has it right, whatever the live one went through, restores included |
| Restarts.RestoredAgreesIff | agent/quorum/wal.go:104-188 | a replica in any state, restored from a snapshot, and the live one refuse the same messages of every continuation iff the live flag, read off its messages, is set just if the other's was and the snapshot does not clear it |
| Restarts.RestoredDisagrees | agent/quorum/deployment.go:61-69 | after one Begin a fresh replica restored from the snapshot disagrees |
| Restarts.RestoredDisagreesAgain | agent/quorum/deployment.go:61-69 | it also does when the live one has since restored an empty snapshot |
| WriteAheadLog.EncodeTo | agent/quorum/transcoders.go:119-127 | leaves the sink with as much of the encoding as it has room for, and succeeds iff that is all |
| WriteAheadLog.Wal.constructor | agent/quorum/wal.go:24-32 | a new log is empty, healthy, with fresh transcoders |
| WriteAheadLog.Wal.Transcode | agent/quorum/transcoders.go:59-69 | the loop over the transcoders stops at the first refusal with the state and answer of passing them in order |
| WriteAheadLog.Wal.Decode | agent/quorum/wal.go:66-89 | the node after a command, and the error for one that does not unmarshal or is refused |
| WriteAheadLog.Wal.Apply | agent/quorum/wal.go:51-64 | barriers and no-ops change nothing, an error means nothing changed and comes exactly for what does not unmarshal or is refused; each does what the matching action of LogSystem does |
| WriteAheadLog.Wal.Snapshot | agent/quorum/wal.go:97-99 | bumps the counter and marks the present length of the log, as the action of LogSystem does |
| WriteAheadLog.Wal.Restore | agent/quorum/wal.go:104-138 | the node and the error after restoring from any bytes, a capacity of 128 until more is needed, that it is healthy again afterwards, and that the action of LogSystem does the same |
| WriteAheadLog.Wal.StartOver | agent/quorum/wal.go:118-137 | the reset, the version message and the replay |
| WriteAheadLog.Wal.ReplayFrom | agent/quorum/wal.go:130-137 | the loop over the remaining frames |
| WriteAheadLog.Wal.Advance | agent/quorum/wal.go:140-144 | drops so many messages from the front of the log |
| WriteAheadLog.WalSnapshot.Persist | agent/quorum/wal.go:154-188 | panics iff its mark is beyond the capacity; else marks the last deploy command, leaves as much of the places from there as the sink has room for, and succeeds iff that is all and the sink closes; up to the length of the log that is its messages; its mark and its panic are those of LogSystem |
| WriteAheadLog.WalSnapshot.Release | agent/quorum/wal.go:191-195 | drops the messages before the mark, and their places, only if no other snapshot or restore came after; else nothing changes; log and capacity are those LogSystem ends up with |
| Worker.Work | deployment/deploy.go:189-206 | one worker among others counts every operation exactly once, as failed if it ran and broke and as completed otherwise, skipped ones included |
| Worker.RunsMeaning | deployment/deploy.go:191-198 | the operations it runs are those before the first check that sees a failure, or all if failures are ignored; unless they are, it breaks at most one, and runs none if there was a failure before |
| Rollout.WorkKeeps | deployment/deploy.go:189-248 | every step of every worker keeps ownership, counters, fail-fast and the meaning of done channels; RolloutAnswers ties the steps to what nodes answer |
| Rollout.WatchKeeps | deployment/deploy.monitors.go:104-181 | every step of the monitor and its checkers keeps them too |
| RolloutRuns.Conservation | deployment/deploy.go:189-248 | in every run completed, failed and in-hand operations add up to those taken, visited unresolved nodes never exceed the workers, no done channel is closed twice |
| RolloutRuns.FailuresAtMostWorkers | deployment/deploy.go:189-206 | unless failures are ignored each worker fails at most once, so at most as many failures as workers |
| RolloutRuns.NoVisitAfterFailure | deployment/deploy.go:192-196 | once a failure is counted no further node is told to deploy, for the rest of every run |
| RolloutRuns.DoneIsFinal | deployment/deploy.go:358-368 | a closed done channel keeps its one value in every continuation |
| RolloutRuns.ChecksAtMostCpus | deployment/deploy.monitors.go:183-213 | in every run no more tasks are checked at once than there are checkers |
| RolloutRuns.Outcome | deployment/deploy.go:259-322 | when the monitor returns every node is counted and every received task resolved; no failure is counted iff every node was told and closed without error, and if failures are ignored those counted are exactly the other nodes |
| RolloutAnswers.WorkRemembers | deployment/deploy.go:216-239 | whatever a worker does, errors and successes in its hands or counted are those heard of the node |
| RolloutAnswers.WatchRemembers | deployment/deploy.monitors.go:143-181 | whatever monitor and checkers do, a done channel is closed empty iff its node completed or left, and with an error iff a check said it failed |
| RolloutAnswers.CountedAsAnswered | deployment/deploy.go:189-239 | at every moment of every run a node counted as failed gave an error when told, or accepted and failed; one counted as a success accepted and completed or left; one skipped was never heard of |
| RolloutAnswers.OutcomeIsAnswers | deployment/deploy.go:189-239 | when the monitor has returned the failures counted are exactly the nodes that gave an error or failed, and the nodes deployed to exactly those that accepted and completed or left |
| RolloutAnswers.Report | deployment/deploy.go:208-212 | success is reported iff failures are ignored or every node accepted and completed or left; the number reported is that of the nodes that gave an error or failed, and at most that of the workers unless failures are ignored |
| RolloutEnds.BoundedWork | deployment/deploy.go:189-248 | under every schedule the workers take at most eight steps a node and one each |
| RolloutEnds.PassIsBounded | deployment/deploy.monitors.go:215-238 | under every schedule a pass checks each outstanding task at most once, and every one by the time it can end |
| RolloutEnds.EveryRunCanFinish | deployment/deploy.go:297-321 | from every reachable state there is a way to the end: workers, monitor and checkers cannot block each other |
| HealthMonitor.Healthcheck | deployment/deploy.go:336-369 | a task is resolved iff completed or failed, carrying an error iff failed |
| HealthMonitor.Run | deployment/deploy.monitors.go:205-238 | for any answers of the nodes and in any order the pass ends without blocking and splits the tasks, as multisets, into open ones of nodes not done that come back, ones closed as their nodes answered, with an error iff they failed, and lost ones; it takes three steps a task, so a context that ends later loses none, one that ends earlier loses some if no node was done, and how many are lost is bounded both ways by the steps missing |
| HealthMonitor.DropDeparted | deployment/deploy.monitors.go:164-181 | exactly the tasks of departed nodes are closed, without error, and dropped |
| HealthMonitor.CheckAndDrop | deployment/deploy.monitors.go:148-149 | every task not lost is as its node's answer, or its departure, makes it: open, closed empty or closed with an error; exactly the open ones remain; none is lost unless the check was cut short |
| HealthMonitor.CutOrNot | deployment/deploy.monitors.go:143-157 | as long as no node is done or departs, either no check was cut short or one was in that silence |
| HealthMonitor.Watch.Handle | deployment/deploy.monitors.go:131-160 | one turn of the loop: what was received, who departed, whether the queue is open, what a check makes of each outstanding task, and exactly when it returns nil or an error |
| HealthMonitor.Await | deployment/deploy.monitors.go:130-161 | for any events, if no check was cut short, every task received is closed, empty or with an error, or open, as the first check since it arrived in which its node was done or had departed says, and nil is returned exactly at the first check that finds the queue closed and leaves no task open; an error is returned iff cancelled; nil after a check cut short before any node was done or departed leaves a task open |
| HealthMonitor.ReturnsNilTooEarly | deployment/deploy.monitors.go:148-157 | for any tasks, a context that ends at any point of the last check makes the loop return nil at the next one at the latest with a task still open |
| Partition.SizeBounds | partition.go:41-53 | at least one worker and at most as many as nodes, or one |
| Partition.FromRealMeaning | partition.go:14-53 | what a number up to zero, up to one and above one means for the size; one too large for an integer means all nodes iff the machine converts it to enough |
| Partition.SizedRollout | deployment/deploy.go:266-270 | with any partitioner a rollout can finish and at most max(1, nodes) nodes fail |
| Partition.ApplyFilter | deployment/deploy.go:325-334 | the matching peers, in order |
| Membership.AddVoterVoters | vendor/github.com/hashicorp/raft/configuration.go:235-255 | adding a voter adds exactly it to the voters and keeps ids distinct |
| Membership.DemoteVoters | vendor/github.com/hashicorp/raft/configuration.go:277-283 | demoting takes exactly that server's vote away |
| Membership.RemoveVoters | vendor/github.com/hashicorp/raft/configuration.go:284-290 | removing a server without a vote leaves the voters alone |
| Membership.StaysInOrder | vendor/github.com/hashicorp/raft/configuration.go:196-226 | whatever is asked for and however it goes, a configuration in order stays so, with distinct servers and a voter |
| Membership.MajoritiesIntersect | clustering/raftutil/leader.go:75-118 | majorities of voter sets one server apart have a server in common |
| Membership.RoundIsSafe | clustering/raftutil/leader.go:41-122 | whatever fails in a round, each change moves at most one voter and the leader stays a voter |
| Membership.EvictionTargets | clustering/raftutil/leader.go:95-118 | servers are removed only without a vote and demoted only with one, never the leader |
| Membership.RunKeepsQuorums | clustering/raftutil/leader.go:41-122 | over every run of rounds with changing candidates and failures, majorities of successive configurations meet |
| Membership.StableMeansReconciled | clustering/raftutil/leader.go:41-122 | after a stable round, whatever the calls did, there is no server but the candidates and the leader, and all candidates with an address vote |
| Membership.ReconciledExactly | clustering/raftutil/leader.go:75-93 | servers and voters are then exactly the candidates and the leader, if every candidate has an address |
| Membership.StagingBlocks | clustering/raftutil/leader.go:100-117 | a staging server that is no candidate survives every round and makes it unstable |
| Convergence.AddWorks | clustering/raftutil/leader.go:88-92 | an addition that gets through succeeds iff id and address are not empty and no other server has the address; what it does to the addresses |
| Convergence.StuckForGood | clustering/raftutil/leader.go:75-118 | candidates whose addresses are held by servers that stay put, or by each other, stay so after any round, whatever the calls do |
| Convergence.HopelessForGood | clustering/raftutil/leader.go:41-122 | once something stands in the way (a candidate that cannot be added, two that want one address, a staging server too many, stuck candidates) no round is stable, whatever the calls do, and it stands in the way of the next too |
| Convergence.HopefulRound | clustering/raftutil/leader.go:41-122 | if nothing does and calls get through, that stays so, a round is unstable while a server is too many, and each unstable round leaves less to do |
| Convergence.Converges | clustering/raftutil/leader.go:41-122 | then the first stable round comes after at least the steps to get rid of the servers too many and at most one more for each candidate not at its address, and leaves the configuration reconciled |
| Convergence.ConvergesIff | clustering/raftutil/leader.go:41-122 | with fixed candidates and calls that get through, some round is stable iff nothing stands in the way at the start |
| Convergence.FreeAddressesSuffice | clustering/raftutil/leader.go:75-118 | addresses that servers too many still have do no harm: nothing stands in the way if no server that stays has an address another candidate wants |
| Convergence.SwapBlocks | clustering/raftutil/leader.go:88-92 | two candidates whose addresses are swapped in the configuration stand in each other's way |
| Membership.CleanupPeers | clustering/raftutil/leader.go:41-122 | the loops leave the configuration and the answer of the round function |
| Membership.RemovePeer | clustering/raftutil/leader.go:134-144 | the peers left are exactly those with another id |
| Grants.Memory.Insert | notary/memory.go:51-59 | stores the grant with its defaults under its fingerprint |
| Grants.SyncStorage | notary/memory.go:74-91 | in any order sends grants the filter does not match, none twice, and all of them unless cancelled |
| Grants.SyncAll | notary/composite.go:76-100 | every storage is attempted, and without errors each sends all it should |
| Grants.LookupInMeaning | notary/composite.go:30-42 | found iff some bucket has it, as the first that does |
| Grants.CompositeStorage.Find | notary/composite.go:30-42 | the loop finds what scanning primary and buckets in order finds |
| Grants.CompositeStorage.Insert | notary/composite.go:102-105 | the grant is what its fingerprint looks up from then on, and no other fingerprint is affected; it is stored under its fingerprint or, without one, its digest, with its authorization, and with no permissions unless it has some |
| Grants.CompositeStorage.Delete | notary/composite.go:107-110 | the fingerprint then looks up what the buckets have for it, no other is affected, and a grant the primary had is returned |
| Grants.CompositeStorage.InsertThenDelete | notary/composite.go:102-110 | deleting undoes inserting for every lookup, unless the primary had the fingerprint |
| Grants.EnumeratedIsFound | notary/composite.go:89-100 | whatever is gone through can be looked up, and if every storage can be enumerated the other way round |
| Grants.FoundNotEnumerated | notary/composite.go:95-97 | a grant in a bucket that cannot be enumerated is found and never gone through |
| Grants.Bloomfilter | notary/composite.go:45-74 | under any interleaving of tests and additions the filter covers every fingerprint met and not given up at the end of the context, and sets no other bits; unless the enumeration fails, which is reported, that is every one that can be enumerated |
| GrantSync.StreamGrants | notary/sync.go:96-137 | batches of at most 100, all but the last full; a good stream sends exactly what was produced, a bad one a prefix, which misses no more than the 200 the channel holds if every send succeeded |
| GrantSync.Sync | notary/sync.go:29-54 | what is stored and added to the filter is a prefix of what arrives, all of it on success |
| GrantSync.SyncPeer | daemons/notary.sync.go:26-59 | a request from end to end stores a part, from the front, of what the peer produced, and all of it if nothing fails |
| GrantSync.VisitKeeps | notary/sync.go:40-50 | a visit, broken off or not, changes nothing the filter matched and the filter goes on covering the primary |
| GrantSync.VisitBrings | notary/sync.go:29-54 | a complete visit brings every fingerprint of the peer the filter did not match, with the grant of the last storage of the peer that has it |
| GrantSync.VisitDecides | notary/sync.go:29-54 | after a complete visit every fingerprint looks up what the peer sent last for it, if unmatched and enumerated, and what it did before otherwise |
| GrantSync.AgreesWithPeerIff | notary/composite.go:79-100 | after a complete visit client and peer look up the same grant iff, for a fingerprint sent, the last storage the peer enumerates agrees with the first it looks up, and for the others iff they agreed before; buckets that cannot be enumerated included |
| GrantSync.SendsWhatIsEnumerated | notary/composite.go:79-100 | a peer has something to send for a fingerprint iff its own filter goes through it |
| GrantSync.PeerDisagrees | notary/composite.go:79-100 | they disagree on a fingerprint for which the peer has two different grants |
| GrantSync.VisitPeer | daemons/notary.sync.go:26-59 | enumeration, stream and storing together are a visit, and a complete one if it ends well |
| GrantSync.SyncAuthorizations | daemons/notary.sync.go:15-66 | the filter covers the storages, each peer is visited with the filter as it then is, and the storage ends up with what the visits bring; nothing happens if the filter fails |
| GrantSync.LoopKeeps | daemons/notary.sync.go:61-65 | over the whole peer loop fingerprints matched at the start keep their grant |
| GrantSync.LoopBrings | daemons/notary.sync.go:61-65 | each fingerprint of a peer whose visit completed was matched in that request or is held at the end as that peer sent it last |
| GrantSync.LoopBringsEach | daemons/notary.sync.go:61-65 | each fingerprint of each peer whose visit ended well was matched in that request or is held at the end as that peer sent it last |
| GrantSync.LookupsKept | daemons/notary.sync.go:21-65 | with a filter that covers the storages every one of their fingerprints looks up the same after the loop |
| GrantSync.KeptIffMatched | daemons/notary.sync.go:21-65 | a held fingerprint keeps its grant against all peers iff the filter matches it |
| GrantSync.Overriding | daemons/notary.sync.go:21-65 | a peer whose grant replaces a held one the filter does not match |
| Votes.AgentLatestMeaning | agentutil/latest.go:159-170 | an agent's latest is its first completed deployment, none iff there is none |
| Votes.QuorumIsHalf | agentutil/latest.go:83-89 | the ratio test is that twice the votes reach the number of other nodes |
| Votes.StoppedMeaning | agentutil/operation.go:40-50 | the first node that cannot be asked, or whose latest deployment has no archive, stops the counting |
| Votes.CountAnswer | agentutil/latest.go:29-51 | the tallies after one more answer are the counts of all answers and the deployments as last reported, unless it stops the counting |
| Votes.CountAll | agentutil/latest.go:28-55 | the tallies are the counts of all answers with the deployments as last reported, or the first stop is returned |
| Votes.LastVoteMeaning | agentutil/latest.go:29-51 | a deployment as last reported is the latest of an agent, and no agent asked later reports it; there is one iff it has a vote |
| Votes.PickMeaning | agentutil/latest.go:57-62 | any order of the tallies leads to one that none exceeds |
| Votes.Winner | agentutil/latest.go:57-62 | the loop over the map chooses what some order of its keys leads to |
| Votes.DetermineLatest | agentutil/latest.go:18-89 | exactly when there is no error and exactly which error otherwise, a missing archive's crash included; an error-free result is the deployment as the last agent that has it reports it, with maximal votes and at least half of the others |
| Votes.MajorityWins | agentutil/latest.go:57-89 | a deployment over half of all nodes report meets the quorum and beats every other |
| Votes.MajorityIsReturned | agentutil/latest.go:18-81 | and is always returned without error |
| Votes.OrderIsIrrelevantIff | agentutil/latest.go:57-62 | all orders of the tallies lead to the same choice iff there are none or one is larger than every other |
| Votes.WinnerIsUniqueIff | agentutil/latest.go:28-62 | when anything is reported, all orders give the same deployment iff one is reported more often than every other |
| Votes.OrderCanMatter | agentutil/latest.go:57-62 | two nodes with different deployments are enough for the order to matter |
| Backoff.ExponentialIsExact | backoff/backoff.go:78-94 | for every attempt and non-zero scale the 64-bit computation equals the exact exponential cut at the largest duration |
| Backoff.ExponentialGrows | backoff/backoff.go:78-94 | it is positive and never shrinks |
| Backoff.JitterNeverLowers | backoff/backoff.go:34-49 | jitter never lowers a delay of any sign, even when the sum wraps around, and what it gives |
| Backoff.DrawsIff | backoff/backoff.go:36-47 | on a given machine there is a jittered delay iff the converted share leaves something to choose from |
| Backoff.DrawsEverywhereIff | backoff/backoff.go:36-47 | there is one on every machine iff the share is a positive 64-bit integer, and none does worse than one that converts all else to the smallest integer |
| Backoff.HasDelay | backoff/backoff.go:21-57 | a strategy built with any options that cannot panic on a machine has a delay there |
| Backoff.DelaysBetween | backoff/backoff.go:78-94 | the delays of an exponential strategy are the largest duration or lie between its scale and the last doubling below that |
| Backoff.JitteredExponentialIff | backoff/backoff.go:34-94 | jittered exponential delays panic at no attempt on any machine iff the share of the first delay is positive and that of the last doubling a 64-bit integer, or every delay is the largest duration; otherwise they do where the smallest integer comes of what is none |
| Backoff.SmallScalePanics | backoff/backoff.go:42-46 | a scale of one and a multiplier of a half panic at the first attempt on every machine |
| Backoff.LargeShareCanPanic | backoff/backoff.go:42-46 | a scale of a second and a multiplier of two can panic at attempt 33 |
| Backoff.JitterDelay | backoff/backoff.go:36-47 | the closure returns the larger of the delay and the wrapped sum |
| Backoff.DurationMax | internal/timex/timex.go:32-40 | the largest of the durations and zero |
| Backoff.ScaledMeaning | backoff/backoff.go:85-93 | testing the two words of the 128-bit product is testing the product against the largest duration |
| Backoff.New | backoff/backoff.go:51-57 | the options are applied in order |
| Backoff.BuildWithin | backoff/backoff.go:21-57 | on any machine delays of a strategy with any options stay within the bounds the options make together |
| Backoff.MaximumLast | backoff/backoff.go:21-31 | with the maximum last no delay exceeds it |
| Backoff.JitterAfterMaximum | backoff/backoff.go:21-49 | for any strategy, maximum, multiplier and machine, with jitter after it the maximum can be exceeded iff the converted share of some delay cut at it reaches beyond it |
| Backoff.MaximumExceeded | backoff/backoff.go:21-49 | a delay of 10 with a maximum of 10 and half as much jitter exceeds it |

## Left out

- Raft itself, gossip, rendezvous hashing, gRPC, TLS, ACME, tokens and request authorization: foreign or cryptographic code.
- The deployment coordinator on each agent, archives, directives, terminal output and commands: file system and display.
- Protocol buffer encodings: marshalling is a pair of functions that does not fail; memory for the length in a corrupt header is taken to be there.
- Messages whose tag and payload disagree: the history would dereference nil on them; no constructor of messages makes them.
- Observer, logging and leadership-transfer transcoders: they refuse nothing and touch none of the modelled state, and no transcoder writes to a snapshot.
- WriteAheadLog.Wal.Snapshot: the 64-bit snapshot counter does not wrap around.
- Overtaken.OvertakenPersist: entries that fill places the snapshot marked beyond the restored log are left out; FileIsRightIff still says when the file is right. The first loop of Persist reads the log in one step.
- Rollout.WorkKeeps: goroutines are steps on values, not objects updated in place; timeouts, cancellation, progress events and the wait for ready nodes before the rollout are left out.
- HealthMonitor.Run: what a checker still does with a lost task after the pass was cancelled is left out.
- Convergence.ConvergesIff: candidates are taken to have different names, as the members of a cluster do.
- Votes.QuorumIsHalf: ratios are real numbers, without rounding.
- Partition.SizeBounds: products of floats are real numbers, without rounding, NaN or infinities.
- Grants.Bloomfilter: the filter is a set of positions with an arbitrary hash, and each test and addition is atomic; its size and false-positive rate play no part.
- Directory storage of grants: only the memory storage is modelled.
- Backoff.DrawsIff: products of floats are real numbers; what a share that is no 64-bit integer converts to is a parameter.
- Explicit backoff, message routing, peer discovery and the muxer: easier loops than those above.
