# The hibernation protocol, verified

A node hibernator watches one blockchain client (and its privacy manager) and stops both when nobody uses them.
The hibernators of a network decide this independently, with no coordinator, and consensus has to survive it.
This project models how they decide, and proves when that is safe. Run `dafny verify dfyconfig.toml`.

The model has four layers; the last three modules of the list join them.

* **Consensus checks** (`Istanbul`, `GoQuorumClique`, `BesuClique`, `Raft`, `Rotation`, `Quorum`). The loops of the
  four `ValidateShutdown` functions, proved to count a set that is defined without them; what that set has to do with
  the members that are really silent; and, for members that take turns, after how many blocks a member that stopped is
  counted.
* **One hibernator** (`Process`, `NodeMachine`, `NodeControl`, `Activity`, `Controller`). Process control with its
  retry loops; stopping and starting the client as a machine of atomic steps under one mutex, with upchecks of other
  threads in between; the classes whose methods go through those steps; the inactivity counter; the threads and the
  channels on which they can block.
* **Peers** (`Peers`, `Gather`). The peers list, its reloading, and the concurrent calls to all peers through a channel
  of capacity one.
* **The network** (`ShutdownGuard`, `NodeProtocol`, `Hibernation`, `BlockHistory`). Raising a flag and then reading everybody else's
  flag, one answer at a time; N hibernators running their code, with polls answered from each other's status, and the
  proof that this network and that protocol have the same runs; the same protocol with a clock, consensus snapshots and
  the hold of 60 s; and the snapshots as reports of blocks that members seal. `Core` and `Basics` hold what all share.

Runs are sequences of steps: `After` (`At` in `Hibernation`) gives the state a run leads to, or `None` when one of its
steps could not happen. A statement about all runs, interleavings or reachable states is a statement about all
sequences.

## Findings

Where a promise does not hold in general, the model keeps the code as it is, and a lemma says exactly when it holds.

* **Two hibernators can stop at once when a status call fails.** A failed call is logged but not recorded
  (`p2p/service.go:235-240`), so it counts as an answer with status 0, although the comment above `ValidatePeers` says
  that it makes validation fail. Mutual exclusion holds in all runs if and only if every hibernator lists every other
  and no call is lost (`ShutdownGuard.ExclusionIffCovered`, and for the code itself
  `NodeProtocol.CodeExclusionIffCovered`).
* **The hold of 60 s is tight.** The snapshot precedes the flag. The quorum is kept in all runs of all networks if and
  only if the lag of the snapshot, the time from snapshot to flag and the time for polling together do not exceed the
  hold (`Hibernation.QuorumIffWithinHold`). The lag is a matter of blocks. With N members taking turns, a stopped one is
  counted down, in windows of any length, if and only if k blocks have passed without it: k >= 2N-1 under Istanbul
  (`Istanbul.SilenceBound`), or k >= 3(N-1) when others may have come back meanwhile (`Istanbul.ReturnBound`), and
  k >= 3N-1 under GoQuorum Clique while all others are live (`GoQuorumClique.SilenceBound`). For GoQuorum Clique it
  depends on the window: of w blocks, with L other sealers live, k are enough if and only if (w-k)/(L+1), rounded up,
  plus 2 is at most w/N, rounded down (`GoQuorumClique.DelayIsExact`). Besu needs N+1 blocks
  (`BesuClique.DetectionMatchesHistory`). If blocks come on time and the lag these numbers give fits into the hold,
  every run keeps the quorum (`BlockHistory.QuorumOnBlocks`).
* **Windows of fixed length limit the number of members.** Istanbul's check needs a window of at least N blocks
  (`Istanbul.WindowBound`), GoQuorum Clique's one of 2N (`GoQuorumClique.LongWindowSeesSilent`), and Besu's metrics have
  to reach back more than N blocks (`BesuClique.WindowBound`).
* **A peers file that changes between its two passes can hang a private transaction.** The caller returns in every
  interleaving if and only if the second pass finds as many peers as the first or one more
  (`Peers.PrivateGatherIffPassesAgree`, `Peers.ShrinkingFileHangs`); with one more, a reply is lost
  (`Gather.OneTooManyLosesOne`). A file that stays the same is safe (`Peers.StableFileReturnsAll`).
* **A start can overwrite what an upcheck saw.** A client status of up agrees with the cached process statuses in all
  runs with at most k upchecks of other threads inside a start if and only if k is zero
  (`NodeMachine.CoherentIffStartsQuiet`). The inactivity tracker's forced upcheck is such an upcheck: it tests for a
  busy node first, but not under the mutex.
* **A failed `docker stop` is cached as down.** Exactly then the cached status stops agreeing with the last upcheck, and
  the next `Stop` reports success without doing anything (`Process.DockerControl.Stop`).
* **The resync timer fires once.** The documentation (`docs/config.md:14`) speaks of syncing regularly. After the first
  firing no run fires again without a reset, that is without activity (`Activity.FiresOnce`). In every reachable state
  another wake-up without a reset is possible if and only if the timer is armed or a value waits in its channel
  (`Activity.WakesAgainIffPrimed`), and the histories of firings and resets that can occur are exactly those in which
  every firing has been paid for (`Activity.SeenIffPaidFor`).

## Model

| member | source | states |
|---|---|---|
| `Istanbul.ValidateShutdown` | consensus/quorum/istanbul.go:72-122 | every error path in its order; otherwise acceptance iff the number of validators that trail some other by two or more blocks is below f, and that number and f in the error |
| `Istanbul.MaxBlockSealed` | consensus/quorum/istanbul.go:94-100 | whatever the order of the map, the result bounds all counts and is zero or one of them |
| `Istanbul.NumNodesDown` | consensus/quorum/istanbul.go:102-109 | the loop counts exactly the validators that trail another by two or more |
| `Istanbul.DetectionIsExact` | consensus/quorum/istanbul.go:94-109 | if live validators take turns, the set counted down is the silent set once the window is longer than the number of live ones, and empty before |
| `Istanbul.LongWindowSeesSilent` | consensus/quorum/istanbul.go:102-109 | pigeonhole: a window of at least N blocks, however spread, has every validator without a block counted down |
| `Istanbul.WindowBound` | consensus/quorum/istanbul.go:70 | all spreads of a window reveal all silent validators iff the window has at least as many blocks as there are validators |
| `Rotation.FairShare` | consensus/quorum/istanbul.go:94-109 | while a member is never skipped, no other one seals more than one block more than it in any stretch |
| `Istanbul.SilenceShows` | consensus/quorum/istanbul.go:102-109 | in any window that rotated, a validator silent for the last 2N-1 blocks is counted down, whatever it sealed before |
| `Istanbul.SilenceShowsDespiteReturns` | consensus/quorum/istanbul.go:102-109 | the same for 3(N-1) blocks when others come and go and one validator is live throughout |
| `Istanbul.SlowestWindow` | consensus/quorum/istanbul.go:102-109 | for every N and every k up to 2N-2, a rotation in which a validator silent for k blocks is not counted down |
| `Istanbul.SilenceBound` | consensus/quorum/istanbul.go:102-109 | all rotating windows reveal a validator silent for k blocks iff k is at least 2N-1 |
| `Istanbul.SlowestReturn` | consensus/quorum/istanbul.go:102-109 | for every N and every k up to 3N-4, a window with returning validators in which one silent for k blocks is not counted down |
| `Istanbul.ReturnBound` | consensus/quorum/istanbul.go:102-109 | all windows in which some validator is never skipped reveal one silent for k blocks iff k is at least 3(N-1) |
| `Istanbul.TurnsReport` | consensus/quorum/istanbul.go:94-119 | when exactly the validators that are up take turns, the check counts exactly the others, and accepts iff they are fewer than the limit |
| `GoQuorumClique.ValidateShutdown` | consensus/quorum/clique.go:72-113 | error paths, membership by coinbase, and acceptance iff fewer than (N-1)/2 sealers lag two or more behind the even share |
| `GoQuorumClique.LiveHoldsShare` | consensus/quorum/clique.go:95-105 | under even sharing no live sealer is below the share computed over all sealers, dead ones included |
| `GoQuorumClique.DetectionIsExact` | consensus/quorum/clique.go:95-105 | under even sharing the set counted down is the silent set if the window has two blocks per sealer, else empty |
| `GoQuorumClique.LongWindowSeesSilent` | consensus/quorum/clique.go:95-105 | for any spread of blocks, a sealer without a block is counted down iff the window has two blocks per sealer |
| `GoQuorumClique.SealedBefore` | consensus/quorum/clique.go:95-105 | a sealer's blocks are bounded by the rounds that the live sealers complete |
| `GoQuorumClique.SilenceShows` | consensus/quorum/clique.go:95-105 | a sealer is counted down when its share of the window exceeds by two what it can have sealed before its last k silent blocks |
| `GoQuorumClique.LatestWindow` | consensus/quorum/clique.go:95-105 | for any live sealers, window length and k, a rotation in which a sealer silent for k blocks has sealed as much as the bound allows |
| `GoQuorumClique.DelayIsExact` | consensus/quorum/clique.go:95-105 | for any live sealers and any window length w, all windows in which no live sealer is skipped reveal a sealer silent for k blocks iff its share exceeds by two the most it can have sealed before |
| `GoQuorumClique.SilenceBound` | consensus/quorum/clique.go:95-105 | with all others live, windows of every length reveal a sealer silent for k blocks iff k is at least 3N-1 |
| `GoQuorumClique.TurnsReport` | consensus/quorum/clique.go:95-111 | when exactly the sealers that are up take turns, the check counts exactly the others, and accepts iff one more down leaves a majority |
| `BesuClique.ValidateShutdown` | consensus/besu/clique.go:124-188 | error paths in their order, an unreadable metric included, and acceptance iff fewer than (N-1)/2 metrics are more than N blocks old |
| `BesuClique.LastSealedIsLast` | consensus/besu/clique.go:33-37 | the last proposed block of a signer is sealed by it and lies in the metrics' window, no later block is sealed by it, and there is none iff it was silent for the window |
| `BesuClique.NodesDown` | consensus/besu/clique.go:165-177 | the loop counts exactly the stale metrics, and fails iff one does not parse |
| `BesuClique.DetectionMatchesHistory` | consensus/besu/clique.go:165-177 | against any chain and metrics over any number of last blocks: counted down iff the chain has more than N blocks and the signer sealed none of the last N+1, or none of the window if that is shorter |
| `BesuClique.WindowBound` | consensus/besu/clique.go:116-119 | on all chains exactly the signers silent for N+1 blocks are counted down, iff the metrics' window is longer than N |
| `BesuClique.TurnComes` | consensus/besu/clique.go:115-123 | if the turn passes along the ring without skipping a live signer, one that is k places ahead seals within k blocks |
| `BesuClique.RotationKeepsLiveUncounted` | consensus/besu/clique.go:165-177 | under that rotation, with metrics over at least N blocks, no live signer is counted down and every signer silent for N+1 blocks is |
| `BesuClique.TurnsReport` | consensus/besu/clique.go:165-187 | when exactly the signers that are up sealed the last N+1 blocks in turn, the check counts exactly the others, and accepts iff one more down leaves a majority |
| `Raft.ValidateShutdown` | consensus/quorum/raft.go:77-117 | roles and error paths, and acceptance iff more than N/2+1 entries are active |
| `Raft.ActiveNodes` | consensus/quorum/raft.go:103-108 | the loop counts exactly the active entries |
| `Raft.CountsFillCluster` | consensus/quorum/raft.go:103-109 | active and inactive entries add up to the cluster |
| `Quorum.MajorityTestsAgree` | consensus/quorum/raft.go:110-115 | the Raft test on active nodes accepts exactly the clusters that the two Clique tests on down nodes accept |
| `Quorum.MajorityLimitIsExact` | consensus/quorum/clique.go:98-111 | the majority limit is the largest number of down members that leaves N/2+1 up, that is fewer than half down |
| `Quorum.ByzantineLimitIsExact` | consensus/quorum/istanbul.go:111 | the Istanbul limit is the largest f with N >= 3f+1, as the documentation of consensus checks states |
| `Quorum.ByzantineQuorumsMeet` | consensus/quorum/istanbul.go:111-119 | any two sets of N-f validators share at least f+1 |
| `Quorum.AcceptedLeavesRoom` | consensus/core.go:5-8 | for all four engines: an accepted report in which every stale member is counted down has fewer members counted down, and fewer stale ones, than the limit |
| `Quorum.SilentReportIsFaithful` | consensus/core.go:5-8 | for all four engines: members without a sign of life in a long enough window are counted down |
| `Quorum.IstanbulReportIsFaithful` | consensus/quorum/istanbul.go:94-109 | on a window that rotated, all validators silent for 2N-1 blocks are counted down together |
| `Quorum.IstanbulReportIsFaithfulDespiteReturns` | consensus/quorum/istanbul.go:94-109 | the same for 3(N-1) blocks when others come back |
| `Quorum.GoQuorumCliqueReportIsFaithful` | consensus/quorum/clique.go:95-105 | the same for GoQuorum Clique, under its bound on blocks sealed before the silence |
| `Quorum.ChainReportIsFaithful` | consensus/besu/clique.go:158-177 | on a chain of more than N blocks, signers silent for N+1 blocks are counted down, whatever the metrics' window |
| `Quorum.BesuTurnsAccept` | consensus/besu/clique.go:179-187 | then the network's report is accepted exactly while there is room |
| `ShutdownGuard.InvIsKept` | node/control.go:392-412 | no step of any hibernator lets two of them clear each other |
| `ShutdownGuard.UncoveredPairCollides` | p2p/service.go:228-242 | one pair that is not listed, or whose call can be lost, suffices for a run that takes two hibernators past validation |
| `ShutdownGuard.StopperBlocks` | p2p/service.go:158-167 | while a peer polls, is stopped, is stuck or holds, nobody whose call reaches it gets past validation by its own steps |
| `ShutdownGuard.PassesIffNobodyStops` | p2p/service.go:158-167 | a hibernator at rest can get past validation by its own steps iff every peer whose call cannot be lost is at rest, starting or stuck in a start |
| `ShutdownGuard.VerdictOnReplies` | p2p/service.go:158-169 | the verdict clears iff every reply is a status other than shutting down and waiting for consensus |
| `ShutdownGuard.RepliesFromSteps` | p2p/service.go:203-244 | in every run a reply is there iff one came since the flag went up; an error stays an error and a lost call reads as the zero status |
| `ShutdownGuard.AnswersAreFlags` | node/api.go:71-75 | any other status is the flag the peer had when it answered, after the own flag went up |
| `ShutdownGuard.ExclusionIffCovered` | p2p/service.go:150-170 | in all runs at most one hibernator is past validation with its flag up, iff all list each other and no call is lost |
| `NodeProtocol.FlagIsNodeStatus` | node/api.go:70-78 | the flag that peers read in the protocol is the node status that the code keeps |
| `NodeProtocol.SilentStepRefines` | node/control.go:358-486 | the steps of the code that set no flag keep the protocol phase |
| `NodeProtocol.StepRefines` | node/control.go:358-486 | every other step of StopClient and StartClient is the corresponding protocol step, to the same phase |
| `NodeProtocol.EachMachineRuns` | node/control.go:358-486 | what an interleaved run of N hibernators does to each is a run of its own machine |
| `NodeProtocol.NetworkRunsAreProtocolRuns` | node/control.go:392-412 | every interleaved run of N hibernators' code, with polls answered from each other's node status, projects to a run of the protocol in which every flag is that status |
| `NodeProtocol.ProjectionGrows` | node/control.go:392-412 | the projection of a prefix is a prefix, so the flags agree at every moment |
| `NodeProtocol.ProtocolRunsAreNetworkRuns` | node/control.go:358-486 | conversely every run of the protocol is the projection of a run of the code, whatever the configurations |
| `NodeProtocol.CodeExclusionIffCovered` | p2p/service.go:150-170 | in all interleaved runs of the code at most one hibernator stops its processes, holds or is stuck after a failed stop, iff all list each other and no call is lost |
| `Hibernation.AnswerSees` | node/control.go:406-411 | whoever went down after, or too shortly before, a peer's snapshot still holds its flag when that peer polls it |
| `Hibernation.PastHasSeenAll` | node/control.go:373-401 | a member past validation has every other hibernated member counted in its own snapshot |
| `Hibernation.RunsKeepNetInv` | node/control.go:373-412 | all runs within the timing keep the invariant, and with it the bound on hibernated members |
| `Hibernation.ShortHoldLosesQuorum` | node/control.go:20 | with any timing that exceeds the hold, two of three Raft members can hibernate |
| `Hibernation.QuorumIffWithinHold` | node/control.go:373-412 | in all runs of all networks the hibernated members stay within the engine's limit, iff lag + delay + polling <= 60 000 ms |
| `Hibernation.DownFromRun` | node/control.go:401-404 | in every run a client is down iff it went down and was not started since, and a flag is held iff the stop ended and it was not released since |
| `Hibernation.DownSince` | node/control.go:401-404 | and it has been down since that moment |
| `Hibernation.StopTimesFromRun` | node/control.go:373-412 | in every run the flag's time is kept exactly while the flag is up for a stop, and the snapshot's from the snapshot to the end of the stop |
| `Hibernation.SnapshotsAllowed` | node/control.go:362-385 | when a hibernator may take a snapshot: at rest, client up since the last start, no stop under way, and for a member not strict and accepted by the engine |
| `Hibernation.HibernatesTwice` | node/control.go:478-482 | a run in which one member hibernates, is started and hibernates again |
| `Hibernation.RefusedTriesAgain` | node/control.go:394-398 | a run in which a member is refused by a peer, stays up, tries again and hibernates |
| `Hibernation.ByzantineQuorumSurvives` | docs/architecture.md:37-46 | Istanbul, every run: N-f validators are live and share f+1 with any other N-f |
| `Hibernation.MajoritySurvives` | docs/architecture.md:37-46 | Raft and Clique, every run: at least N/2+1 members are live |
| `Hibernation.ProjectsToProtocol` | node/control.go:373-412 | every timed run projects to a run of the protocol |
| `Hibernation.OneShutdownAtATime` | docs/architecture.md:30-33 | so mutual exclusion carries over to the timed network, whatever the timing |
| `Hibernation.StrictMembersStayUp` | node/control.go:381-385 | whatever the timing, a consensus member in strict mode is never hibernated and never raises its flag |
| `BlockHistory.StaleAreSilent` | node/control.go:406-409 | if blocks come at least once a period, a lag of k periods means that stale members sealed none of the last k blocks |
| `BlockHistory.IstanbulLag` | node/control.go:406-409 | under Istanbul a lag of 2N-1 block periods makes the report on a rotating window faithful in any state |
| `BlockHistory.IstanbulLagDespiteReturns` | node/control.go:406-409 | 3(N-1) block periods do when validators come back, if one that is up was never skipped |
| `BlockHistory.GoQuorumCliqueLag` | node/control.go:406-409 | under GoQuorum Clique k block periods do, with any number of hibernated sealers, under the exact bound on what each can have sealed before |
| `BlockHistory.GoQuorumCliqueLagOfOne` | node/control.go:406-409 | so 3N-1 block periods do for one stale sealer while all others are live, however long it has been down |
| `BlockHistory.BesuCliqueLag` | node/control.go:406-409 | under Besu Clique N+1 block periods do, whoever seals the blocks |
| `BlockHistory.GroundedIsFaithful` | consensus/core.go:5-8 | for all four engines: the report of a ledger of blocks, or of Raft's members, counts every stale member down |
| `BlockHistory.BlockRunsAreRuns` | node/control.go:373-412 | runs in which snapshots are such reports, and nothing else is assumed of them, are runs of the timed network |
| `BlockHistory.QuorumOnBlocks` | node/control.go:373-412 | end to end: in all those runs the hibernated members stay within the engine's limit if lag, delay and polling fit into the hold |
| `BlockHistory.TurnsGround` | node/control.go:406-409 | in any state, if the validators that are up have taken turns, their report is such a report |
| `BlockHistory.TurnsCount` | node/control.go:373-379 | and it counts exactly the hibernated validators, so that another stop is accepted iff they are fewer than the limit |
| `BlockHistory.ReturnsGround` | node/control.go:406-409 | a window with returning validators is such a report under its 3(N-1) bound |
| `BlockHistory.CliqueTurnsGround` | node/control.go:406-409 | the same for GoQuorum Clique under the exact bound on earlier blocks |
| `BlockHistory.CliqueTurnsCount` | node/control.go:373-379 | it counts exactly the hibernated sealers, and another stop is accepted iff it leaves a majority |
| `BlockHistory.ChainGrounds` | node/control.go:406-409 | any chain of more than N blocks that came on time is such a report for Besu |
| `BlockHistory.BlocksQuorumIffWithinHold` | node/control.go:373-412 | in all runs of all networks on such reports the hibernated members stay within the limit, iff lag + delay + polling <= 60 000 ms |
| `Peers.IsValid` | config/peers.go:7-22 | accepts iff all entries are valid and names are distinct; else reports the least failing entry, a repeated name first |
| `Peers.PeerManager.ReadPeersConfig` | p2p/service.go:39-57 | the list becomes the new one if that was read and is valid; a file that cannot be read or is invalid leaves the old list in use; a valid list stays valid |
| `Peers.LastReloadIsLastValid` | p2p/service.go:39-57 | after any reads the list in use is the last one that was valid |
| `Peers.PeerManager.GetPeersCount` | p2p/service.go:172-182 | counts exactly the entries that are called |
| `Peers.PeerManager.LaunchPolls` | p2p/service.go:222-243 | calls every entry but the own one, in order |
| `Peers.PeerManager.PeerStatusCalls` | p2p/service.go:190-244 | after one read of the file, as many calls as replies are waited for, to exactly the other entries of the list in use, which after a failed read is the old list |
| `Peers.PollReturnsAll` | p2p/service.go:153-249 | for any list in use, no interleaving of the poll gets stuck, each returns all replies without error, and the peers are clear iff every other entry answered with a clearing status |
| `Peers.OnlySelfIsSkipped` | p2p/service.go:222-227 | in a valid list at most one entry is skipped, and one is iff the own name is listed |
| `Peers.OthersAreCalled` | p2p/service.go:251-253 | the entries called are all those with another name |
| `Peers.OthersKeepTheRest` | p2p/service.go:222-227 | in the order of the list and as often as there |
| `Peers.PeerManager.GetConfigByPrivManKey` | p2p/service.go:29-37 | the first entry with the key in the list after reloading, if any |
| `Peers.PeerManager.PeersByParticipantKeyCount` | p2p/service.go:77-85 | the number of managed keys, each judged by the list in use after its own reload, and the list left behind |
| `Peers.PeerManager.LaunchCalls` | p2p/service.go:119-143 | the sending pass calls the peers found now, one for each managed key, starting from the list left by the counting pass |
| `Peers.PeerManager.PeerPrivateTxCalls` | p2p/service.go:88-143 | the number of replies to wait for and the peers called, for any results of the reads of both passes |
| `Peers.FoundNext` | p2p/service.go:119-143 | key by key: none is called if no peer of the list then in use has the key, else the first that has it |
| `Peers.PrivateGatherIffPassesAgree` | p2p/service.go:88-147 | whatever the reads return, every interleaving returns iff the sending pass finds as many peers as the counting pass or one more |
| `Peers.StableFileCountsAgree` | p2p/service.go:92-120 | with an unchanged file the counting pass and the sending pass find the same number |
| `Peers.StableFileReturnsAll` | p2p/service.go:88-147 | with an unchanged file no interleaving gets stuck, and each returns all replies without error |
| `Peers.ShrinkingFileHangs` | p2p/service.go:92-145 | a file that loses its one peer between the passes: a run in which the caller waits for ever |
| `Peers.PeerManager.ValidatePeers` | p2p/service.go:153-170 | no error iff as many statuses as expected arrived and none is shutting down or waiting for consensus, so a peer that starts does not object; which error otherwise |
| `Peers.PeerManager.ValidatePeerPrivateTxStatus` | p2p/service.go:61-75 | ready iff some status arrived and all are true |
| `Peers.VerdictIsOrderFree` | p2p/service.go:190-249 | for every interleaving the peers are clear iff each replied without error and with a clearing status |
| `Peers.GatherRefinesDecide` | p2p/service.go:153-170 | scatter, gather and validation, in every interleaving and for any number of peers, compute the single decision step of the protocol |
| `Peers.ReadinessIsOrderFree` | p2p/service.go:88-148 | for every interleaving ready iff some participant answered and every one that did said true |
| `Gather.InvIsKept` | p2p/service.go:203-244 | every step conserves replies: unsent, in the channel or received |
| `Gather.RunsAreBounded` | p2p/service.go:203-249 | with n senders no run has more than 4n+2 steps |
| `Gather.RunToQuiescence` | p2p/service.go:203-249 | every run can be continued until nothing more can happen |
| `Gather.NeverStuckIffCountsAgree` | p2p/service.go:100-147 | every run that can go no further has returned, iff the senders are as many as expected or one more |
| `Gather.ReturnsAllGoods` | p2p/service.go:190-249 | with one sender per expected reply, none included, the result is, as a bag, exactly the replies without error |
| `Gather.OneTooManyLosesOne` | p2p/service.go:92-146 | with one sender too many the caller returns and one reply is left in the channel |
| `Process.ShellProcessControl.UpdateStatus` | process/shell.go:40-53 | uses one upcheck and caches it: up iff it answered without error that the process is up |
| `Process.ShellProcessControl.WaitToComeUp` | process/shell.go:109-121 | true iff one of the next 30 upchecks is up, and exactly the upchecks up to the first such are used |
| `Process.ShellProcessControl.WaitToBeDown` | process/shell.go:126-138 | the same for down |
| `Process.ShellProcessControl.Stop` | process/shell.go:56-78 | when it succeeds, how many upchecks it uses, and that it fails iff the process is left cached as up |
| `Process.ShellProcessControl.Start` | process/shell.go:81-104 | when it succeeds, how many upchecks it uses, and that it succeeds iff the process is left cached as up |
| `Process.DockerControl.UpdateStatus` | process/docker.go:42-55 | the same for a container |
| `Process.DockerControl.WaitToComeUp` | process/docker.go:126-138 | true iff one of the next 30 upchecks is up, and exactly the upchecks up to the first such are used |
| `Process.DockerControl.WaitToBeDown` | process/docker.go:142-154 | the same for down |
| `Process.DockerControl.Stop` | process/docker.go:58-89 | when it succeeds; success leaves it cached as down; the cache leaves the last upcheck iff the stop command fails on a running container |
| `Process.DockerControl.Start` | process/docker.go:92-122 | when it succeeds, and that it succeeds iff the container is left cached as up |
| `NodeMachine.StatusExplained` | node/control.go:358-486 | in every run: ConsensusWait exactly during the hold, and with the mutex free the status tells how the last stop or start ended |
| `NodeMachine.StatusFromSteps` | node/control.go:358-486 | each status read off the run: shutting down since the flag went up, waiting for consensus since the hold began, starting since a start began, unless something ended that |
| `NodeMachine.ClientFromSteps` | node/control.go:192-211 | the client is marked as up iff the last start, stop or upcheck of both processes said so, and unknown until the first |
| `NodeMachine.CacheFromSteps` | node/control.go:436-478 | what is cached of the blockchain client is what the last step that asked, stopped or started it found |
| `NodeMachine.PmCacheFromSteps` | node/control.go:436-478 | the same for the privacy manager |
| `NodeMachine.UpchecksComeAnyTime` | node/control.go:192-211 | an upcheck by another thread can come at any point and moves neither the call nor the node status |
| `NodeMachine.SecondReadStarts` | node/control.go:466 | a client that comes up between the two reads of StartClient is started anyway, without a forced upcheck |
| `NodeMachine.CallsReturn` | node/control.go:358-486 | from every point of every run the call can return by at most nine steps of its own |
| `NodeMachine.StatusChangesUnderLock` | node/control.go:359-360 | the node status changes only while the mutex is held, and never by an upcheck |
| `NodeMachine.FailureBlocksStops` | node/control.go:366-369 | after a failed stop or start no run issues a stop command before a start has brought both processes up |
| `NodeMachine.LoudStartBreaksCoherence` | node/control.go:470-482 | a run in which a single upcheck inside a start leaves the client marked as up with a process cached as down |
| `NodeMachine.LoudChecksCounted` | node/control.go:466-479 | which upchecks count as inside a start: those at five points, counted over the run |
| `NodeMachine.CoherentIffStartsQuiet` | node/control.go:192-211 | in all runs with at most k upchecks inside a start a client marked as up has its processes cached as up, shutdowns excepted, iff k is zero |
| `NodeControl.NodeControl.CheckClientUpStatus` | node/control.go:192-211 | asks the processes iff the client is taken to be up or the caller insists, and records what they say |
| `NodeControl.NodeControl.IsNodeBusy` | node/control.go:237-247 | busy iff shutting down or starting; waiting for consensus is not busy |
| `NodeControl.NodeControl.CheckAndValidateConsensus` | node/control.go:422-433 | the configured consensus is compared until it has matched once, and only for GoQuorum |
| `NodeControl.NodeControl.DecideStop` | node/control.go:362-399 | which of six outcomes the checks come to, and the status each leaves; processes are stopped only if engine, strict mode and peers all allow it |
| `NodeControl.NodeControl.StopBoth` | node/control.go:436-458 | both stops are always tried; each succeeds iff its process is cached as down or its command runs and one of the next 30 upchecks is down |
| `NodeControl.NodeControl.StopProcesses` | node/control.go:436-458 | the same as steps of the machine, one for each process |
| `NodeControl.NodeControl.StopAndHold` | node/control.go:401-419 | succeeds iff both stops do, and what either end leaves behind |
| `NodeControl.NodeControl.StopClient` | node/control.go:358-420 | a client that is down needs no stop; each single objection (busy, engine, configured consensus, strict member, peer) refuses it, with the status it leaves, and touches no process; otherwise it succeeds iff the stops do; the steps taken extend the run of the machine |
| `NodeControl.NodeControl.StartBoth` | node/control.go:471-478 | the second start is tried whatever the first did; each succeeds iff its process is cached as up or its command runs and one of the next 30 upchecks is up |
| `NodeControl.NodeControl.StartProcesses` | node/control.go:471-478 | the same as steps of the machine, one for each process |
| `NodeControl.NodeControl.StartClient` | node/control.go:460-486 | succeeds iff the client was marked as up, or each process is up at the forced check or comes up after its command; the node status afterwards in each case, stuck ones included; the steps taken extend the run of the machine |
| `NodeControl.NodeControl.PrepareForPrivateTx` | node/api.go:44-68 | resets the trackers whatever the answer, answers ready iff the node is neither busy nor down, and starts a client that is down only afterwards |
| `Activity.InactivityResyncMonitor.TrackInactivity` | node/activity.go:30-50 | for any events the count is the ticks since the last reset modulo the period, and stops are requested exactly when a period completes at a node that is up and not busy |
| `Activity.InactivityResyncMonitor.ProcessInactivity` | node/activity.go:95-116 | the count starts anew in every branch, and a stop is requested iff not busy and up |
| `Activity.InactivityResyncMonitor.NodeStatus` | node/api.go:71-78 | the status, the inactive time counted, and a time to shutdown that lies between zero and the limit and adds up to it |
| `Activity.StopNeedsFullPeriod` | node/activity.go:36-42 | a request is preceded by InactivityTime ticks in a row without a reset |
| `Activity.RecentAreTicks` | node/activity.go:34-47 | the ticks counted are exactly the events after the last reset |
| `Activity.TimerFromSteps` | node/activity.go:60-71 | in every run the timer is armed iff nothing ran out since the start or the last reset, and a value waits iff it ran out and was not taken since |
| `Activity.NumbersCounted` | node/activity.go:54-79 | wake-ups, firings and resets as occurrences in the run |
| `Activity.FiresNeedResets` | node/activity.go:54-79 | in every run of the timer, firings number at most one more than resets, less what is armed or waiting |
| `Activity.WakesAgainIffPrimed` | node/activity.go:60-71 | in every reachable state a wake-up without a further reset is possible iff the timer is armed or a value waits |
| `Activity.FiresOnce` | node/activity.go:60-71 | after the first firing no run without a reset fires again |
| `Activity.SeenIffPaidFor` | node/activity.go:60-71 | exactly which histories of firings and resets some run shows: a reset arms the timer again, and leaves a value that already waits |
| `Activity.InactivityResyncMonitor.TrackResyncTimer` | node/activity.go:54-92 | along any run of the timer, a start is requested for each firing at a node that is not busy, at most one more than there are resets, and none if the timer is not set; the inactivity count is reset iff one is requested |
| `Controller.AnswersArePaired` | node/control.go:302-349 | in every run at most one request of each kind is under way, and the n-th wait gets the n-th result |
| `Controller.SendsNeverBlock` | node/control.go:307-338 | neither a request nor a report of completion ever finds its channel full |
| `Controller.LinksFromSteps` | node/control.go:302-349 | in every run requests, answers got and results are those of the steps taken |
| `Controller.ChannelsFromSteps` | node/control.go:264-269 | a reset channel is full iff a reset was sent and not taken since; the monitor works iff it took a request and has not reported since |
| `Controller.HandlersResetFirst` | node/api.go:48-62 | a handler starts the client only after it reset both trackers, one if there is no resync timer; the websocket handshake resets none |
| `Controller.MutexExcludes` | node/control.go:359-360 | the monitor and the handlers never run a stop or start at the same time |
| `Controller.RequestIsServed` | node/control.go:302-349 | a run that takes a request of either kind from the tracker to its answer |
| `Controller.HandlerIsServed` | node/control.go:264-269 | a run that takes a handler from its resets through the start |
| `Controller.WaitingIsAcyclic` | node/control.go:264-269 | in every reachable state, with any number of handlers, waiting strictly rises in a rank of at most three |
| `Controller.ActiveStepsOrWaits` | node/control.go:302-349 | in every reachable state a thread with something to do can take a step or waits for another thread |
| `Controller.NobodyIsStuck` | node/activity.go:81-116 | in every reachable state every thread with something to do can take a step, or is at the head of a chain of at most four waiting threads whose last one can |

## Left out

- `Hibernation.QuorumIffWithinHold`: members stop only through hibernators, stops and starts succeed, all hibernators list each other and every call is answered; how soon a stopped member shows in a snapshot is a parameter, because consensus itself is not modelled.
- `Quorum.AcceptedLeavesRoom`: the report names exactly the members, so a Raft cluster without learners; that stale members are counted down is what the report lemmas give, from block histories in which members take turns.
- `GoQuorumClique.DelayIsExact`: speaks of sealers in turn; blocks sealed out of turn while one is absent are not a rotation, and then only `GoQuorumClique.LongWindowSeesSilent` applies.
- `BlockHistory.QuorumOnBlocks`: that blocks come on time and members take turns is assumed of the reported window; Raft's own record of its members is taken as it is once the lag has passed.
- `BesuClique.DetectionMatchesHistory`: a signer without a block in the metrics' window is reported with block 0.
- The refusal of a Raft minter to stop is not part of the timed network, which therefore has more runs than the code.
- `ShutdownGuard.ExclusionIffCovered`: the peers list of each hibernator is fixed during a run; one that is reloaded with fewer entries is a list that does not cover.
- `NodeProtocol.NetworkRunsAreProtocolRuns`: an answer counts from the moment at which the peer reads its status; its arrival is not a step of its own, since no verdict is drawn before all answers are in.
- `NodeMachine.CoherentIffStartsQuiet`: an upcheck of both processes is one step, although the two calls take time and run in parallel.
- `NodeControl.NodeControl.StopProcesses`: stops one process after the other, where the source runs both at once; each touches its own process only.
- `BesuClique.ValidateShutdown`: block numbers are never negative, and the stripping of the 0x prefix is part of the parser's answer.
- `Activity.InactivityResyncMonitor.TrackResyncTimer`: when the timer runs out is not timed; it may do so at any moment while armed.
- `Activity.InactivityResyncMonitor.TrackInactivity`: the reset by the resync tracker is one more reset event; the data race on the counter is not modelled.
- A hibernator's name stands for the address of the member it manages; unmanaged members are members that never stop.
- Random buffer on the inactivity time, and the client status monitor's timer: they only choose when events happen.
- HTTP, JSON, TLS and the parsing of RPC replies: every call is a parameter or a step that succeeds or fails.
- Proxy servers and websocket replication: only the order in which a handler resets the trackers and starts the client.
- Docker and shell commands: a command succeeds or fails, and upchecks answer from an arbitrary stream.
- Configuration other than the peers list, URL and TLS checks of one peer: fields of a peer say whether they pass.
- Extraction of private transaction participants (`privatetx/quorum.go`) and the comparison of the configured consensus (`config/node.go`): results are parameters.
- Stopping the controller itself (`NodeControl.Stop`, the stop channels), logging and `main.go`.
