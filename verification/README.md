# Serverless GPU autoscaling: the two protocols

This project models the control logic of a serverless GPU setup and proves what it keeps. Two
state machines run side by side and meet at a JetStream work queue:

* the **orchestrator** (`orchestrator/`), a tick loop that reconciles its table of GPU nodes with the
  cloud and launches `ScaleUp`, `ScaleDown` and `waitForNodeReady` goroutines, guarded by a cooldown,
  a scale-up timer and an idle timer;
* the **agent** (`nats-agent/`), which pulls jobs into a bounded number of slots, forwards them with
  local retries, and settles each one by an ack, a dead letter or a negative ack, while a heartbeat
  keeps its lease.

## How it is organised

| file | content |
|---|---|
| `Common`, `Timers` | counting over maps; a start-of-condition timer read at ticks |
| `Nodes`, `NodeManager` | the node table as a function of locked calls; the class that changes node objects in place |
| `Reconciliation`, `Discovery` | the cloud merge in closed form and its fixpoints; the scrape-target index |
| `Scaling`, `ScalingTraces` | the two evaluations; what their timers mean over whole runs |
| `Operations`, `Orchestrator` | the operations as functions on the state; the class whose methods compute them |
| `TargetAgreement`, `Convergence` | the sequential schedule: the target file; how far and how fast an idle fleet shrinks |
| `Interleaving`, `SystemInvariants`, `Leaks`, `Floor`, `Stall` | the transition system in which every locked call, cloud call and evaluation is a step, and what all its runs keep or can lose |
| `Reaching`, `Triggers` | stretches of runs to build on; what the launch triggers allow over all runs |
| `Spacing` | how far apart scale events are, in the sequential schedule and over all runs |
| `Solo`, `CloudCalls` | a goroutine or tick of that system, left alone, is the operation of the class, cloud call for cloud call |
| `Handling`, `Agent` | what handling one message does; the agent class whose methods compute it |
| `Lease` | the heartbeat interval after both adjustments, and the lease |
| `Delivery` | any number of agents, the queue and crashes as a transition system |
| `Exclusive` | the same with time and leases: when a job is with one handler at a time |

The cloud, the clock, the queue depth, HTTP replies and the answers of ack, nak, publish and destroy
calls are parameters or adversarial steps. Time is an integer; where steps interleave the clock is
monotone and read afresh at each step. The bounds 0 <= MinNodes <= MaxNodes and MaxNodes >= 1 are
assumed where they matter because the configuration loader enforces them
(`orchestrator/main.go:87-98`). That the scale-up threshold is not negative is not enforced there; it is
a hypothesis only of the convergence results, and `Triggers.NoDoubleLaunchIff` says what else it decides.

## Where the code and its documentation differ

The model follows the code. Each difference is a lemma.

* "Only one scale operation runs at a time" (`README.md:277`): false for every configuration, because a
  ScaleUp is invisible until its create call has returned (`Stall.ScaleUpsOverlap`).
* "Scaling never goes below MIN_NODES" (`README.md:278`): false for every positive floor. A run has the
  fleet exactly at the floor when a node fails to come up (`Stall.FailedNodeBreaksFloor`), or when
  instances drop out of the listing (`Stall.SweepBreaksFloor`), and loses one more.
  `Floor.FloorHolds` says exactly which steps break the floor, on runs in which no node that a
  ScaleDown under way counts on is lost or was being given up on at its launch: such sweeps and
  failed waiters at or below the floor, never a ScaleDown, however many overlap. Without that a
  ScaleDown can do it too, in some run exactly when there is a floor and room above it
  (`Stall.ScaleDownBreaksFloorIff`). `Floor.FloorIsKept` bounds the damage on every run by the number of losses.
* "Cooldown gate: each scale event is blocked until COOLDOWN_DURATION passes" (`README.md:276`): holds
  of every run exactly when there is no cooldown (`Spacing.CooldownGateIff`), because checking and
  recording are apart and ScaleUp does not check at all. When each operation ends before the next
  tick it holds exactly when there is none or no tick can launch both ways (`Spacing.SpacedIff`).
* "Continuously for SCALE_UP_DURATION" (`README.md:233`): the cold-start branch leaves the timer
  running, so a dip of the queue can go unnoticed; `Triggers.ContinuityIff` says for which
  configurations some run shows that, and `ScalingTraces.ScaleOutIff` what the trigger really is.
* "Acked only after a 2xx" (`README.md:40`): also after a dead letter was stored, as `README.md:132` says.
* After shutdown "waits for in-flight handlers" (`README.md:140`): the wait group can reach zero
  while a fetch from before the drain is open and about to start one more handler
  (`Delivery.DrainedIff`; `Delivery.OpenAfterDrain` is a run that gets there).
* Two states end all scaling: a reconcile that lists an instance between its creation and its
  tracking orphans a provisioning entry, for good while listings name only live instances
  (`Stall.RaceOrphansNode`, `Stall.OrphanStallsForever`); and a failed destroy call strands a
  destroying one, in some run exactly when there is room between floor and cap
  (`Stall.StrandingIff`), for good while the cloud goes on listing it (`Stall.StrandedStallsForever`).
* A drain lock protects more than its node: as only the largest id is ever considered, an idle fleet
  shrinks to the floor exactly when its locks are among as many of its smallest ids as the floor asks
  for, and otherwise stops at the ids at or below the largest locked one
  (`Convergence.ReachesTheFloorIff`, `Convergence.ShrinksInTime`).
* The cap is held by the tracked table at all times. Instances that exist are another matter: the
  removal loop can drop one that is alive when the listing lags, and that is the only step that can
  (`Leaks.StepLeaksIff`); for every configuration a run gets there (`Stall.LaggingListingLeaks`). The
  exemption of provisioning nodes prevents it when listings lag by no more than those and no node
  leaves provisioning behind a pass's back (`Leaks.NoLeakOverRuns`).
* The ack of an invalid message is counted even when its call fails; other acks are not (`Handling.CountersAgree`).

## Model

| member | source | states |
|---|---|---|
| NodeManagers.NodeManager.constructor | orchestrator/statemachine.go:46-51 | a new manager tracks nothing under the given cap |
| NodeManagers.NodeManager.Add | orchestrator/statemachine.go:54-73 | refuses at the cap or for a tracked id and then leaves the table alone; otherwise files one new provisioning object under the id |
| NodeManagers.NodeManager.Transition | orchestrator/statemachine.go:76-107 | fails for an unknown node or a transition the table forbids, is idempotent, stamps the ready time on entering ready |
| NodeManagers.NodeManager.Remove | orchestrator/statemachine.go:110-114 | exactly that id is gone, and no other object changes |
| NodeManagers.NodeManager.SetIP | orchestrator/statemachine.go:125-134 | sets the address of a tracked node, fails for another |
| NodeManagers.NodeManager.SetLock | orchestrator/statemachine.go:212-221 | sets the drain lock of a tracked node, fails for another |
| NodeManagers.NodeManager.NodesByState | orchestrator/statemachine.go:137-147 | every node in the state, each once, in any iteration order |
| NodeManagers.NodeManager.CountActive | orchestrator/statemachine.go:150-160 | the number of tracked nodes that are not destroying |
| NodeManagers.NodeManager.CountReady | orchestrator/statemachine.go:163-173 | the number of tracked nodes that are ready |
| NodeManagers.NodeManager.IsScalingInProgress | orchestrator/statemachine.go:199-209 | whether some tracked node is provisioning, draining or destroying |
| Nodes.AddEffect | orchestrator/statemachine.go:58-72 | a node is added exactly if there is room and it is not tracked: provisioning, under its label, created now, unlocked, without address or ready time |
| Nodes.TransitionEffect | orchestrator/statemachine.go:20-107 | exactly which transitions succeed, by state, and what they set: the state, and the ready time on entering ready or finding it missing there |
| Nodes.OtherEffects | orchestrator/statemachine.go:110-221 | removal, address and drain lock: exactly that node, exactly that field |
| Nodes.CountsAre | orchestrator/statemachine.go:150-173 | active are the nodes that are not destroying, ready those in the ready state |
| Nodes.CallAdvances | orchestrator/statemachine.go:76-107 | one locked call never lowers a rank, writes a ready time only on entering ready, touches no other node, and only a removal removes |
| Nodes.CallRespectsCap | orchestrator/statemachine.go:54-63 | no call takes the table over the cap |
| Nodes.InProgressIsNotAllReady | orchestrator/statemachine.go:163-209 | the in-progress test holds exactly when the ready count is below the number of tracked nodes |
| Nodes.ReplayKeepsInvariants | orchestrator/statemachine.go:54-134 | cap and ready-time discipline survive any sequence of calls |
| Nodes.LifecycleOverAnyInterleaving | orchestrator/statemachine.go:20-107 | over any interleaving of calls a tracked entry's rank never falls, each state change costs a rank (at most three), its ready time is written at most once |
| Nodes.CallsOnOneNode | orchestrator/scaler.go:292-351 | any number of interleaved calls about one node leave all others alone and lower the active count by at most one |
| Discovery.BuildTargets | orchestrator/discovery.go:18-62 | in any iteration order the entries are, as a multiset, one for each exporter of each ready node with an address |
| Discovery.IndexMember | orchestrator/discovery.go:23-57 | which entries the index holds: address, port by job, and labels of a ready node with an address |
| Reconciliation.ReconcileIsExpected | orchestrator/orchestrator.go:376-443 | for every table and duplicate-free listing the two loops leave exactly: tracked nodes refreshed, the earliest listed new ids up to the room there is, unlisted nodes removed unless provisioning |
| Reconciliation.PassLeavesListed | orchestrator/orchestrator.go:385-421 | a listed node is ready after a pass exactly if it was, or was provisioning or new and is listed as "running"; draining and destroying stay; address, lock, label, creation and ready time, each by the fields of table and listing |
| Reconciliation.PassLeavesUnlisted | orchestrator/orchestrator.go:432-443 | an unlisted node is tracked after a pass exactly if it was tracked as provisioning, and is as it was |
| Reconciliation.PassTracksListed | orchestrator/orchestrator.go:390-399 | a listed node is tracked after a pass exactly if it was before or fewer untracked ones are listed before it than there was room |
| Reconciliation.AdmittedSize | orchestrator/orchestrator.go:385-399 | a pass admits all new ids, or exactly as many as there is room for |
| Reconciliation.OnePassIff | orchestrator/orchestrator.go:376-443 | one pass reaches a fixpoint exactly when tracked and listed ids together fit the cap or nothing tracked is stale |
| Reconciliation.TwoPassesSettle | orchestrator/orchestrator.go:376-443 | from any table, a third pass over the same listing never changes anything |
| Reconciliation.TouchedIff | orchestrator/orchestrator.go:383-450 | for a duplicate-free listing the changed flag is set exactly when the table differs afterwards |
| Scaling.LaunchState | orchestrator/scaler.go:40-210 | every launch happens with all tracked nodes ready and the cooldown over: a cold start with an empty table, a scale-out below the cap, a scale-down above the floor aimed at the largest tracked id |
| Scaling.LaunchesOneWay | orchestrator/scaler.go:40-196 | with a threshold that is not negative, or no count between floor and cap, no state and no timers make one tick launch both up and down |
| Scaling.LaunchFits | orchestrator/scaler.go:213-234 | a launched ScaleUp with a fresh id, run before anything else, is not refused by the table |
| Timers.RunningMeansWindow | orchestrator/scaler.go:146-152 | a running timer was armed by the first tick of a window that reaches to the present |
| Timers.FiringsTakeTime | orchestrator/scaler.go:186-189 | if each firing ends a window of its own as long as it needs, the ticks span the sum of what they needed |
| ScalingTraces.ScaleOutIff | orchestrator/scaler.go:64-118 | over every run of ticks, the N to N+1 path launches exactly when work is above the threshold, all of at least one and fewer than the cap of active nodes are ready, both checks allow it, and a window of the scale-up duration ends there whose first tick met those guards and whose ticks all saw work above the threshold or took the cold-start branch, with no such launch in it |
| ScalingTraces.ColdStartIff | orchestrator/scaler.go:45-62 | the 0 to 1 path launches exactly when there is work, no active node, and both checks allow it |
| ScalingTraces.UpTimerSteps | orchestrator/scaler.go:64-118 | a tick starts the scale-up timer exactly when all guards are met, so never with a node not ready, and stops it exactly on a launch or work at or below the threshold outside the cold-start branch |
| ScalingTraces.ScaleOutsTakeTime | orchestrator/scaler.go:64-110 | k such launches span at least k scale-up durations |
| ScalingTraces.ScaleDownIff | orchestrator/scaler.go:123-196 | over every run of ticks, a scale-down of the node read as target launches exactly when both checks pass and a window without a launch ends there in which every tick saw no work, a ready node and more active nodes than the floor: of the scale-down duration with several active nodes, of the scale-to-zero duration with one |
| ScalingTraces.IdleWindowsAreDisjoint | orchestrator/scaler.go:186-189 | of two launches the later one has a full idle window that starts after the earlier launch |
| ScalingTraces.ScaleDownsTakeTime | orchestrator/scaler.go:123-196 | the scale-downs of a run span the sum of the idle times required at each launch's own active count |
| Operations.ScaleUpIsAllOrNothing | orchestrator/scaler.go:213-244 | exactly when a ScaleUp is refused at the cap, fails to create, fails to track or adds; it tracks exactly the created id, provisioning and under its label, and records the event, or changes nothing and destroys what it created |
| Operations.ScaleDownEffect | orchestrator/scaler.go:292-351 | nothing changes when a check stops it, the node is left destroying when the destroy call fails, otherwise exactly that node goes; the active count falls by one or not at all |
| Operations.WhatBlocks | orchestrator/scaler.go:293-311 | which of unknown node, drain lock, cooldown and floor stops a scale-down, in that order, and exactly when none does |
| Operations.GivenUpEffect | orchestrator/scaler.go:254-259 | a waiter whose node did not come up takes it out of the table and changes nothing else |
| Operations.CameUpEffect | orchestrator/scaler.go:262-288 | field by field what a waiter leaves of a node that came up, and of the file |
| Operations.CameUpTooLate | orchestrator/scaler.go:263-266 | a waiter whose node is no longer tracked changes nothing |
| Operations.FailedListingStops | orchestrator/orchestrator.go:345-348 | a tick whose listing failed changes nothing and launches nothing |
| Operations.ReconcileWrites | orchestrator/orchestrator.go:445-450 | the file is rewritten exactly when a step of the pass changed the table and the write succeeds |
| Operations.UnchangedPassKeepsFile | orchestrator/orchestrator.go:445-450 | a pass that leaves the table as it is leaves the file as it is, however stale |
| Orchestrators.Orchestrator.constructor | orchestrator/orchestrator.go:76-83 | a new orchestrator tracks nothing, has no timers running and no recorded event |
| Orchestrators.Orchestrator.MayScale | orchestrator/scaler.go:11-29 | true exactly when no event was recorded or the cooldown has passed since |
| Orchestrators.Orchestrator.MayLaunch | orchestrator/scaler.go:83-90 | cooldown over and no tracked node in a transitional state |
| Orchestrators.Orchestrator.WriteTargets | orchestrator/discovery.go:18-75 | a successful write leaves the index of the current table in the file, a failed one leaves the file |
| Orchestrators.Orchestrator.EvaluateScaleUp | orchestrator/scaler.go:40-119 | timer and launch are the decision function of an atomic reading |
| Orchestrators.Orchestrator.EvaluateScaleDown | orchestrator/scaler.go:123-196 | timer and target are the decision function of an atomic reading |
| Orchestrators.Orchestrator.LaunchWhenIdle | orchestrator/scaler.go:146-196 | the part after the idle guards: timer, checks and pick |
| Orchestrators.Orchestrator.PickScaleDownTarget | orchestrator/scaler.go:198-210 | the largest id of the ready nodes, 0 for none |
| Orchestrators.Orchestrator.ScaleUp | orchestrator/scaler.go:213-244 | the whole new state, the outcome and the compensating destroy calls |
| Orchestrators.Orchestrator.WaitForNodeReady | orchestrator/scaler.go:247-289 | a node that came up gets its address and becomes ready; one that did not is removed with exactly one destroy call for it |
| Orchestrators.Orchestrator.BlockedBy | orchestrator/scaler.go:293-311 | which check stops a scale-down, in the order they are made |
| Orchestrators.Orchestrator.Drain | orchestrator/scaler.go:316-329 | both transitions happen or neither |
| Orchestrators.Orchestrator.ScaleDown | orchestrator/scaler.go:292-351 | the whole new state, the outcome and the destroy call |
| Orchestrators.Orchestrator.Refresh | orchestrator/orchestrator.go:402-421 | address and promotion of one tracked node, and whether it changed |
| Orchestrators.Orchestrator.MergeEntry | orchestrator/orchestrator.go:385-421 | one listing entry is one merge step; the result says whether the table changed |
| Orchestrators.Orchestrator.MergeListed | orchestrator/orchestrator.go:382-430 | the loop over the listing computes the merge, the seen ids, and whether any step changed the table |
| Orchestrators.Orchestrator.SweepUnlisted | orchestrator/orchestrator.go:432-443 | in any visiting order, exactly the unlisted non-provisioning nodes go |
| Orchestrators.Orchestrator.ReconcileWithCloud | orchestrator/orchestrator.go:376-453 | the reconcile function on the table, and a rewrite of the file exactly when something changed; a failed listing changes nothing |
| Orchestrators.Orchestrator.MonitorTick | orchestrator/orchestrator.go:345-369 | reconcile, then evaluate up, then down; a failed listing ends the tick |
| Orchestrators.Orchestrator.PlayRound | orchestrator/orchestrator.go:345-369 | a tick and whatever it launched, each operation run to its end and in either order: the new state and the recorded events |
| Orchestrators.Orchestrator.MonitorLoop | orchestrator/orchestrator.go:333-372 | any number of ticks, with the operations they launch and the waiters in between, compute the sequential schedule |
| TargetAgreement.AgreementIff | orchestrator/scaler.go:332-348 | with working writes an operation keeps the target file equal to the index exactly when it is not a scale-down with a failed destroy, or a failed waiter, on a node the file lists |
| TargetAgreement.AgreementWithoutWriteIff | orchestrator/scaler.go:286-348 | an operation whose write fails loses agreement exactly when it changes a listed node, by a condition on the table before it |
| TargetAgreement.ReconcileRestores | orchestrator/orchestrator.go:445-450 | whatever was lost, a reconcile that changes something and can write restores agreement |
| TargetAgreement.AgreementOverRuns | orchestrator/scaler.go:213-351 | over whole sequential runs with any write outcomes the file agrees after every operation exactly when none of those happened |
| Spacing.EventsAreSpaced | orchestrator/scaler.go:11-36 | in the sequential schedule any two recorded scale events are at least the cooldown apart, if no tick launches both ways or the ScaleUp of such a tick goes first |
| Spacing.DoubleLaunchTogether | orchestrator/scaler.go:99-195 | otherwise two rounds record two events at the same time: the ScaleDown first, then the ScaleUp |
| Spacing.SpacedIff | orchestrator/scaler.go:11-36 | so every sequential schedule keeps the distance exactly when there is no cooldown, the threshold is not negative, or no count lies strictly between floor and cap |
| Spacing.TwoEventsAtOnce | orchestrator/scaler.go:230-236 | for every configuration a run exists that records two events at the same time |
| Spacing.CooldownGateIff | orchestrator/scaler.go:11-36 | every run keeps its events the cooldown apart exactly when there is no cooldown |
| Spacing.EventsNeedListings | orchestrator/orchestrator.go:345-348 | the events of a schedule are those of its rounds in order, and a round whose listing failed has none |
| Spacing.UnlistedSchedule | orchestrator/orchestrator.go:345-348 | while listings fail, waiters are all that changes anything |
| Convergence.QuietRoundIsRound | orchestrator/orchestrator.go:333-372 | the quiet rounds of the next rows are rounds of the sequential schedule |
| Convergence.QuietTick | orchestrator/orchestrator.go:333-372 | with no work and an accurate listing a tick launches nothing but the due scale-down of the largest id |
| Convergence.QuietRoundIs | orchestrator/scaler.go:123-351 | such a round removes exactly the largest id when due and unlocked, and otherwise only moves the timer |
| Convergence.ShrinksInTime | orchestrator/scaler.go:123-351 | for every drain-lock pattern, an idle fleet never falls below its stopping size (the floor, or as many ids as are at or below a locked one) and is down to any k above it once the longer of idle requirement and cooldown plus two monitor intervals has passed for each node; the last one takes the scale-to-zero requirement |
| Convergence.BudgetIs | orchestrator/scaler.go:154-159 | the time allowed for the last node is that of the scale-to-zero duration, for every other one that of the scale-down duration |
| Convergence.LastNodeGoes | orchestrator/scaler.go:154-196 | the 1 to 0 step happens once the longer of scale-to-zero duration and cooldown plus two intervals has passed, and not before the scale-to-zero duration |
| Convergence.ReachesTheFloorIff | orchestrator/scaler.go:198-302 | after that time the fleet is at the floor exactly when no locked id has more than the floor's number of ids at or below it; otherwise it never is |
| Convergence.StoppedStays | orchestrator/scaler.go:198-311 | at its stopping size a fleet loses no node and records no event |
| Convergence.FloorIsStable | orchestrator/scaler.go:126-131 | at the floor, quiet runs change neither the tracked nodes nor the recorded events |
| Convergence.LockedTopStopsAll | orchestrator/scaler.go:198-302 | while the largest id is drain-locked no quiet run removes any node |
| SystemInvariants.TableIsReplay | orchestrator/statemachine.go:39-134 | from any point of any run on, the table is the replay of the locked calls made since |
| SystemInvariants.LifecycleOverRuns | orchestrator/statemachine.go:20-107 | on every run and from any point on, as long as a node stays tracked its rank never falls, it changes state at most three times, and its ready time is written at most once |
| SystemInvariants.CapHolds | orchestrator/statemachine.go:54-63 | on every interleaving at most MaxNodes entries are tracked and ready times are in order |
| SystemInvariants.HistoryOverRuns | orchestrator/scaler.go:31-196 | on every interleaving the timers are what the readings so far make of them and the last event is the last recorded one |
| SystemInvariants.LaunchesTakeTime | orchestrator/scaler.go:40-196 | on every interleaving k scale-outs take k durations and scale-downs the idle time each required |
| SystemInvariants.CooldownHolds | orchestrator/scaler.go:11-36 | on every interleaving each passed check is at least the cooldown after every event recorded before it |
| Triggers.ReadingIs | orchestrator/scaler.go:40-196 | an evaluation reads the counts by state, the cooldown, the in-progress test and the largest ready id of the table as it is |
| Triggers.LaunchesOverRuns | orchestrator/scaler.go:40-196 | on every run and at every evaluation, exactly when a ScaleDown and when a ScaleUp goroutine is started, in terms of the run's own readings, and at which node |
| Triggers.NoDoubleLaunchIff | orchestrator/scaler.go:40-196 | no run has a tick that launches both up and down exactly when the threshold is not negative or no count lies strictly between floor and cap |
| Triggers.ContinuityIff | orchestrator/scaler.go:45-62 | every scale-out of every run has work above the threshold at every tick of its window exactly when the threshold is not positive or the cap is below two |
| Leaks.StepLeaksIff | orchestrator/scaler.go:213-351 | a step loses a created instance exactly when the removal loop drops a node whose instance is alive and not otherwise accounted for |
| Leaks.NoLeakOverRuns | orchestrator/orchestrator.go:432-443 | on every run, creations during passes included, whose listings omit live created instances only while untracked or provisioning and in which no node unknown to a pass leaves provisioning during it, each live created instance is tracked, held by its ScaleUp, or had a failed destroy call |
| Leaks.QuiescentInstancesAreCapped | orchestrator/orchestrator.go:376-453 | so with nothing running and no failed destroy, the live created instances of such a run are tracked and at most MaxNodes |
| Floor.GuardOverRuns | orchestrator/scaler.go:292-330 | on runs in which no node a ScaleDown counts on is lost and none is launched while a tracked node is being given up on, every ScaleDown under way leaves the floor's worth of smaller, unaimed, undoomed active nodes |
| Floor.FloorBreaksIff | orchestrator/scaler.go:247-351 | in such states a step takes the fleet below the floor exactly when the fleet is at or below it and the step is a sweep of an active node or a failed waiter's |
| Floor.FloorHolds | orchestrator/scaler.go:292-351 | the same for any next step of any such run, with any number of ScaleDowns under way: none of theirs ever breaks the floor |
| Floor.FloorIsKept | orchestrator/scaler.go:308-311 | on every run, once the floor was reached, the active count is never further below it than nodes were swept while active or given up on |
| Stall.ScaleUpsOverlap | orchestrator/scaler.go:224-236 | for every configuration a run exists with two ScaleUps under way |
| Stall.FailedNodeBreaksFloor | orchestrator/scaler.go:254-259 | for every positive floor a run exists with the fleet exactly at the floor in which a failed waiter's step leaves one node less |
| Stall.SweepBreaksFloor | orchestrator/orchestrator.go:432-443 | and one in which a step of the removal loop does |
| Stall.ScaleDownBreaksFloor | orchestrator/scaler.go:308-327 | with a positive floor and room above it, a run exists in which a ScaleDown past its check takes the fleet from the floor to one below |
| Stall.ScaleDownBreaksFloorIff | orchestrator/scaler.go:308-327 | some run has a ScaleDown step below the floor exactly for those configurations |
| Stall.LaggingListingLeaks | orchestrator/orchestrator.go:432-443 | for every configuration a run exists in which the removal loop loses a live instance that ScaleUp created |
| Stall.RaceOrphansNode | orchestrator/scaler.go:230-234 | for every configuration a run exists that ends with an orphaned provisioning entry |
| Stall.OrphanStallsForever | orchestrator/orchestrator.go:436-439 | while listings name only live instances such an entry stays and nothing is ever launched again |
| Stall.FailedDestroyStrands | orchestrator/scaler.go:333-335 | with room between floor and cap a run exists in which a failed destroy call leaves a destroying entry nobody will touch |
| Stall.StrandingIff | orchestrator/scaler.go:292-335 | some run strands a node exactly when there is such room |
| Stall.StrandedStallsForever | orchestrator/statemachine.go:199-209 | while the cloud lists it, it stays and nothing is ever launched again |
| Solo.RunAloneIs | orchestrator/scaler.go:213-351 | a goroutine that runs alone changes table, last event and its own place only |
| Solo.SoloScaleUp | orchestrator/scaler.go:213-244 | the steps of a ScaleUp alone are the ScaleUp operation |
| Solo.SoloWaiter | orchestrator/scaler.go:247-289 | the steps of a waiter alone are the waiting operation |
| Solo.SoloScaleDown | orchestrator/scaler.go:292-351 | the steps of a ScaleDown alone are the ScaleDown operation |
| Solo.PassIs | orchestrator/orchestrator.go:376-443 | the steps of a pass alone are the reconcile function, whatever the order of its visits |
| Solo.SoloTick | orchestrator/orchestrator.go:333-372 | the steps of a tick alone give the table, timers and launches of the tick operation |
| CloudCalls.RunAloneCalls | orchestrator/scaler.go:213-351 | a goroutine alone leaves exactly the instances and failed destroys that its calls make |
| CloudCalls.WaiterCalls | orchestrator/scaler.go:248-258 | a waiter destroys its node exactly if it does not come up, once |
| CloudCalls.WaiterDestroys | orchestrator/scaler.go:254-257 | the waiting operation reports exactly the destroy calls of the waiter's steps |
| CloudCalls.GivenUpIsAccountedFor | orchestrator/scaler.go:254-259 | a waiter alone that gives up leaves its instance dead or known to have resisted a destroy call; one whose node came up leaves the cloud as it was |
| CloudCalls.ScaleUpCalls | orchestrator/scaler.go:214-234 | a ScaleUp creates nothing at the cap, and destroys what it created exactly when the table does not take it |
| CloudCalls.ScaleUpDestroys | orchestrator/scaler.go:230-234 | the ScaleUp operation reports exactly the destroy calls of the steps |
| CloudCalls.ScaleDownDestroys | orchestrator/scaler.go:333-335 | the ScaleDown operation reports exactly the destroy calls of the steps |
| Lease.EffectiveBelowAckWaitIff | nats-agent/agent.go:190-205 | after both adjustments the interval is below the ack wait exactly when the ack wait is above one second, or above five with no interval configured |
| Lease.EffectiveIs | nats-agent/agent.go:190-468 | the interval in use in each case: kept, a third of the ack wait, one second at least, or five seconds for none |
| Lease.AdjustedIs | nats-agent/agent.go:190-205 | on subscribing only an interval not below the ack wait is changed, to a third of it or a second |
| Lease.OwnedForever | nats-agent/agent.go:461-503 | if an interval leaves room for a number of missed heartbeats in a row, a handler keeps its message for any handling time |
| Lease.OwnedForeverIff | nats-agent/agent.go:461-503 | with every heartbeat answered, ownership lasts for every handling time exactly when the interval is below the ack wait |
| Lease.AgentKeepsMessageIff | nats-agent/agent.go:190-503 | the interval the agent ends up with keeps a message for any handling time exactly under the two bounds above |
| Lease.AdjustedSurvivesIsolatedFailures | nats-agent/agent.go:193-204 | an adjusted interval also survives isolated failed heartbeats when the ack wait is at least three seconds |
| Handling.LastAttemptIff | nats-agent/agent.go:306-387 | the handler stops at the earliest reply with a status in 200..299 or 400..499 (sections 15.3 and 15.5 of RFC 9110) or after max(1, MaxDeliver) attempts, and nowhere else |
| Handling.SettlesOnce | nats-agent/agent.go:259-410 | exactly one of: an ack after a last reply in 200..299, a dead letter and then an ack, or a negative ack; and how many forwards |
| Handling.CountersAgree | nats-agent/agent.go:259-410 | each counter rises by exactly the calls it stands for |
| Handling.AcksAreEarned | nats-agent/agent.go:337-410 | every ack comes right after a reply with a status in 200..299 or a stored dead letter |
| Handling.HandleOrder | nats-agent/agent.go:259-410 | all calls of a handler in order: which branch when, each forward with its reply, and how it ends |
| Handling.DeadLetterOrder | nats-agent/agent.go:389-400 | the dead letter first, the ack only if it was stored, otherwise the message is given back |
| Handling.NakOrder | nats-agent/agent.go:452-459 | with a retry delay the delayed negative ack first and the plain one only if it fails; without one only the plain one |
| Handling.ForwardTimeBound | nats-agent/agent.go:313-387 | with a client timeout, n attempts take at most n timeouts and n - 1 pauses |
| Handling.ForwardTimeIs | nats-agent/agent.go:313-387 | the forward phase takes what its attempts took and one pause between any two |
| Agents.Agent.constructor | nats-agent/agent.go:65-80 | at least one slot, and as many as configured when that is positive |
| Agents.Agent.Subscribe | nats-agent/agent.go:172-216 | the interval is adjusted only when binding succeeded and the consumer could be read |
| Agents.Agent.Heartbeat | nats-agent/agent.go:461-503 | the heartbeat loop leaves the lease that the beats within the handling time give, at the clamped interval |
| Agents.Agent.Nak | nats-agent/agent.go:452-459 | a delayed negative ack when configured, a plain one when that fails or is not |
| Agents.Agent.RejectInvalid | nats-agent/agent.go:281-300 | invalid input: calls made and counters |
| Agents.Agent.GiveUp | nats-agent/agent.go:389-410 | undeliverable input: calls made and counters |
| Agents.Agent.ForwardWithRetries | nats-agent/agent.go:306-387 | the retry loop makes exactly the forwards up to the deciding attempt, counts the failed ones, and takes the stated time |
| Agents.Agent.ProcessMessage | nats-agent/agent.go:259-410 | all calls the handler itself makes, in order, and all counters, as functions of the answers |
| Delivery.StepsRefineHandle | nats-agent/agent.go:259-410 | the small steps of a handler, left alone, make exactly the calls of the whole handler |
| Delivery.NoJobIsLost | nats-agent/agent.go:259-410 | on every run of any number of agents with crashes, redelivery, late and lost acks and failed calls, every published job is queued, got a reply with a status in 200..299, or is in the dead-letter queue, and acks are only issued after one of the last two |
| Delivery.AcksOnly2xx | nats-agent/agent.go:335-341 | a forward leads to an ack exactly if its reply has a status in 200..299 |
| Delivery.AckedJobLeaves | orchestrator/orchestrator.go:201-206 | an ack that reaches the server takes its job, and no other, out of the queue |
| Delivery.SlotsAndCountersHold | nats-agent/agent.go:218-257 | on every interleaving slots held are those of unreleased handlers plus the fetching loop's, within the configured number; received messages are counted once or still handled; the wait group counts handlers; a handler started after shutdown only gives back |
| Delivery.ZeroMeansSettled | nats-agent/agent.go:539-552 | at wait group zero every message received so far is settled and counted and no handler holds a slot |
| Delivery.DrainedIff | nats-agent/agent.go:106-119 | at wait group zero no further handler can start exactly when the fetch loop has ended, or the drain has gone through and no fetch from before it is open |
| Delivery.OpenAfterDrain | nats-agent/agent.go:106-119 | a run gets to wait group zero with the subscription drained and such a fetch open |
| Exclusive.TimedRunIsRun | nats-agent/agent.go:172-216 | a run with time and leases is a run of the delivery system, so all of the above holds of it |
| Exclusive.OneHandlerOverRuns | nats-agent/agent.go:461-503 | when interval and start-up delay of the heartbeat fit into the ack wait, on every timed run of any number of agents each unsettled handler's lease outlasts its next heartbeat and no job is with two handlers |
| Exclusive.TwoHandlers | nats-agent/agent.go:461-503 | when they do not, a run hands one job to two agents |
| Exclusive.OneHandlerIff | nats-agent/agent.go:302-503 | so no job is ever with two handlers at once exactly when the effective interval plus that delay is below the ack wait |
| Exclusive.OneHandlerAtOnceIff | nats-agent/agent.go:190-205 | without delay: exactly when the ack wait is above one second, or five with no interval configured |

## Left out

- SystemInvariants.TableIsReplay: fields read through a shared node pointer outside the lock (the drain lock before a
  scale-down, address and state in the merge loop) may give either answer; data races below that are not modelled.
- SystemInvariants.HistoryOverRuns: an evaluation tick is one step, as are one visit of the removal loop and one merge-loop call.
- Spacing.EventsAreSpaced: a sequential operation reads the clock once, or once more after its destroy call, not at every line.
- Leaks.NoLeakOverRuns: listings name only ids that exist or have existed; instances the orchestrator did not create are not accounted for.
- Reconciliation.ReconcileIsExpected: a listing names no id twice, as instances have unique ids; the class method computes the two loops for any listing.
- Reconciliation.OnePassIff: starts from a table within the cap, which `SystemInvariants.CapHolds` shows of every reachable one.
- Interleaving.Skip: a pass without an evaluation stands for the one at startup (`orchestrator/orchestrator.go:100-103`).
- Delivery.NoJobIsLost: redelivery is allowed at any time, which covers lease expiry, negative acks and any delivery limit; that the server may stop redelivering a job that stays in the queue is not distinguished.
- Lease.OwnedForever: heartbeats are on time and reach the server at once; network delay is not modelled.
- Delivery.DrainedIff: that a fetch begun after the subscription's Drain yields no message is taken from the client library.
- Exclusive.OneHandlerIff: heartbeats are on time and succeed, handlers without one (shutdown, invalid input) settle within the delay and an interval, a negative ack that fails has not reached the server, and all agents share one configuration whose consumer could be read.
- Agents.Agent.ProcessMessage: the InProgress calls made beside it by the heartbeat are not among its events; `Agents.Agent.Heartbeat` has them.
- Agents.Agent: the fetch loop's slot channel and wait group are steps of `Delivery` and not fields of the class.
- Drain timeout: running out of it ends the process, which is a crash step.
- NATS and Linode clients, stream and consumer set-up, the fallbacks of the queue query: the observed amount of pending work is an input.
- Target-file writes in the interleaved system: the file is followed in the sequential schedule only.
- Context cancellation of cloud calls and waiters, beyond a call that fails.
- HTTP servers, health checks, Prometheus gauges and histograms, log text, failure reasons, JSON and base64, environment parsing.
- `FindNodeByIP`, the API gateway and the AI processor: single look-ups and thin handlers.
