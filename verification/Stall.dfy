/**
 * Runs that contradict what one might expect of the system: overlapping scale operations, a fleet
 * below the floor, and a race after which nothing is ever scaled again.
 */
module Stall {
  import opened Common
  import opened Counting
  import opened Nodes
  import opened Scaling
  import opened Reconciliation
  import opened Interleaving
  import opened SystemInvariants
  import opened Leaks
  import opened Floor
  import opened Solo
  import opened Reaching
  import Operations

  /** One tick over an empty table and an empty listing, with work waiting: it launches a cold start. */
  lemma ColdTick(cfg: Config, s: Sys, up: nat) returns (s': Sys)
    requires Loaded(cfg) && Reachable(cfg, s)
    requires s.mon == Waiting && s.nodes == map[] && s.lastEvent == None && up !in s.tasks && up + 1 !in s.tasks
    ensures Reachable(cfg, s')
    ensures s'.mon == Waiting && s'.nodes == map[] && s'.lastEvent == None && s'.tasks == s.tasks[up := UpStart]
    ensures s'.live == s.live && s'.used == s.used && s'.created == s.created && s'.failed == s.failed
    ensures s'.clock == s.clock
    ensures s'.upSince == s.upSince && s'.events == s.events
  {
    NobodyTracked(cfg, s.clock);
    s' := TickReached(cfg, s, [], 1, up, up + 1);
  }

  lemma NobodyTracked(cfg: Config, now: int)
    ensures Reconcile(map[], cfg.maxNodes, [], now) == map[] && Ids([]) == {}
    ensures Read(cfg, map[], None, 1, now) == Reading(now, 1, 0, 0, true, false, 0)
  {
    var m: NodeMap := map[];
    assert !InProgress(m);
    AllReadyCounts(m);
  }

  /**
   * "Only one scale operation runs at a time" fails for every configuration: until CreateGPUNode
   * has returned, a ScaleUp is invisible to the in-progress guard, and the next tick starts another.
   */
  lemma ScaleUpsOverlap(cfg: Config) returns (s: Sys)
    requires Loaded(cfg)
    ensures Reachable(cfg, s) && s.tasks == map[0 := UpStart, 2 := UpStart]
  {
    StartIsReachable(cfg);
    var first := ColdTick(cfg, START, 0);
    s := ColdTick(cfg, first, 2);
    assert s.tasks == map[0 := UpStart, 2 := UpStart];
  }

  lemma OnlyTask(cfg: Config, s: Sys, t: Task, e: Effect)
    requires s.tasks == map[0 := t]
    ensures ApplyEffect(cfg, s, 0, e).tasks == if e.next.Some? then map[0 := e.next.value] else map[]
  {
    assert s.tasks - {0} == map[];
  }

  /** The only task takes its next step. */
  lemma OnlyTaskSteps(cfg: Config, s: Sys, t: Task, a: Answer, e: Effect) returns (s': Sys)
    requires Reachable(cfg, s) && s.tasks == map[0 := t] && e == TaskEffect(cfg, s, t, a)
    requires t == UpCreate && a.ok ==> a.id !in s.used
    ensures Enabled(cfg, s, Run(0, a)) && Reachable(cfg, s')
    ensures s' == Apply(cfg, s, Run(0, a)) == ApplyEffect(cfg, s, 0, e)
    ensures s'.tasks == if e.next.Some? then map[0 := e.next.value] else map[]
  {
    StepIsReachable(cfg, s, Run(0, a));
    s' := Apply(cfg, s, Run(0, a));
    OnlyTask(cfg, s, t, e);
  }

  /** A step that only makes a locked call, or none, and goes on. */
  lemma OnlyTaskCalls(cfg: Config, s: Sys, t: Task, a: Answer, op: Option<NodeOp>, next: Option<Task>) returns (s': Sys)
    requires Reachable(cfg, s) && s.tasks == map[0 := t] && t != UpCreate
    requires TaskEffect(cfg, s, t, a) == Effect(op, next, None, None, None, false, false)
    ensures Enabled(cfg, s, Run(0, a)) && Reachable(cfg, s') && s' == Apply(cfg, s, Run(0, a))
    ensures s' == s.(nodes := Perform(cfg, s, op), tasks := if next.Some? then map[0 := next.value] else map[])
  {
    s' := OnlyTaskSteps(cfg, s, t, a, TaskEffect(cfg, s, t, a));
    assert (s.live + {}) - {} == s.live && s.used + {} == s.used && s.created + {} == s.created
        && s.failed + {} == s.failed;
  }

  /** A cold start carried on until its instance exists and is about to be tracked. */
  lemma ColdCreate(cfg: Config) returns (s: Sys)
    requires Loaded(cfg)
    ensures Reachable(cfg, s)
    ensures s.mon == Waiting && s.nodes == map[] && s.lastEvent == None && s.clock == 0
    ensures s.tasks == map[0 := UpTrack(1)] && s.live == {1} && s.used == {1} && s.created == {1} && s.failed == {}
    ensures s.upSince == None && s.events == []
  {
    StartIsReachable(cfg);
    var s0 := ColdTick(cfg, START, 0);
    CountAtMost(s0.nodes, IsActive);
    var s1 := OnlyTaskSteps(cfg, s0, UpStart, Answer(true, 1, ""), Goto(UpCreate));
    s := OnlyTaskSteps(cfg, s1, UpCreate, Answer(true, 1, ""), Goto(UpTrack(1)).(born := Some(1)));
  }

  /** And further, until its node is tracked and waited for. */
  lemma ColdTrack(cfg: Config) returns (s: Sys)
    requires Loaded(cfg)
    ensures Reachable(cfg, s) && s.mon == Waiting && s.clock == 0
    ensures s.nodes == map[1 := Fresh("", 0)] && s.tasks == map[0 := WaitPoll(1)]
    ensures s.live == {1} && s.used == {1} && s.created == {1} && s.failed == {}
  {
    var any := Answer(true, 0, "");
    var s0 := ColdCreate(cfg);
    var s1 := OnlyTaskCalls(cfg, s0, UpTrack(1), any, Some(AddNode(1, "")), Some(UpRecord(1)));
    assert s1.nodes == map[1 := Fresh("", 0)];
    s := OnlyTaskSteps(cfg, s1, UpRecord(1), any, Goto(WaitPoll(1)).(record := true));
  }

  // -------------------------------------------------------------- below the floor

  /** Nodes 1..n, all provisioning. */
  function Booting(n: nat): NodeMap {
    map id | id in UpTo(n) :: Fresh("", 0)
  }

  lemma BootingCounts(n: nat)
    requires n >= 1
    ensures ActiveCount(Booting(n)) == n
    ensures ActiveCount(Booting(n)[1 := Enter(Booting(n)[1], Destroying, 0)]) == n - 1
  {
    var m := Booting(n);
    UpToSize(n);
    assert m.Keys == UpTo(n);
    assert |m| == |m.Keys|;
    CountAtMost(m, IsActive);
    assert forall id :: id in m ==> IsActive(m[id]);
    CountPut(m, 1, Enter(m[1], Destroying, 0), IsActive);
  }

  /** The node of a cold start and n - 1 others, all booting, with the waiter about to answer. */
  lemma BootingReached(cfg: Config, n: nat) returns (s: Sys)
    requires Loaded(cfg) && 1 <= n <= cfg.maxNodes
    ensures Reachable(cfg, s) && s.nodes == Booting(n) && s.tasks == map[0 := WaitPoll(1)] && s.clock == 0
  {
    var s0 := ColdTrack(cfg);
    assert UpTo(1) == {1};
    var s1 := AppearReached(cfg, s0, 1, n);
    ListingIds(n, "booting");
    s := PassReached(cfg, s1, Listing(n, "booting"));
    PassAdopts(s1.nodes, cfg.maxNodes, n, "booting", 0);
    assert s.nodes == Booting(n);
  }

  /**
   * "Scaling never goes below the floor" fails for every positive floor: there is a run that has
   * the fleet exactly at the floor when a node does not come up, and that node is taken out
   * whatever the floor says.
   */
  lemma FailedNodeBreaksFloor(cfg: Config) returns (before: Sys, a: Action)
    requires Loaded(cfg) && cfg.minNodes >= 1
    ensures Reachable(cfg, before) && Enabled(cfg, before, a) && a.Run? && before.tasks[a.tid].WaitFail?
    ensures ActiveCount(before.nodes) == cfg.minNodes
    ensures ActiveCount(Apply(cfg, before, a).nodes) == cfg.minNodes - 1
  {
    var no := Answer(false, 0, "");
    a := Run(0, no);
    var s := BootingReached(cfg, cfg.minNodes);
    before := OnlyTaskCalls(cfg, s, WaitPoll(1), no, None, Some(WaitFail(1)));
    var after := OnlyTaskCalls(cfg, before, WaitFail(1), no, Some(TransitionNode(1, Destroying)), Some(WaitDestroy(1)));
    assert after.nodes == before.nodes[1 := Enter(before.nodes[1], Destroying, 0)];
    BootingCounts(cfg.minNodes);
  }

  /** A pass over an empty listing, as far as its first removal. */
  lemma SweepBegun(cfg: Config, s: Sys) returns (s': Sys)
    requires Reachable(cfg, s) && s.mon.Waiting?
    ensures Reachable(cfg, s') && s' == s.(mon := Sweeping({}, s.nodes.Keys))
  {
    assert Ids([]) == {};
    StepIsReachable(cfg, s, List([]));
    var s1 := Apply(cfg, s, List([]));
    StepIsReachable(cfg, s1, MergeDone);
    s' := Apply(cfg, s1, MergeDone);
  }

  /** It also fails by a sweep: instances that are no longer listed go, however few are left. */
  lemma SweepBreaksFloor(cfg: Config) returns (before: Sys, a: Action)
    requires Loaded(cfg) && cfg.minNodes >= 1
    ensures Reachable(cfg, before) && Enabled(cfg, before, a) && a.Sweep?
    ensures ActiveCount(before.nodes) == cfg.minNodes
    ensures ActiveCount(Apply(cfg, before, a).nodes) == cfg.minNodes - 1
  {
    var n := cfg.minNodes;
    StartedReached(cfg, n);
    before := SweepBegun(cfg, Started(n));
    a := Sweep(1);
    AdopteesCount(n);
    CountDrop(before.nodes, 1, IsActive);
  }

  /**
   * And a listing that lags behind loses an instance: the sweep forgets a node that ScaleUp created
   * and that is alive.
   */
  lemma LaggingListingLeaks(cfg: Config) returns (before: Sys, a: Action)
    requires Loaded(cfg)
    ensures Reachable(cfg, before) && Enabled(cfg, before, a) && Loses(before, a)
    ensures Leaked(Apply(cfg, before, a), 1)
  {
    var s := ColdReady(cfg);
    before := SweepBegun(cfg, s);
    a := Sweep(1);
  }

  /** A cold start carried through: its node is ready and nothing runs. */
  lemma ColdReady(cfg: Config) returns (s: Sys)
    requires Loaded(cfg)
    ensures Reachable(cfg, s) && s.mon == Waiting && s.tasks == map[]
    ensures s.nodes == map[1 := Enter(Fresh("", 0), Ready, 0)]
    ensures s.live == {1} && s.used == {1} && s.created == {1} && s.failed == {}
  {
    var s0 := ColdTrack(cfg);
    s := WaiterComesUp(cfg, s0);
  }

  lemma WaiterComesUp(cfg: Config, s0: Sys) returns (s: Sys)
    requires Reachable(cfg, s0) && s0.tasks == map[0 := WaitPoll(1)] && s0.nodes == map[1 := Fresh("", 0)]
    requires s0.clock == 0
    ensures Reachable(cfg, s) && s == s0.(nodes := map[1 := Enter(Fresh("", 0), Ready, 0)], tasks := map[])
  {
    var yes := Answer(true, 0, "");
    var s1 := OnlyTaskCalls(cfg, s0, WaitPoll(1), yes, None, Some(WaitAddress(1, "")));
    s := AddressAndReady(cfg, s1);
  }

  lemma AddressAndReady(cfg: Config, s1: Sys) returns (s: Sys)
    requires Reachable(cfg, s1) && s1.tasks == map[0 := WaitAddress(1, "")] && s1.nodes == map[1 := Fresh("", 0)]
    requires s1.clock == 0
    ensures Reachable(cfg, s) && s == s1.(nodes := map[1 := Enter(Fresh("", 0), Ready, 0)], tasks := map[])
  {
    var yes := Answer(true, 0, "");
    ComingUp(cfg.maxNodes);
    var s2 := OnlyTaskCalls(cfg, s1, WaitAddress(1, ""), yes, Some(SetNodeIP(1, "")), Some(WaitReady(1)));
    s := OnlyTaskCalls(cfg, s2, WaitReady(1), yes, Some(TransitionNode(1, Ready)), None);
  }

  lemma ComingUp(cap: int)
    ensures var m := map[1 := Fresh("", 0)];
            && Try(m, cap, SetNodeIP(1, ""), 0) == Some(m)
            && Try(m, cap, TransitionNode(1, Ready), 0) == Some(map[1 := Enter(Fresh("", 0), Ready, 0)])
  {
    var m := map[1 := Fresh("", 0)];
    assert m[1 := m[1].(ipv4 := "")] == m;
    assert m[1 := Enter(m[1], Ready, 0)] == map[1 := Enter(Fresh("", 0), Ready, 0)];
  }

  // -------------------------------------------------------------- a race that stops everything

  /** A provisioning entry whose instance is gone and that no goroutine or pass will touch. */
  ghost predicate Orphaned(s: Sys, id: int) {
    && id in s.nodes && s.nodes[id].state == Provisioning && id in s.used && id !in s.live
    && (forall tid :: tid in s.tasks ==> !Mentions(s.tasks[tid], id))
    && (s.mon.Merging? ==> id !in Ids(s.mon.rest))
  }

  /** Listings name only live instances. */
  ghost predicate ListsLive(s: Sys, a: Action) {
    a.List? ==> Ids(a.listing) <= s.live
  }

  lemma OrphanTaskStep(cfg: Config, s: Sys, a: Action, id: int)
    requires Orphaned(s, id) && Enabled(cfg, s, a) && a.Run?
    ensures Orphaned(Apply(cfg, s, a), id)
  {
    var t := s.tasks[a.tid];
    var e := TaskEffect(cfg, s, t, a.answer);
    assert !Mentions(t, id);
    Leaks.SuccessorId(cfg, s, t, a.answer);
    BornIsFresh(cfg, s, t, a.answer);
    var s' := Apply(cfg, s, a);
    OtherEntriesStay(cfg, s, e.op, id);
    forall tid | tid in s'.tasks ensures !Mentions(s'.tasks[tid], id) {
      if tid != a.tid {
        assert s'.tasks[tid] == s.tasks[tid];
      }
    }
  }

  lemma BornIsFresh(cfg: Config, s: Sys, t: Task, a: Answer)
    ensures TaskEffect(cfg, s, t, a).born.Some? ==> t == UpCreate && a.ok && TaskEffect(cfg, s, t, a).born.value == a.id
  {
  }

  lemma OtherEntriesStay(cfg: Config, s: Sys, op: Option<NodeOp>, id: int)
    requires id in s.nodes && (op.Some? ==> op.value.id != id)
    ensures id in Perform(cfg, s, op) && Perform(cfg, s, op)[id] == s.nodes[id]
  {
  }

  /** While a provisioning node is tracked, no tick launches anything. */
  lemma ProvisioningBlocks(cfg: Config, s: Sys, pending: int, id: int)
    requires id in s.nodes && s.nodes[id].state == Provisioning
    ensures var r := SysReading(cfg, s, pending);
            DecideUp(cfg, s.upSince, r).launch == NoLaunch && DecideDown(cfg, s.downSince, r).target == None
  {
    assert InProgress(s.nodes);
  }

  lemma OrphanStep(cfg: Config, s: Sys, a: Action, id: int)
    requires Orphaned(s, id) && Enabled(cfg, s, a) && ListsLive(s, a) && !a.Run?
    ensures Orphaned(Apply(cfg, s, a), id) && Apply(cfg, s, a).tasks == s.tasks
  {
    match a {
      case Evaluate(pending, _, _) => ProvisioningBlocks(cfg, s, pending, id);
      case Merge(_) =>
        RestSplits(s.mon.rest);
        OtherEntriesStay(cfg, s, OpOf(cfg, s, a), id);
      case _ =>
    }
  }

  ghost predicate ListsLiveSince(cfg: Config, acts: seq<Action>, n: nat)
    requires IsRun(cfg, acts)
  {
    |acts| > n ==>
      var init := acts[..|acts| - 1];
      ListsLiveSince(cfg, init, n) && ListsLive(Exec(cfg, init), acts[|acts| - 1])
  }

  /**
   * Once an entry is orphaned it stays, and no scale operation is ever launched again, as long as
   * listings name only live instances.
   */
  lemma {:induction false} OrphanStallsForever(cfg: Config, acts: seq<Action>, n: nat, id: int)
    requires IsRun(cfg, acts) && n <= |acts| && ListsLiveSince(cfg, acts, n)
    requires IsRun(cfg, acts[..n]) && Orphaned(Exec(cfg, acts[..n]), id)
    ensures Orphaned(Exec(cfg, acts), id)
    ensures Exec(cfg, acts).tasks.Keys <= Exec(cfg, acts[..n]).tasks.Keys
  {
    if n == |acts| {
      assert acts[..n] == acts;
    } else {
      var init, last := acts[..|acts| - 1], acts[|acts| - 1];
      assert init[..n] == acts[..n];
      OrphanStallsForever(cfg, init, n, id);
      if last.Run? {
        OrphanTaskStep(cfg, Exec(cfg, init), last, id);
      } else {
        OrphanStep(cfg, Exec(cfg, init), last, id);
      }
    }
  }

  /** A pass over a listing of the one booting instance, as far as the end of its merge loop. */
  lemma MergeBooting(cfg: Config, s: Sys) returns (s': Sys)
    requires Loaded(cfg) && Reachable(cfg, s) && s.mon == Waiting && s.nodes == map[] && s.clock == 0 && s.used == {1}
    ensures Reachable(cfg, s')
    ensures s' == s.(mon := Merging([], {1}, Look), nodes := map[1 := Fresh("", 0)])
  {
    var cn := CloudNode(1, "", "", "booting");
    assert Ids([cn]) == {1};
    StepIsReachable(cfg, s, List([cn]));
    MergeReached(cfg, Apply(cfg, s, List([cn])));
    MergeFromTheStart(cfg, s, [cn]);
    MergeOneMore(map[], cfg.maxNodes, [], cn, 0);
    assert [] + [cn] == [cn];
    s' := MergeAll(cfg, Apply(cfg, s, List([cn])));
  }

  /**
   * And such an entry is reachable for every configuration: a reconcile that lists the new instance
   * between its creation and its tracking makes ScaleUp believe it is a duplicate and destroy it.
   */
  lemma RaceOrphansNode(cfg: Config) returns (s: Sys)
    requires Loaded(cfg)
    ensures Reachable(cfg, s) && Orphaned(s, 1) && s.tasks == map[]
  {
    var s0 := ColdCreate(cfg);
    var s1 := MergeBooting(cfg, s0);
    var s2 := OnlyTaskSteps(cfg, s1, UpTrack(1), Answer(true, 0, ""), Calls(AddNode(1, ""), Some(UpUndo(1))));
    s := OnlyTaskSteps(cfg, s2, UpUndo(1), Answer(true, 0, ""), Destroys(1, true, None));
  }

  // -------------------------------------------------------------- a destroy call that fails

  /** A destroying entry that no goroutine will touch again and that no pass will sweep. */
  ghost predicate Stranded(s: Sys, id: int) {
    && id in s.nodes && s.nodes[id].state == Destroying && id in s.used
    && (forall tid :: tid in s.tasks ==> !Mentions(s.tasks[tid], id))
    && (s.mon.Merging? ==> id in s.mon.seen || id in Ids(s.mon.rest))
    && (s.mon.Merging? && s.mon.stage != Look && s.mon.rest != [] ==> s.mon.rest[0].id in s.mon.seen)
    && (s.mon.Sweeping? ==> id in s.mon.seen)
  }

  /** The cloud goes on listing the instance that resisted. */
  ghost predicate Lists(a: Action, id: int) {
    a.List? ==> id in Ids(a.listing)
  }

  lemma StrandedTaskStep(cfg: Config, s: Sys, a: Action, id: int)
    requires Stranded(s, id) && Enabled(cfg, s, a) && a.Run?
    ensures Stranded(Apply(cfg, s, a), id)
  {
    var t := s.tasks[a.tid];
    var e := TaskEffect(cfg, s, t, a.answer);
    assert !Mentions(t, id);
    Leaks.SuccessorId(cfg, s, t, a.answer);
    OtherEntriesStay(cfg, s, e.op, id);
    var s' := Apply(cfg, s, a);
    forall tid | tid in s'.tasks ensures !Mentions(s'.tasks[tid], id) {
      if tid != a.tid {
        assert s'.tasks[tid] == s.tasks[tid];
      }
    }
  }

  /** No call but a removal takes a node out of its destroying state. */
  lemma DestroyingStays(cfg: Config, s: Sys, op: Option<NodeOp>, id: int)
    requires id in s.nodes && s.nodes[id].state == Destroying && op != Some(RemoveNode(id))
    ensures id in Perform(cfg, s, op) && Perform(cfg, s, op)[id].state == Destroying
  {
  }

  lemma StrandedStep(cfg: Config, s: Sys, a: Action, id: int)
    requires Stranded(s, id) && Enabled(cfg, s, a) && Lists(a, id) && !a.Run?
    ensures Stranded(Apply(cfg, s, a), id) && Apply(cfg, s, a).tasks == s.tasks
  {
    DestroyingStays(cfg, s, OpOf(cfg, s, a), id);
    match a {
      case Evaluate(_, _, _) => assert InProgress(s.nodes);
      case Merge(_) => RestSplits(s.mon.rest);
      case _ =>
    }
  }

  ghost predicate ListedSince(cfg: Config, acts: seq<Action>, n: nat, id: int)
    requires IsRun(cfg, acts)
  {
    |acts| > n ==>
      var init := acts[..|acts| - 1];
      ListedSince(cfg, init, n, id) && Lists(acts[|acts| - 1], id)
  }

  /** A stranded node is never retried, and no scale operation is ever launched again while the cloud lists it. */
  lemma {:induction false} StrandedStallsForever(cfg: Config, acts: seq<Action>, n: nat, id: int)
    requires IsRun(cfg, acts) && n <= |acts| && ListedSince(cfg, acts, n, id)
    requires IsRun(cfg, acts[..n]) && Stranded(Exec(cfg, acts[..n]), id)
    ensures Stranded(Exec(cfg, acts), id)
    ensures Exec(cfg, acts).tasks.Keys <= Exec(cfg, acts[..n]).tasks.Keys
  {
    if n == |acts| {
      assert acts[..n] == acts;
    } else {
      var init, last := acts[..|acts| - 1], acts[|acts| - 1];
      assert init[..n] == acts[..n];
      StrandedStallsForever(cfg, init, n, id);
      if last.Run? {
        StrandedTaskStep(cfg, Exec(cfg, init), last, id);
      } else {
        StrandedStep(cfg, Exec(cfg, init), last, id);
      }
    }
  }

  /** A tick that launches a ScaleDown of the largest of n adopted nodes; it may launch a ScaleUp besides. */
  lemma ScaleDownLaunched(cfg: Config, n: nat) returns (s: Sys)
    requires Loaded(cfg) && cfg.minNodes < n <= cfg.maxNodes
    ensures Reachable(cfg, s) && s.mon.Waiting? && s.nodes == Adoptees(n) && s.lastEvent == None && UpTo(n) <= s.used
    ensures 1 in s.tasks && s.tasks[1] == DownFind(n)
    ensures forall tid :: tid in s.tasks && tid != 1 ==> s.tasks[tid] == UpStart
  {
    var idle := IdleRequired(cfg, n);
    StartedReached(cfg, n);
    var s1 := IdleTick(cfg, n, Started(n));
    if idle <= 0 {
      s := s1;
    } else {
      StepIsReachable(cfg, s1, Advance(idle));
      s := IdleTick(cfg, n, Apply(cfg, s1, Advance(idle)));
    }
  }

  /** An idle tick over n adopted nodes: it arms the timer or launches, by how long they have been idle. */
  lemma IdleTick(cfg: Config, n: nat, s: Sys) returns (s': Sys)
    requires Loaded(cfg) && cfg.minNodes < n <= cfg.maxNodes
    requires Reachable(cfg, s) && s.mon.Waiting? && s.nodes == Adoptees(n) && s.lastEvent == None && UpTo(n) <= s.used
    requires s.tasks == map[] && (s.upSince == None || s.downSince.Some?)
    ensures Reachable(cfg, s') && s'.mon.Waiting? && s'.nodes == Adoptees(n) && s'.lastEvent == None
    ensures UpTo(n) <= s'.used
    ensures s'.clock == s.clock
    ensures var start := if s.downSince == None then s.clock else s.downSince.value;
            if s.clock - start < IdleRequired(cfg, n) then
              s'.downSince == Some(start) && (s.upSince == None ==> s'.tasks == map[])
            else
              && 1 in s'.tasks && s'.tasks[1] == DownFind(n)
              && forall tid :: tid in s'.tasks && tid != 1 ==> s'.tasks[tid] == UpStart
  {
    AdopteesRead(cfg, n, 0, s.clock);
    s' := TickOverAdoptees(cfg, s, n, 0, 0, 1);
  }

  /** The cloud answers everything but the destroy call. */
  function Refuses(t: Task): Answer {
    Answer(!t.DownCall?, 0, "")
  }

  lemma RefusedScaleDown(cfg: Config, n: nat, now: int)
    requires Loaded(cfg) && cfg.minNodes < n
    ensures n as int in Adoptees(n)
    ensures Finish(cfg, Local(Adoptees(n), None, now), DownFind(n), Refuses) ==
              (Local(Adoptees(n)[n as int := Adoptees(n)[n].(state := Destroying)], None, now), None)
  {
    var c := Operations.Control(Adoptees(n), None, None, None, multiset{});
    AdopteesCount(n);
    SoloScaleDown(cfg, c, now, n, Refuses);
    Operations.ScaleDownEffect(cfg, c, n, now, false, now, false);
  }

  /** With room above the floor, a run strands a node: its ScaleDown's destroy call fails. */
  lemma FailedDestroyStrands(cfg: Config) returns (s: Sys)
    requires Loaded(cfg) && cfg.minNodes < cfg.maxNodes
    ensures Reachable(cfg, s) && Stranded(s, cfg.minNodes + 1)
  {
    var n := cfg.minNodes + 1;
    var s0 := ScaleDownLaunched(cfg, n);
    RunAloneReached(cfg, s0, 1, Refuses);
    s := RunAlone(cfg, s0, 1, Refuses);
    RunAloneIs(cfg, s0, 1, Refuses);
    RefusedScaleDown(cfg, n, s0.clock);
    forall tid | tid in s.tasks ensures !Mentions(s.tasks[tid], n) {
      assert tid in s.tasks - {1} && s.tasks[tid] == (s0.tasks - {1})[tid];
    }
  }

  ghost predicate CanStrand(cfg: Config) {
    exists s: Sys, id: int :: Reachable(cfg, s) && Stranded(s, id)
  }

  /** A waiter is dealing with the node. */
  ghost predicate WaitedOut(s: Sys, tid: nat, id: int) {
    tid in s.tasks && (s.tasks[tid] == WaitDestroy(id) || s.tasks[tid] == WaitRemove(id))
  }

  ghost predicate IsWaitedOut(s: Sys, id: int) {
    exists tid: nat :: WaitedOut(s, tid, id)
  }

  /** No ScaleDown runs, and every destroying node has its waiter. */
  ghost predicate OnlyWaitersDestroy(s: Sys) {
    && (forall tid :: tid in s.tasks ==> !IsDown(s.tasks[tid]))
    && forall id :: id in s.nodes && s.nodes[id].state == Destroying ==> IsWaitedOut(s, id)
  }

  /** A node a call marks destroying is the one a waiter goes on with, when no ScaleDown runs. */
  lemma OnlyWaitersDestroyTask(cfg: Config, s: Sys, a: Action, id: int)
    requires Enabled(cfg, s, a) && a.Run? && OnlyWaitersDestroy(s)
    requires id in Apply(cfg, s, a).nodes && Apply(cfg, s, a).nodes[id].state == Destroying
    ensures IsWaitedOut(Apply(cfg, s, a), id)
  {
    var s' := Apply(cfg, s, a);
    var t := s.tasks[a.tid];
    var op := OpOf(cfg, s, a);
    TaskCalls(cfg, s, t, a.answer, id);
    NewlyDestroying(cfg, s, op, id);
    if id in s.nodes && s.nodes[id].state == Destroying {
      var tid: nat :| WaitedOut(s, tid, id);
      if tid == a.tid {
        WaiterGoesOn(cfg, s, t, a.answer, id);
      }
      assert WaitedOut(s', tid, id);
    } else {
      WaiterGoesOn(cfg, s, t, a.answer, id);
      assert WaitedOut(s', a.tid, id);
    }
  }

  lemma NewlyDestroying(cfg: Config, s: Sys, op: Option<NodeOp>, id: int)
    requires id in Perform(cfg, s, op) && Perform(cfg, s, op)[id].state == Destroying
    ensures op != Some(RemoveNode(id))
    ensures !(id in s.nodes && s.nodes[id].state == Destroying) ==> op == Some(TransitionNode(id, Destroying))
  {
  }

  lemma WaiterGoesOn(cfg: Config, s: Sys, t: Task, a: Answer, id: int)
    ensures var e := TaskEffect(cfg, s, t, a);
            && (t == WaitFail(id) ==> e.next == Some(WaitDestroy(id)))
            && (t == WaitDestroy(id) ==> e.next == Some(WaitRemove(id)))
            && (t == WaitRemove(id) ==> e.op == Some(RemoveNode(id)))
  {
  }

  lemma OnlyWaitersDestroyStep(cfg: Config, s: Sys, a: Action)
    requires Loaded(cfg) && cfg.minNodes == cfg.maxNodes && |s.nodes| <= cfg.maxNodes
    requires Enabled(cfg, s, a) && OnlyWaitersDestroy(s)
    ensures OnlyWaitersDestroy(Apply(cfg, s, a))
  {
    var s' := Apply(cfg, s, a);
    match a {
      case Run(tid, answer) =>
        SuccessorAim(cfg, s, s.tasks[tid], answer);
        forall id | id in s'.nodes && s'.nodes[id].state == Destroying ensures IsWaitedOut(s', id) {
          OnlyWaitersDestroyTask(cfg, s, a, id);
        }
      case Evaluate(_, _, _) => OnlyWaitersDestroyEvaluate(cfg, s, a);
      case _ => OnlyWaitersDestroyOther(cfg, s, a);
    }
  }

  lemma OnlyWaitersDestroyEvaluate(cfg: Config, s: Sys, a: Action)
    requires Loaded(cfg) && cfg.minNodes == cfg.maxNodes && |s.nodes| <= cfg.maxNodes
    requires Enabled(cfg, s, a) && a.Evaluate? && OnlyWaitersDestroy(s)
    ensures OnlyWaitersDestroy(Apply(cfg, s, a))
  {
    LaunchState(cfg, s.nodes, s.lastEvent, s.upSince, s.downSince, a.pending, s.clock);
    WaitersStay(s, Apply(cfg, s, a));
  }

  lemma OnlyWaitersDestroyOther(cfg: Config, s: Sys, a: Action)
    requires Enabled(cfg, s, a) && !a.Evaluate? && !a.Run? && OnlyWaitersDestroy(s)
    ensures OnlyWaitersDestroy(Apply(cfg, s, a))
  {
    var s' := Apply(cfg, s, a);
    WaitersStay(s, s');
    forall id | id in s'.nodes && s'.nodes[id].state == Destroying ensures IsWaitedOut(s', id) {
      NewlyDestroying(cfg, s, OpOf(cfg, s, a), id);
    }
  }

  lemma WaitersStay(s: Sys, s': Sys)
    requires OnlyWaitersDestroy(s) && forall tid :: tid in s.tasks ==> tid in s'.tasks && s'.tasks[tid] == s.tasks[tid]
    ensures forall id :: id in s.nodes && s.nodes[id].state == Destroying ==> IsWaitedOut(s', id)
  {
    forall id | id in s.nodes && s.nodes[id].state == Destroying ensures IsWaitedOut(s', id) {
      var tid: nat :| WaitedOut(s, tid, id);
      assert WaitedOut(s', tid, id);
    }
  }

  lemma {:induction false} OnlyWaitersDestroyOverRuns(cfg: Config, acts: seq<Action>)
    requires Loaded(cfg) && cfg.minNodes == cfg.maxNodes && IsRun(cfg, acts)
    ensures OnlyWaitersDestroy(Exec(cfg, acts))
  {
    if acts != [] {
      var init := acts[..|acts| - 1];
      OnlyWaitersDestroyOverRuns(cfg, init);
      CapHolds(cfg, init);
      OnlyWaitersDestroyStep(cfg, Exec(cfg, init), acts[|acts| - 1]);
    }
  }

  /** A node can be stranded exactly when the configuration leaves room between floor and cap. */
  lemma StrandingIff(cfg: Config)
    requires Loaded(cfg)
    ensures CanStrand(cfg) <==> cfg.minNodes < cfg.maxNodes
  {
    if cfg.minNodes < cfg.maxNodes {
      var s := FailedDestroyStrands(cfg);
    } else {
      forall s: Sys, id: int | Reachable(cfg, s) ensures !Stranded(s, id) {
        var acts :| EndsIn(cfg, acts, s);
        OnlyWaitersDestroyOverRuns(cfg, acts);
        WaitersPreventStranding(s, id);
      }
    }
  }

  lemma WaitersPreventStranding(s: Sys, id: int)
    requires OnlyWaitersDestroy(s)
    ensures !Stranded(s, id)
  {
    if IsWaitedOut(s, id) {
      var tid: nat :| WaitedOut(s, tid, id);
      assert Mentions(s.tasks[tid], id);
    }
  }

  // -------------------------------------------------------------- a ScaleDown below the floor

  lemma Unlocked(cfg: Config, n: nat) returns (s: Sys)
    requires Loaded(cfg) && cfg.minNodes < n <= cfg.maxNodes
    ensures Reachable(cfg, s) && s.mon.Waiting? && s.nodes == Adoptees(n) && s.lastEvent == None
    ensures 1 in s.tasks && s.tasks[1] == DownCool(n)
  {
    var s1 := Found(cfg, n);
    s := TaskGoesOn(cfg, s1, 1, Answer(true, 0, ""), None, DownCool(n));
  }

  lemma Found(cfg: Config, n: nat) returns (s: Sys)
    requires Loaded(cfg) && cfg.minNodes < n <= cfg.maxNodes
    ensures Reachable(cfg, s) && s.mon.Waiting? && s.nodes == Adoptees(n) && s.lastEvent == None
    ensures 1 in s.tasks && s.tasks[1] == DownLock(n)
  {
    var s0 := ScaleDownLaunched(cfg, n);
    assert n as int in s0.nodes;
    s := TaskGoesOn(cfg, s0, 1, Answer(true, 0, ""), None, DownLock(n));
  }

  /** A ScaleDown of the largest of n nodes has passed all its checks. */
  lemma ChecksPassed(cfg: Config, n: nat) returns (s: Sys)
    requires Loaded(cfg) && cfg.minNodes < n <= cfg.maxNodes
    ensures Reachable(cfg, s) && s.mon.Waiting? && s.nodes == Adoptees(n) && 1 in s.tasks && s.tasks[1] == DownDrain(n)
  {
    var yes := Answer(true, 0, "");
    AdopteesCount(n);
    var s2 := Unlocked(cfg, n);
    var s3 := TaskGoesOn(cfg, s2, 1, yes, None, DownFloor(n));
    s := TaskGoesOn(cfg, s3, 1, yes, None, DownDrain(n));
  }

  /** The nodes after one was swept and the largest drained. */
  function Drained(n: nat): NodeMap
    requires n >= 2
  {
    var left := Adoptees(n) - {1};
    left[n as int := left[n].(state := Draining)]
  }

  lemma DrainedCounts(n: nat)
    requires n >= 2
    ensures var m := Drained(n);
            && ActiveCount(m) == n - 1
            && ActiveCount(m[n as int := m[n].(state := Destroying)]) == n - 2
  {
    var all := Adoptees(n);
    var left := all - {1};
    AdopteesCount(n);
    CountDrop(all, 1, IsActive);
    CountPut(left, n as int, left[n].(state := Draining), IsActive);
    CountPut(Drained(n), n as int, Drained(n)[n].(state := Destroying), IsActive);
  }

  /** Meanwhile a node is swept, and the ScaleDown goes on. */
  lemma SweptMeanwhile(cfg: Config, n: nat) returns (s: Sys)
    requires Loaded(cfg) && 1 <= cfg.minNodes < n <= cfg.maxNodes
    ensures Reachable(cfg, s) && s.nodes == Drained(n) && 1 in s.tasks && s.tasks[1] == DownDestroy(n)
  {
    var s0 := ChecksPassed(cfg, n);
    var s1 := SweepBegun(cfg, s0);
    assert 1 in s1.nodes && s1.nodes[1].state == Ready;
    StepIsReachable(cfg, s1, Sweep(1));
    var s2 := Apply(cfg, s1, Sweep(1));
    assert s2.nodes == Adoptees(n) - {1};
    assert n as int in s2.nodes && s2.nodes[n].state == Ready;
    s := TaskGoesOn(cfg, s2, 1, Answer(true, 0, ""), Some(TransitionNode(n, Draining)), DownDestroy(n));
  }

  /** A ScaleDown that passed its floor check takes the fleet below the floor when a node is lost in between. */
  lemma ScaleDownBreaksFloor(cfg: Config) returns (before: Sys, a: Action)
    requires Loaded(cfg) && 1 <= cfg.minNodes < cfg.maxNodes
    ensures Reachable(cfg, before) && Enabled(cfg, before, a) && a.Run? && before.tasks[a.tid].DownDestroy?
    ensures ActiveCount(before.nodes) == cfg.minNodes
    ensures ActiveCount(Apply(cfg, before, a).nodes) == cfg.minNodes - 1
  {
    var n := cfg.minNodes + 1;
    a := Run(1, Answer(true, 0, ""));
    before := SweptMeanwhile(cfg, n);
    DrainedCounts(n);
    var after := TaskGoesOn(cfg, before, 1, a.answer, Some(TransitionNode(n, Destroying)), DownCall(n));
    assert after.nodes == before.nodes[n as int := before.nodes[n].(state := Destroying)];
  }

  /** A step of a ScaleDown that takes the fleet below the floor. */
  ghost predicate BreaksFloor(cfg: Config, s: Sys, a: Action) {
    && Enabled(cfg, s, a) && a.Run? && IsDown(s.tasks[a.tid])
    && var before, after := ActiveCount(s.nodes), ActiveCount(Apply(cfg, s, a).nodes);
       after < before && after < cfg.minNodes
  }

  ghost predicate ScaleDownCanBreakFloor(cfg: Config) {
    exists s: Sys, a: Action :: Reachable(cfg, s) && BreaksFloor(cfg, s, a)
  }

  /** In some run a ScaleDown does that exactly when there is a floor, and room above it. */
  lemma ScaleDownBreaksFloorIff(cfg: Config)
    requires Loaded(cfg)
    ensures ScaleDownCanBreakFloor(cfg) <==> 1 <= cfg.minNodes < cfg.maxNodes
  {
    if 1 <= cfg.minNodes < cfg.maxNodes {
      var s, a := ScaleDownBreaksFloor(cfg);
      assert BreaksFloor(cfg, s, a);
    } else {
      forall s: Sys, a: Action | Reachable(cfg, s) ensures !BreaksFloor(cfg, s, a) {
        if cfg.minNodes == cfg.maxNodes {
          NoScaleDowns(cfg, s);
        }
      }
    }
  }

  /** With no room between floor and cap, no ScaleDown is ever under way. */
  lemma NoScaleDowns(cfg: Config, s: Sys)
    requires Loaded(cfg) && cfg.minNodes == cfg.maxNodes && Reachable(cfg, s)
    ensures forall tid :: tid in s.tasks ==> !IsDown(s.tasks[tid])
  {
    var acts :| EndsIn(cfg, acts, s);
    OnlyWaitersDestroyOverRuns(cfg, acts);
  }
}
