/** What the launch triggers allow and exclude over the runs of the transition system. */
module Triggers {
  import opened Common
  import opened Nodes
  import opened Scaling
  import opened ScalingTraces
  import opened Reconciliation
  import opened Interleaving
  import opened SystemInvariants
  import opened Reaching

  // -------------------------------------------------------------- launches over runs

  /** An evaluation reads the table, the last event, the clock and the queue as they are. */
  lemma ReadingIs(cfg: Config, s: Sys, pending: int)
    ensures var r := SysReading(cfg, s, pending);
            && r.now == s.clock && r.pending == pending
            && r.active == |set id | id in s.nodes && s.nodes[id].state != Destroying|
            && r.ready == |set id | id in s.nodes && s.nodes[id].state == Ready|
            && (r.canScale <==> s.lastEvent == None || s.clock - s.lastEvent.value >= cfg.cooldown)
            && (r.inProgress <==> exists id :: id in s.nodes && s.nodes[id].state != Ready)
            && (r.ready > 0 ==>
                  && r.target in s.nodes && s.nodes[r.target].state == Ready
                  && forall id :: id in s.nodes && s.nodes[id].state == Ready ==> id <= r.target)
  {
    CountsAre(s.nodes);
    InProgressIs(s.nodes);
    if SysReading(cfg, s, pending).ready > 0 {
      assert ReadyIds(s.nodes) != {};
      assert Top(ReadyIds(s.nodes)) in ReadyIds(s.nodes);
      assert forall id :: id in s.nodes && s.nodes[id].state == Ready ==> id in ReadyIds(s.nodes);
    }
  }

  /**
   * On every run and at every evaluation: a ScaleDown is launched, at the node read as target,
   * exactly when an idle window of the run's own readings is long enough and the checks allow it; a
   * ScaleUp exactly when there is work and no active node, or a long enough sustained window, and the
   * checks allow it.
   */
  lemma LaunchesOverRuns(cfg: Config, acts: seq<Action>, pending: int, up: nat, down: nat)
    requires IsRun(cfg, acts) && Enabled(cfg, Exec(cfg, acts), Evaluate(pending, up, down))
    ensures var s, s' := Exec(cfg, acts), Apply(cfg, Exec(cfg, acts), Evaluate(pending, up, down));
            var i, r := |s.obs|, SysReading(cfg, s, pending);
            && s'.obs == s.obs + [r]
            && (down in s'.tasks <==>
                  r.canScale && !r.inProgress && r.target != 0 && exists st: nat :: IdleLong(cfg, s'.obs, st, i))
            && (down in s'.tasks ==> s'.tasks[down] == DownFind(r.target))
            && (up in s'.tasks <==>
                  && r.canScale && !r.inProgress
                  && ((r.pending > 0 && r.active == 0)
                      || (r.pending > cfg.scaleUpThreshold && r.ready == r.active && 0 < r.active < cfg.maxNodes
                          && exists st: nat :: SustainedLong(cfg, s'.obs, st, i))))
            && (up in s'.tasks ==> s'.tasks[up] == UpStart)
  {
    var s := Exec(cfg, acts);
    var r := SysReading(cfg, s, pending);
    HistoryOverRuns(cfg, acts);
    OrderedNext(s.obs, r);
    assert (s.obs + [r])[..|s.obs|] == s.obs;
    ScaleDownIff(cfg, s.obs + [r], |s.obs|);
    ScaleOutIff(cfg, s.obs + [r], |s.obs|);
    ColdStartIff(cfg, s.obs + [r], |s.obs|);
  }

  // -------------------------------------------------------------- both directions in one tick

  /** The state is about to be evaluated, and that launches both up and down. */
  ghost predicate LaunchesBoth(cfg: Config, s: Sys, pending: int) {
    && s.mon.Evaluating?
    && var r := SysReading(cfg, s, pending);
       DecideUp(cfg, s.upSince, r).launch != NoLaunch && DecideDown(cfg, s.downSince, r).target.Some?
  }

  ghost predicate CanLaunchBoth(cfg: Config) {
    exists s: Sys, pending: int :: Reachable(cfg, s) && LaunchesBoth(cfg, s, pending)
  }

  /** Time enough for both timers. */
  function LongEnough(cfg: Config, n: nat): nat {
    var most := if cfg.scaleUpDuration >= IdleRequired(cfg, n) then cfg.scaleUpDuration else IdleRequired(cfg, n);
    if most >= 0 then most else 0
  }

  /** Work enough to hold the idle timer back when it would fire at once. */
  function FirstPending(cfg: Config, n: nat): int {
    if IdleRequired(cfg, n) <= 0 then 1 else 0
  }

  /** A first tick that arms the scale-up timer and launches nothing. */
  lemma FirstDecisions(cfg: Config, n: nat)
    requires Loaded(cfg) && cfg.scaleUpThreshold < 0 && cfg.minNodes < n < cfg.maxNodes
    ensures var r := Reading(0, FirstPending(cfg, n), n, n, true, false, n);
            && DecideUp(cfg, None, r) == UpDecision(Some(0), NoLaunch)
            && DecideDown(cfg, None, r) == DownDecision(if IdleRequired(cfg, n) <= 0 then None else Some(0), None)
  {
  }

  lemma BothArmed(cfg: Config, n: nat) returns (s: Sys)
    requires Loaded(cfg) && cfg.scaleUpThreshold < 0 && cfg.minNodes < n < cfg.maxNodes
    ensures Reachable(cfg, s) && s.mon.Waiting? && s.nodes == Adoptees(n) && s.used == UpTo(n) && s.clock == 0
    ensures s.lastEvent == None && s.upSince == Some(0)
    ensures s.downSince == if IdleRequired(cfg, n) <= 0 then None else Some(0)
  {
    StartedReached(cfg, n);
    AdopteesRead(cfg, n, FirstPending(cfg, n), 0);
    FirstDecisions(cfg, n);
    s := TickOverAdoptees(cfg, Started(n), n, FirstPending(cfg, n), 0, 1);
  }

  /** One node above the floor, adopted, seen at time 0, and about to be evaluated long after. */
  lemma BothReached(cfg: Config) returns (s: Sys)
    requires Loaded(cfg) && cfg.scaleUpThreshold < 0 && cfg.minNodes + 1 < cfg.maxNodes
    ensures Reachable(cfg, s) && LaunchesBoth(cfg, s, 0)
  {
    var n := cfg.minNodes + 1;
    var late := LongEnough(cfg, n);
    var s1 := BothArmed(cfg, n);
    StepIsReachable(cfg, s1, Advance(late));
    var s2 := Apply(cfg, s1, Advance(late));
    ListingIds(n, "running");
    PassKeepsAdoptees(cfg.maxNodes, n, late);
    s := PassReached(cfg, s2, Listing(n, "running"));
    AdopteesRead(cfg, n, 0, late);
  }

  /**
   * No run contains a tick that launches in both directions exactly when the threshold is not
   * negative (which the loader does not check) or no node count lies strictly between floor and cap.
   */
  lemma NoDoubleLaunchIff(cfg: Config)
    requires Loaded(cfg)
    ensures !CanLaunchBoth(cfg) <==> cfg.scaleUpThreshold >= 0 || cfg.maxNodes <= cfg.minNodes + 1
  {
    if cfg.scaleUpThreshold >= 0 || cfg.maxNodes <= cfg.minNodes + 1 {
      forall s: Sys, pending: int ensures !LaunchesBoth(cfg, s, pending) {
        LaunchesOneWay(cfg, s.nodes, s.lastEvent, s.upSince, s.downSince, pending, s.clock);
      }
    } else {
      var s := BothReached(cfg);
    }
  }

  // -------------------------------------------------------------- "continuously above the threshold"

  /** The documented trigger: work above the threshold at every tick of a long enough window. */
  ghost predicate Continuous(cfg: Config, obs: seq<Reading>, s: nat, i: nat) {
    SustainedLong(cfg, obs, s, i) && forall j :: s <= j <= i ==> obs[j].pending > cfg.scaleUpThreshold
  }

  /** Tick `i` launched a scale-out that no continuous window precedes. */
  ghost predicate BreaksContinuity(cfg: Config, obs: seq<Reading>, i: nat) {
    && i < |obs| && ScalingTraces.UpLaunch(cfg, obs, i) == ScaleOut
    && forall s: nat :: !Continuous(cfg, obs, s, i)
  }

  /** Some run of the system contains such a tick. */
  ghost predicate CanBreakContinuity(cfg: Config) {
    exists s: Sys, i: nat :: Reachable(cfg, s) && BreaksContinuity(cfg, s.obs, i)
  }

  lemma ReachableHistory(cfg: Config, s: Sys)
    requires Reachable(cfg, s)
    ensures HistoryHolds(cfg, s)
  {
    var acts :| EndsIn(cfg, acts, s);
    HistoryOverRuns(cfg, acts);
  }

  lemma ScaleOutsAreContinuous(cfg: Config, obs: seq<Reading>, i: nat)
    requires (cfg.scaleUpThreshold <= 0 || cfg.maxNodes < 2) && Ordered(obs) && i < |obs|
        && ScalingTraces.UpLaunch(cfg, obs, i) == ScaleOut
    ensures exists s: nat :: Continuous(cfg, obs, s, i)
  {
    ScaleOutIff(cfg, obs, i);
    var s: nat :| SustainedLong(cfg, obs, s, i);
    assert Continuous(cfg, obs, s, i);
  }

  function Duration(cfg: Config): nat {
    if cfg.scaleUpDuration >= 0 then cfg.scaleUpDuration else 0
  }

  function Busy(cfg: Config, now: int, target: int): Reading {
    Reading(now, cfg.scaleUpThreshold + 1, 1, 1, true, false, target)
  }

  const GONE: Reading := Reading(0, 1, 0, 0, true, false, 0)

  /** Too much work for one node, then a dip with no node, then again too much work. */
  function Dip(cfg: Config): seq<Reading> {
    [Busy(cfg, 0, 1), GONE, Busy(cfg, Duration(cfg), 2)]
  }

  lemma DipDecisions(cfg: Config)
    requires Loaded(cfg) && cfg.scaleUpThreshold > 0 && cfg.maxNodes >= 2
    ensures DecideUp(cfg, None, Busy(cfg, 0, 1)) == UpDecision(Some(0), NoLaunch)
    ensures DecideUp(cfg, Some(0), GONE) == UpDecision(Some(0), ColdStart)
    ensures DecideUp(cfg, Some(0), Busy(cfg, Duration(cfg), 2)) == UpDecision(None, ScaleOut)
    ensures forall r: Reading, since: Option<int> :: r.pending > 0 ==>
        DecideDown(cfg, since, r) == DownDecision(None, None)
  {
  }

  lemma DipBreaksContinuity(cfg: Config)
    requires Loaded(cfg) && cfg.scaleUpThreshold > 0 && cfg.maxNodes >= 2
    ensures BreaksContinuity(cfg, Dip(cfg), 2)
  {
    var obs := Dip(cfg);
    DipDecisions(cfg);
    assert obs[..0] == [] && obs[..1] == [obs[0]] && obs[..2] == [obs[0], obs[1]];
    assert [obs[0]][..0] == [] && [obs[0], obs[1]][..1] == [obs[0]];
    assert UpTimer(cfg, [obs[0]]) == Some(0);
    assert UpTimer(cfg, [obs[0], obs[1]]) == Some(0);
    forall s: nat ensures !Continuous(cfg, obs, s, 2) {
      assert s == 1 ==> !WantsScaleOut(cfg, obs[1]);
      assert obs[1].pending <= cfg.scaleUpThreshold;
    }
  }

  /** The node adopted in the middle of the dip. */
  function Second(now: int): NodeMap {
    map[2 := NodeInfo("", "", Ready, now, Some(now), false)]
  }

  const SECOND_LISTED: seq<CloudNode> := [CloudNode(2, "", "", "running")]

  lemma SecondAdopted(cfg: Config, now: int)
    requires Loaded(cfg)
    ensures Ids(SECOND_LISTED) == {2}
    ensures Reconcile(map[], cfg.maxNodes, SECOND_LISTED, now) == Second(now)
  {
    var cn := CloudNode(2, "", "", "running");
    MergeOneMore(map[], cfg.maxNodes, [], cn, now);
    assert [] + [cn] == SECOND_LISTED;
    assert MergeOne(map[], cfg.maxNodes, cn, now) == map[2 := Observed(Fresh("", now), cn, now)];
  }

  lemma SecondRead(cfg: Config, pending: int, now: int)
    ensures Read(cfg, Second(now), None, pending, now) == Reading(now, pending, 1, 1, true, false, 2)
  {
    var m := Second(now);
    assert !InProgress(m);
    AllReadyCounts(m);
    assert m.Keys == {2};
    assert Top({2}) in {2};
  }

  lemma NobodyRead(cfg: Config, pending: int, now: int)
    ensures Read(cfg, map[], None, pending, now) == Reading(now, pending, 0, 0, true, false, 0)
  {
    var m: NodeMap := map[];
    assert !InProgress(m);
    AllReadyCounts(m);
  }

  /** A pass over an empty listing forgets an adopted fleet. */
  lemma NobodyLeft(cfg: Config, n: nat, now: int)
    ensures Reconcile(Adoptees(n), cfg.maxNodes, [], now) == map[] && Ids([]) == {}
  {
  }

  /** The first two ticks: node 1 under load, then gone, with a cold start under way. */
  lemma DipBegun(cfg: Config) returns (s: Sys)
    requires Loaded(cfg) && cfg.scaleUpThreshold > 0 && cfg.maxNodes >= 2
    ensures Reachable(cfg, s) && s.mon.Waiting? && s.nodes == map[] && s.lastEvent == None && s.clock == 0
    ensures s.upSince == Some(0) && s.tasks == map[2 := UpStart] && s.obs == Dip(cfg)[..2] && s.used == UpTo(1)
  {
    DipDecisions(cfg);
    StartedReached(cfg, 1);
    AdopteesRead(cfg, 1, cfg.scaleUpThreshold + 1, 0);
    var s1 := TickOverAdoptees(cfg, Started(1), 1, cfg.scaleUpThreshold + 1, 0, 1);
    assert s1.upSince == Some(0) && s1.tasks == map[] && s1.obs == [Busy(cfg, 0, 1)];
    StepIsReachable(cfg, s1, Vanish(1));
    var s2 := Apply(cfg, s1, Vanish(1));
    NobodyLeft(cfg, 1, 0);
    NobodyRead(cfg, 1, 0);
    s := TickReached(cfg, s2, [], 1, 2, 3);
    assert s.obs == [Busy(cfg, 0, 1)] + [GONE];
  }

  /** And the third, which scales out. */
  lemma DipReached(cfg: Config) returns (s: Sys)
    requires Loaded(cfg) && cfg.scaleUpThreshold > 0 && cfg.maxNodes >= 2
    ensures Reachable(cfg, s) && s.obs == Dip(cfg)
  {
    var s0 := DipBegun(cfg);
    var late := Duration(cfg);
    StepIsReachable(cfg, s0, Appear(2));
    var s1 := Apply(cfg, s0, Appear(2));
    StepIsReachable(cfg, s1, Advance(late));
    var s2 := Apply(cfg, s1, Advance(late));
    SecondAdopted(cfg, late);
    SecondRead(cfg, cfg.scaleUpThreshold + 1, late);
    s := TickReached(cfg, s2, SECOND_LISTED, cfg.scaleUpThreshold + 1, 4, 5);
    assert s.obs == Dip(cfg)[..2] + [Busy(cfg, late, 2)];
  }

  /**
   * The documented trigger holds of every scale-out in every run of the system exactly when the
   * threshold is not positive or the cap allows no second node: otherwise a tick of the cold-start
   * branch with work at or below the threshold slips into the window without stopping the timer.
   */
  lemma ContinuityIff(cfg: Config)
    requires Loaded(cfg)
    ensures !CanBreakContinuity(cfg) <==> cfg.scaleUpThreshold <= 0 || cfg.maxNodes < 2
  {
    if cfg.scaleUpThreshold <= 0 || cfg.maxNodes < 2 {
      forall s: Sys, i: nat ensures !(Reachable(cfg, s) && BreaksContinuity(cfg, s.obs, i)) {
        if Reachable(cfg, s) && i < |s.obs| && ScalingTraces.UpLaunch(cfg, s.obs, i) == ScaleOut {
          ReachableHistory(cfg, s);
          ScaleOutsAreContinuous(cfg, s.obs, i);
        }
      }
    } else {
      var s := DipReached(cfg);
      DipBreaksContinuity(cfg);
      assert BreaksContinuity(cfg, s.obs, 2);
    }
  }
}
