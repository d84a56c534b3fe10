/**
 * The node floor under concurrent scale-downs. Several ScaleDowns can be under way at once, on the
 * same node or on different ones, each having passed its own check long before it acts. What the
 * floor check is worth all the same: exactly which steps take the fleet below the floor, and how
 * far below it can ever get.
 */
module Floor {
  import opened Common
  import opened Counting
  import opened Nodes
  import opened Scaling
  import opened Interleaving

  predicate IsDown(t: Task) {
    t.DownFind? || t.DownLock? || t.DownCool? || t.DownFloor? || t.DownDrain?
    || t.DownDestroy? || t.DownCall? || t.DownRemove? || t.DownRecord?
  }

  /** A waiter that has given up on its node. */
  predicate IsDoom(t: Task) {
    t.WaitFail? || t.WaitDestroy? || t.WaitRemove?
  }

  /** Ids some ScaleDown under way is aimed at. */
  ghost function Targets(tasks: map<nat, Task>): set<int> {
    set tid | tid in tasks && IsDown(tasks[tid]) :: tasks[tid].id
  }

  /** Ids some waiter is giving up on. */
  ghost function Doomed(tasks: map<nat, Task>): set<int> {
    set tid | tid in tasks && IsDoom(tasks[tid]) :: tasks[tid].id
  }

  ghost predicate Active(m: NodeMap, id: int) {
    id in m && IsActive(m[id])
  }

  /** Active nodes below `id` that no ScaleDown is aimed at and no waiter is giving up on. */
  ghost function SafeBelow(s: Sys, id: int): set<int> {
    set n | n in s.nodes && Active(s.nodes, n) && n !in Targets(s.tasks) && n !in Doomed(s.tasks) && n < id
  }

  /** Every ScaleDown under way leaves the floor's worth of smaller nodes alone, up to `debt` of them. */
  ghost predicate Guarded(cfg: Config, s: Sys, debt: nat) {
    forall id :: id in Targets(s.tasks) ==> |SafeBelow(s, id)| + debt >= cfg.minNodes
  }

  /** The node an action takes away, or gives up on, without any look at the floor. */
  ghost function Hit(s: Sys, a: Action): set<int> {
    if a.Sweep? && s.mon.Sweeping? && SweepOp(s, a.id) != None && Active(s.nodes, a.id) then {a.id}
    else if a.Run? && a.tid in s.tasks && s.tasks[a.tid].WaitPoll? && !a.answer.ok then {s.tasks[a.tid].id}
    else {}
  }

  // -------------------------------------------------------------- what a step does to nodes, targets and doomed nodes

  lemma TargetsMember(tasks: map<nat, Task>, tid: nat)
    requires tid in tasks
    ensures IsDown(tasks[tid]) ==> tasks[tid].id in Targets(tasks)
    ensures IsDoom(tasks[tid]) ==> tasks[tid].id in Doomed(tasks)
  {
  }

  /** A task's successor is about the same node; only a ScaleDown goes on as one, and only a failed poll dooms. */
  lemma SuccessorAim(cfg: Config, s: Sys, t: Task, a: Answer)
    ensures var e := TaskEffect(cfg, s, t, a);
            && (e.next.Some? && IsDown(e.next.value) ==> IsDown(t) && e.next.value.id == t.id)
            && (e.next.Some? && IsDoom(e.next.value) ==>
                  (IsDoom(t) || (t.WaitPoll? && !a.ok)) && e.next.value.id == t.id)
  {
  }

  /** Without a new launch, no new id becomes a target. */
  lemma TargetsShrink(cfg: Config, s: Sys, a: Action)
    requires Enabled(cfg, s, a) && !a.Evaluate?
    ensures Targets(Apply(cfg, s, a).tasks) <= Targets(s.tasks)
  {
    if a.Run? {
      SuccessorAim(cfg, s, s.tasks[a.tid], a.answer);
      var s' := Apply(cfg, s, a);
      forall tid | tid in s'.tasks && IsDown(s'.tasks[tid]) ensures s'.tasks[tid].id in Targets(s.tasks) {
        TargetsMember(s.tasks, tid);
      }
    }
  }

  /** And only an action that hits a node dooms one. */
  lemma DoomedGrow(cfg: Config, s: Sys, a: Action)
    requires Enabled(cfg, s, a)
    ensures Doomed(Apply(cfg, s, a).tasks) <= Doomed(s.tasks) + Hit(s, a)
  {
    var s' := Apply(cfg, s, a);
    forall tid | tid in s'.tasks && IsDoom(s'.tasks[tid]) ensures s'.tasks[tid].id in Doomed(s.tasks) + Hit(s, a) {
      DoomedBy(cfg, s, a, tid);
    }
  }

  lemma DoomedBy(cfg: Config, s: Sys, a: Action, tid: nat)
    requires Enabled(cfg, s, a) && tid in Apply(cfg, s, a).tasks && IsDoom(Apply(cfg, s, a).tasks[tid])
    ensures Apply(cfg, s, a).tasks[tid].id in Doomed(s.tasks) + Hit(s, a)
  {
    if a.Run? && tid == a.tid {
      DoomedByTask(cfg, s, a);
    } else {
      KeptOrLaunched(cfg, s, a, tid);
      TargetsMember(s.tasks, tid);
    }
  }

  /** Other goroutines are as they were, and what a tick launches is not a waiter. */
  lemma KeptOrLaunched(cfg: Config, s: Sys, a: Action, tid: nat)
    requires Enabled(cfg, s, a) && tid in Apply(cfg, s, a).tasks && !(a.Run? && tid == a.tid)
    ensures IsDoom(Apply(cfg, s, a).tasks[tid]) ==> tid in s.tasks && Apply(cfg, s, a).tasks[tid] == s.tasks[tid]
  {
  }

  lemma DoomedByTask(cfg: Config, s: Sys, a: Action)
    requires Enabled(cfg, s, a) && a.Run? && a.tid in Apply(cfg, s, a).tasks && IsDoom(Apply(cfg, s, a).tasks[a.tid])
    ensures Apply(cfg, s, a).tasks[a.tid].id in Doomed(s.tasks) + Hit(s, a)
  {
    SuccessorAim(cfg, s, s.tasks[a.tid], a.answer);
    TargetsMember(s.tasks, a.tid);
  }

  /** A call that deactivates a node removes it or marks it destroying. */
  lemma PerformActivity(cfg: Config, s: Sys, op: Option<NodeOp>, id: int)
    requires Active(s.nodes, id) && !Active(Perform(cfg, s, op), id)
    ensures op == Some(RemoveNode(id))
        || (op == Some(TransitionNode(id, Destroying)) && Destroying in Allowed(s.nodes[id].state))
  {
  }

  /** Which tasks make which of those calls. */
  lemma TaskCalls(cfg: Config, s: Sys, t: Task, a: Answer, id: int)
    ensures var op := TaskEffect(cfg, s, t, a).op;
            && (op == Some(RemoveNode(id)) ==> t == WaitRemove(id) || t == DownRemove(id))
            && (op == Some(TransitionNode(id, Destroying)) ==> t == WaitFail(id) || t == DownDestroy(id))
  {
  }

  /**
   * A step outside the floor check takes an active node: the sweep, or a waiter that gave up, which
   * marks a provisioning or draining node and removes a node in whatever state it is.
   */
  ghost predicate Takes(s: Sys, a: Action) {
    || (a.Sweep? && s.mon.Sweeping? && SweepOp(s, a.id) != None && Active(s.nodes, a.id))
    || (a.Run? && a.tid in s.tasks && s.tasks[a.tid].WaitFail? && s.tasks[a.tid].id in s.nodes
        && s.nodes[s.tasks[a.tid].id].state in {Provisioning, Draining})
    || (a.Run? && a.tid in s.tasks && s.tasks[a.tid].WaitRemove? && Active(s.nodes, s.tasks[a.tid].id))
  }

  /** A node that a step deactivates is swept, the target of a ScaleDown, or given up on. */
  lemma WhoDeactivates(cfg: Config, s: Sys, a: Action, id: int)
    requires Enabled(cfg, s, a) && Active(s.nodes, id) && !Active(Apply(cfg, s, a).nodes, id)
    ensures || (a.Sweep? && id in Hit(s, a) && Takes(s, a))
            || (a.Run? && id in Targets(s.tasks) && !Takes(s, a))
            || (a.Run? && id in Doomed(s.tasks) && Takes(s, a))
  {
    PerformActivity(cfg, s, OpOf(cfg, s, a), id);
    if a.Run? {
      TaskCalls(cfg, s, s.tasks[a.tid], a.answer, id);
      TargetsMember(s.tasks, a.tid);
    }
  }

  /** A safe node stays safe, for every ScaleDown under way, unless the step hits it. */
  lemma SafeStays(cfg: Config, s: Sys, a: Action, id: int)
    requires Enabled(cfg, s, a) && !a.Evaluate?
    ensures SafeBelow(s, id) - Hit(s, a) <= SafeBelow(Apply(cfg, s, a), id)
  {
    var s' := Apply(cfg, s, a);
    TargetsShrink(cfg, s, a);
    DoomedGrow(cfg, s, a);
    forall n | n in SafeBelow(s, id) - Hit(s, a) ensures n in SafeBelow(s', id) {
      if !Active(s'.nodes, n) {
        WhoDeactivates(cfg, s, a, n);
      }
    }
  }

  lemma HitsOne(s: Sys, a: Action)
    ensures |Hit(s, a)| <= 1
  {
  }

  lemma LessOne(big: set<int>, hit: set<int>, rest: set<int>)
    requires big - hit <= rest && |hit| <= 1
    ensures |big| <= |rest| + 1 && (big * hit == {} ==> |big| <= |rest|)
  {
    Subset(big - hit, rest);
    Subset(big * hit, hit);
    assert big == (big - hit) + (big * hit);
    DisjointUnionSize(big - hit, big * hit);
  }

  // -------------------------------------------------------------- launches

  /** A scale-down launch aims at the largest of more nodes than the floor, all of them ready. */
  lemma LaunchAim(cfg: Config, s: Sys, pending: int)
    requires Loaded(cfg)
    requires DecideDown(cfg, s.downSince, SysReading(cfg, s, pending)).target.Some?
    ensures var t := DecideDown(cfg, s.downSince, SysReading(cfg, s, pending)).target.value;
            && t in s.nodes && |s.nodes| > cfg.minNodes
            && forall n :: n in s.nodes ==> Active(s.nodes, n) && n <= t
  {
    LaunchState(cfg, s.nodes, s.lastEvent, s.upSince, s.downSince, pending, s.clock);
  }

  /** The new target is guarded too: by the guard of an older one, or because all but the doomed are safe. */
  lemma NewTargetGuarded(cfg: Config, s: Sys, t: int, debt: nat)
    requires Guarded(cfg, s, debt) && |s.nodes| > cfg.minNodes && |s.nodes.Keys * Doomed(s.tasks)| <= debt
    requires t in s.nodes && forall n :: n in s.nodes ==> Active(s.nodes, n) && n <= t
    ensures |SafeBelow(s, t)| + debt >= cfg.minNodes
  {
    var others := s.nodes.Keys - {t};
    var aimed := others * Targets(s.tasks);
    if aimed == {} {
      forall n | n in others - Doomed(s.tasks) ensures n in SafeBelow(s, t) {
        assert n !in aimed;
      }
      AllButDoomed(s.nodes.Keys, t, Doomed(s.tasks), SafeBelow(s, t));
      assert |s.nodes| == |s.nodes.Keys|;
    } else {
      var older := Inhabited(aimed);
      Subset(SafeBelow(s, older), SafeBelow(s, t));
    }
  }

  lemma AllButDoomed(keys: set<int>, t: int, doomed: set<int>, safe: set<int>)
    requires t in keys && (keys - {t}) - doomed <= safe
    ensures |safe| + |keys * doomed| >= |keys| - 1
  {
    var others := keys - {t};
    RemainderSize(keys, {t});
    Subset(others - doomed, safe);
    Subset(others * doomed, keys * doomed);
    assert others == (others - doomed) + (others * doomed);
    DisjointUnionSize(others - doomed, others * doomed);
  }

  ghost function LaunchedTarget(cfg: Config, s: Sys, a: Action): set<int>
    requires a.Evaluate?
  {
    var d := DecideDown(cfg, s.downSince, SysReading(cfg, s, a.pending));
    if d.target.Some? then {d.target.value} else {}
  }

  lemma EvaluateKeepsTasks(cfg: Config, s: Sys, a: Action)
    requires Enabled(cfg, s, a) && a.Evaluate?
    ensures Targets(s.tasks) + LaunchedTarget(cfg, s, a) <= Targets(Apply(cfg, s, a).tasks)
    ensures Doomed(s.tasks) <= Doomed(Apply(cfg, s, a).tasks)
  {
    var tasks' := Apply(cfg, s, a).tasks;
    forall tid | tid in s.tasks ensures tid in tasks' && tasks'[tid] == s.tasks[tid] {
    }
    forall tid | tid in s.tasks && IsDown(s.tasks[tid]) ensures s.tasks[tid].id in Targets(tasks') {
      TargetsMember(tasks', tid);
    }
    forall tid | tid in s.tasks && IsDoom(s.tasks[tid]) ensures s.tasks[tid].id in Doomed(tasks') {
      TargetsMember(tasks', tid);
    }
    if LaunchedTarget(cfg, s, a) != {} {
      assert IsDown(tasks'[a.down]);
      TargetsMember(tasks', a.down);
    }
  }

  lemma EvaluateAddsTarget(cfg: Config, s: Sys, a: Action)
    requires Enabled(cfg, s, a) && a.Evaluate?
    ensures Targets(Apply(cfg, s, a).tasks) <= Targets(s.tasks) + LaunchedTarget(cfg, s, a)
  {
    var tasks' := Apply(cfg, s, a).tasks;
    forall tid | tid in tasks' && IsDown(tasks'[tid])
      ensures tasks'[tid].id in Targets(s.tasks) + LaunchedTarget(cfg, s, a)
    {
      if tid in s.tasks {
        TargetsMember(s.tasks, tid);
      }
    }
  }

  lemma EvaluateTargets(cfg: Config, s: Sys, a: Action)
    requires Enabled(cfg, s, a) && a.Evaluate?
    ensures var s' := Apply(cfg, s, a);
            && s'.nodes == s.nodes && Doomed(s'.tasks) == Doomed(s.tasks)
            && Targets(s'.tasks) == Targets(s.tasks) + LaunchedTarget(cfg, s, a)
  {
    EvaluateKeepsTasks(cfg, s, a);
    EvaluateAddsTarget(cfg, s, a);
    DoomedGrow(cfg, s, a);
  }

  /** One more ScaleDown, of the largest node: older guards stand, or take over the new one's. */
  lemma NewTargetKeepsGuard(cfg: Config, s: Sys, s': Sys, t: int, debt: nat)
    requires Guarded(cfg, s, debt) && s'.nodes == s.nodes
    requires Targets(s'.tasks) == Targets(s.tasks) + {t} && Doomed(s'.tasks) == Doomed(s.tasks)
    requires |SafeBelow(s, t)| + debt >= cfg.minNodes
    ensures Guarded(cfg, s', debt)
  {
    assert SafeBelow(s', t) == SafeBelow(s, t);
    forall id | id in Targets(s'.tasks) ensures |SafeBelow(s', id)| + debt >= cfg.minNodes {
      if t < id {
        Subset(SafeBelow(s', t), SafeBelow(s', id));
      } else {
        assert SafeBelow(s', id) == SafeBelow(s, id);
      }
    }
  }

  lemma SameTargetsKeepGuard(cfg: Config, s: Sys, s': Sys, debt: nat)
    requires Guarded(cfg, s, debt) && s'.nodes == s.nodes
    requires Targets(s'.tasks) == Targets(s.tasks) && Doomed(s'.tasks) == Doomed(s.tasks)
    ensures Guarded(cfg, s', debt)
  {
    forall id | id in Targets(s'.tasks) ensures |SafeBelow(s', id)| + debt >= cfg.minNodes {
      assert SafeBelow(s', id) == SafeBelow(s, id);
    }
  }

  lemma AimKeepsGuard(cfg: Config, s: Sys, s': Sys, a: Action, debt: nat)
    requires Loaded(cfg) && a.Evaluate? && Guarded(cfg, s, debt)
    requires LaunchedTarget(cfg, s, a) != {} ==> |s.nodes.Keys * Doomed(s.tasks)| <= debt
    requires s'.nodes == s.nodes && Doomed(s'.tasks) == Doomed(s.tasks)
    requires Targets(s'.tasks) == Targets(s.tasks) + LaunchedTarget(cfg, s, a)
    ensures Guarded(cfg, s', debt)
  {
    var d := DecideDown(cfg, s.downSince, SysReading(cfg, s, a.pending));
    if d.target.Some? {
      LaunchAim(cfg, s, a.pending);
      NewTargetGuarded(cfg, s, d.target.value, debt);
      NewTargetKeepsGuard(cfg, s, s', d.target.value, debt);
    } else {
      SameTargetsKeepGuard(cfg, s, s', debt);
    }
  }

  // -------------------------------------------------------------- the guard step by step

  /** The step hits a node that some ScaleDown under way counts on. */
  ghost predicate HitsBelow(s: Sys, a: Action) {
    exists t :: t in Targets(s.tasks) && SafeBelow(s, t) * Hit(s, a) != {}
  }

  lemma GuardStep(cfg: Config, s: Sys, a: Action, debt: nat)
    requires Loaded(cfg) && Enabled(cfg, s, a) && Guarded(cfg, s, debt)
    requires a.Evaluate? && LaunchedTarget(cfg, s, a) != {} ==> |s.nodes.Keys * Doomed(s.tasks)| <= debt
    ensures Guarded(cfg, Apply(cfg, s, a), debt + Bit(HitsBelow(s, a)))
  {
    var s' := Apply(cfg, s, a);
    if a.Evaluate? {
      EvaluateTargets(cfg, s, a);
      AimKeepsGuard(cfg, s, s', a, debt);
    } else {
      TargetsShrink(cfg, s, a);
      HitsOne(s, a);
      forall id | id in Targets(s'.tasks) ensures |SafeBelow(s', id)| + debt + Bit(HitsBelow(s, a)) >= cfg.minNodes {
        SafeStays(cfg, s, a, id);
        LessOne(SafeBelow(s, id), Hit(s, a), SafeBelow(s', id));
      }
    }
  }

  // -------------------------------------------------------------- which steps break the floor

  lemma CountsAreSets(m: NodeMap, id: int)
    ensures id in Matching(m, IsActive) <==> Active(m, id)
  {
  }

  /** A step changes the activity of one node at most. */
  lemma OneAtATime(cfg: Config, s: Sys, op: Option<NodeOp>)
    ensures ActiveCount(Perform(cfg, s, op)) >= ActiveCount(s.nodes) - 1
    ensures op.Some? && Active(s.nodes, op.value.id) && !Active(Perform(cfg, s, op), op.value.id) ==>
              ActiveCount(Perform(cfg, s, op)) == ActiveCount(s.nodes) - 1
  {
    if op.Some? {
      var id := op.value.id;
      var m' := Perform(cfg, s, op);
      assert m' - {id} == s.nodes - {id};
      CountDrop(s.nodes, id, IsActive);
      CountDrop(m', id, IsActive);
    }
  }

  /** A node that was active and no longer is, when there are fewer. */
  lemma SomeoneLeft(m: NodeMap, m': NodeMap) returns (id: int)
    requires ActiveCount(m') < ActiveCount(m)
    ensures Active(m, id) && !Active(m', id)
  {
    var lost := Matching(m, IsActive) - Matching(m', IsActive);
    if lost == {} {
      NothingLeftIff(Matching(m, IsActive), Matching(m', IsActive));
      Subset(Matching(m, IsActive), Matching(m', IsActive));
    }
    id := Inhabited(lost);
  }

  /** A ScaleDown that takes its target leaves everything safe below it. */
  lemma TargetLeavesSafe(cfg: Config, s: Sys, a: Action, id: int)
    requires Enabled(cfg, s, a) && a.Run? && !Takes(s, a) && Hit(s, a) == {}
    ensures |SafeBelow(s, id)| <= ActiveCount(Apply(cfg, s, a).nodes)
  {
    var s' := Apply(cfg, s, a);
    SafeStays(cfg, s, a, id);
    forall n | n in SafeBelow(s, id) ensures n in Matching(s'.nodes, IsActive) {
      assert n in SafeBelow(s', id);
    }
    Subset(SafeBelow(s, id), Matching(s'.nodes, IsActive));
  }

  lemma TakesTakes(cfg: Config, s: Sys, a: Action)
    requires Enabled(cfg, s, a) && Takes(s, a)
    ensures ActiveCount(Apply(cfg, s, a).nodes) == ActiveCount(s.nodes) - 1
  {
    OneAtATime(cfg, s, OpOf(cfg, s, a));
  }

  /**
   * While every ScaleDown under way is guarded, a step takes the fleet below the floor exactly when
   * the fleet is no larger than the floor and the step takes an active node without a floor check:
   * a sweep, or a waiter that gave up. No ScaleDown ever does.
   */
  lemma FloorBreaksIff(cfg: Config, s: Sys, a: Action)
    requires Enabled(cfg, s, a) && Guarded(cfg, s, 0)
    ensures var before, after := ActiveCount(s.nodes), ActiveCount(Apply(cfg, s, a).nodes);
            after < before && after < cfg.minNodes <==> before <= cfg.minNodes && Takes(s, a)
  {
    var s' := Apply(cfg, s, a);
    if Takes(s, a) {
      TakesTakes(cfg, s, a);
    } else if ActiveCount(s'.nodes) < ActiveCount(s.nodes) {
      var id := SomeoneLeft(s.nodes, s'.nodes);
      WhoDeactivates(cfg, s, a, id);
      PollTakesNothing(cfg, s, a, id);
      TargetLeavesSafe(cfg, s, a, id);
    }
  }

  lemma PollTakesNothing(cfg: Config, s: Sys, a: Action, id: int)
    requires Enabled(cfg, s, a) && a.Run? && Active(s.nodes, id) && !Active(Apply(cfg, s, a).nodes, id)
    ensures Hit(s, a) == {}
  {
  }

  // -------------------------------------------------------------- whole runs

  /**
   * Nothing a ScaleDown under way counts on is swept or fails, and no ScaleDown is launched while a
   * tracked node is being given up on.
   */
  ghost predicate Undisturbed(cfg: Config, s: Sys, a: Action) {
    && !HitsBelow(s, a)
    && (a.Evaluate? && LaunchedTarget(cfg, s, a) != {} ==> s.nodes.Keys * Doomed(s.tasks) == {})
  }

  ghost predicate UndisturbedRun(cfg: Config, acts: seq<Action>)
    requires IsRun(cfg, acts)
  {
    acts != [] ==>
      var init := acts[..|acts| - 1];
      UndisturbedRun(cfg, init) && Undisturbed(cfg, Exec(cfg, init), acts[|acts| - 1])
  }

  lemma {:induction false} GuardOverRuns(cfg: Config, acts: seq<Action>)
    requires Loaded(cfg) && IsRun(cfg, acts) && UndisturbedRun(cfg, acts)
    ensures Guarded(cfg, Exec(cfg, acts), 0)
  {
    if acts != [] {
      var init := acts[..|acts| - 1];
      GuardOverRuns(cfg, init);
      GuardStep(cfg, Exec(cfg, init), acts[|acts| - 1], 0);
    }
  }

  /** So on undisturbed runs, with any number of ScaleDowns under way, any next step breaks the floor exactly then. */
  lemma FloorHolds(cfg: Config, acts: seq<Action>, a: Action)
    requires Loaded(cfg) && IsRun(cfg, acts) && UndisturbedRun(cfg, acts) && Enabled(cfg, Exec(cfg, acts), a)
    ensures var s := Exec(cfg, acts);
            var before, after := ActiveCount(s.nodes), ActiveCount(Apply(cfg, s, a).nodes);
            after < before && after < cfg.minNodes <==> before <= cfg.minNodes && Takes(s, a)
  {
    GuardOverRuns(cfg, acts);
    FloorBreaksIff(cfg, Exec(cfg, acts), a);
  }

  // -------------------------------------------------------------- how far below, on any run

  /** How many nodes the sweep took while active, or a waiter gave up on, in a run. */
  ghost function Losses(cfg: Config, acts: seq<Action>): nat
    requires IsRun(cfg, acts)
  {
    if acts == [] then 0
    else
      var init := acts[..|acts| - 1];
      Losses(cfg, init) + |Hit(Exec(cfg, init), acts[|acts| - 1])|
  }

  lemma GuardGrows(cfg: Config, s: Sys, debt: nat, more: nat)
    requires Guarded(cfg, s, debt) && debt <= more
    ensures Guarded(cfg, s, more)
  {
  }

  lemma {:induction false} GuardedUpToLosses(cfg: Config, acts: seq<Action>)
    requires Loaded(cfg) && IsRun(cfg, acts)
    ensures Guarded(cfg, Exec(cfg, acts), Losses(cfg, acts))
    ensures |Doomed(Exec(cfg, acts).tasks)| <= Losses(cfg, acts)
  {
    if acts != [] {
      var init, last := acts[..|acts| - 1], acts[|acts| - 1];
      var s := Exec(cfg, init);
      GuardedUpToLosses(cfg, init);
      Subset(s.nodes.Keys * Doomed(s.tasks), Doomed(s.tasks));
      GuardStep(cfg, s, last, Losses(cfg, init));
      assert HitsBelow(s, last) ==> Hit(s, last) != {};
      GuardGrows(cfg, Exec(cfg, acts), Losses(cfg, init) + Bit(HitsBelow(s, last)), Losses(cfg, acts));
      DoomedGrow(cfg, s, last);
      SizeOfUnion(Doomed(Exec(cfg, acts).tasks), Doomed(s.tasks), Hit(s, last));
    }
  }

  lemma SizeOfUnion(all: set<int>, a: set<int>, b: set<int>)
    requires all <= a + b
    ensures |all| <= |a| + |b|
  {
    Subset(all, a + b);
    assert a + b == a + (b - a);
    DisjointUnionSize(a, b - a);
    Subset(b - a, b);
  }

  /** Active nodes that no waiter is giving up on. */
  ghost function Sound(s: Sys): set<int> {
    Matching(s.nodes, IsActive) - Doomed(s.tasks)
  }

  /** Unless a ScaleDown takes its target, a sound node stays sound when it is not hit. */
  lemma SoundStays(cfg: Config, s: Sys, a: Action, n: int)
    requires Enabled(cfg, s, a) && n in Sound(s) - Hit(s, a)
    ensures n in Sound(Apply(cfg, s, a)) || (a.Run? && !Takes(s, a) && Hit(s, a) == {} && n in Targets(s.tasks))
  {
    var s' := Apply(cfg, s, a);
    DoomedGrow(cfg, s, a);
    CountsAreSets(s.nodes, n);
    CountsAreSets(s'.nodes, n);
    if !Active(s'.nodes, n) {
      WhoDeactivates(cfg, s, a, n);
      if a.Run? {
        PollTakesNothing(cfg, s, a, n);
      }
    }
  }

  lemma SoundStep(cfg: Config, s: Sys, a: Action, losses: nat)
    requires Enabled(cfg, s, a) && Guarded(cfg, s, losses) && |Sound(s)| + losses >= cfg.minNodes
    ensures |Sound(Apply(cfg, s, a))| + losses + |Hit(s, a)| >= cfg.minNodes
  {
    var s' := Apply(cfg, s, a);
    HitsOne(s, a);
    if Sound(s) - Hit(s, a) <= Sound(s') {
      LessOne(Sound(s), Hit(s, a), Sound(s'));
      assert Hit(s, a) == {} ==> Sound(s) * Hit(s, a) == {};
    } else {
      NothingLeftIff(Sound(s) - Hit(s, a), Sound(s'));
      var n := Inhabited((Sound(s) - Hit(s, a)) - Sound(s'));
      SoundStays(cfg, s, a, n);
      SafeAreSound(cfg, s, a, n);
    }
  }

  lemma SafeAreSound(cfg: Config, s: Sys, a: Action, id: int)
    requires Enabled(cfg, s, a) && a.Run? && Hit(s, a) == {}
    ensures |SafeBelow(s, id)| <= |Sound(Apply(cfg, s, a))|
  {
    var s' := Apply(cfg, s, a);
    SafeStays(cfg, s, a, id);
    forall n | n in SafeBelow(s, id) ensures n in Sound(s') {
      assert n in SafeBelow(s', id);
      CountsAreSets(s'.nodes, n);
    }
    Subset(SafeBelow(s, id), Sound(s'));
  }

  lemma SoundAtFloor(cfg: Config, s: Sys, losses: nat)
    requires ActiveCount(s.nodes) >= cfg.minNodes && |Doomed(s.tasks)| <= losses
    ensures |Sound(s)| + losses >= cfg.minNodes
  {
    SizeOfUnion(Matching(s.nodes, IsActive), Sound(s), Doomed(s.tasks));
  }

  lemma {:induction false} SoundSince(cfg: Config, acts: seq<Action>, n: nat)
    requires Loaded(cfg) && IsRun(cfg, acts) && n <= |acts| && IsRun(cfg, acts[..n])
    requires ActiveCount(Exec(cfg, acts[..n]).nodes) >= cfg.minNodes
    ensures |Sound(Exec(cfg, acts))| + Losses(cfg, acts) >= cfg.minNodes
  {
    if n == |acts| {
      assert acts[..n] == acts;
      GuardedUpToLosses(cfg, acts);
      SoundAtFloor(cfg, Exec(cfg, acts), Losses(cfg, acts));
    } else {
      var init := acts[..|acts| - 1];
      assert init[..n] == acts[..n];
      SoundSince(cfg, init, n);
      GuardedUpToLosses(cfg, init);
      SoundStep(cfg, Exec(cfg, init), acts[|acts| - 1], Losses(cfg, init));
    }
  }

  /**
   * On every run whatsoever: once the fleet has reached the floor, the active count never falls
   * further below it than nodes were swept while active or given up on. ScaleDowns, however many
   * and however they overlap, cost nothing.
   */
  lemma FloorIsKept(cfg: Config, acts: seq<Action>, n: nat)
    requires Loaded(cfg) && IsRun(cfg, acts) && n <= |acts| && IsRun(cfg, acts[..n])
    requires ActiveCount(Exec(cfg, acts[..n]).nodes) >= cfg.minNodes
    ensures ActiveCount(Exec(cfg, acts).nodes) + Losses(cfg, acts) >= cfg.minNodes
  {
    var s := Exec(cfg, acts);
    SoundSince(cfg, acts, n);
    Subset(Sound(s), Matching(s.nodes, IsActive));
  }
}
