/** What every run of the transition system keeps: the cap, the lifecycle, the timers, the cooldown. */
module SystemInvariants {
  import opened Common
  import opened Nodes
  import opened Scaling
  import opened ScalingTraces
  import opened Interleaving

  // -------------------------------------------------------------- the node table

  lemma {:induction false} PrefixIsRun(cfg: Config, acts: seq<Action>, n: nat)
    requires IsRun(cfg, acts) && n <= |acts|
    ensures IsRun(cfg, acts[..n])
  {
    if n < |acts| {
      PrefixIsRun(cfg, acts[..|acts| - 1], n);
      assert acts[..|acts| - 1][..n] == acts[..n];
    } else {
      assert acts[..n] == acts;
    }
  }

  /** The node-manager calls a run makes after its first `n` actions, in order. */
  ghost function CallsSince(cfg: Config, acts: seq<Action>, n: nat): seq<Call>
    requires IsRun(cfg, acts)
  {
    if |acts| <= n then []
    else
      var init := acts[..|acts| - 1];
      CallsSince(cfg, init, n) + CallOf(cfg, Exec(cfg, init), acts[|acts| - 1])
  }

  /** The call one action makes, if any. */
  ghost function CallOf(cfg: Config, s: Sys, a: Action): seq<Call>
    requires Enabled(cfg, s, a)
  {
    var op := OpOf(cfg, s, a);
    if op.Some? then [Call(op.value, s.clock)] else []
  }

  lemma NodesChangeByCalls(cfg: Config, s: Sys, a: Action)
    requires Enabled(cfg, s, a)
    ensures Apply(cfg, s, a).nodes == Perform(cfg, s, OpOf(cfg, s, a))
  {
  }

  /** Replaying one more call, or none. */
  lemma ReplayNext(m: NodeMap, cap: int, calls: seq<Call>, more: seq<Call>)
    requires |more| <= 1
    ensures Replay(m, cap, calls + more) ==
              if more == [] then Replay(m, cap, calls) else After(Replay(m, cap, calls), cap, more[0].op, more[0].now)
  {
    if more == [] {
      assert calls + more == calls;
    } else {
      assert (calls + more)[..|calls|] == calls;
    }
  }

  /** From any point of a run on, the table is the replay of the calls made since. */
  lemma {:induction false} TableIsReplay(cfg: Config, acts: seq<Action>, n: nat)
    requires IsRun(cfg, acts) && n <= |acts| && IsRun(cfg, acts[..n])
    ensures Exec(cfg, acts).nodes == Replay(Exec(cfg, acts[..n]).nodes, cfg.maxNodes, CallsSince(cfg, acts, n))
  {
    if n == |acts| {
      assert acts[..n] == acts;
    } else {
      var init, last := acts[..|acts| - 1], acts[|acts| - 1];
      var s := Exec(cfg, init);
      assert init[..n] == acts[..n];
      TableIsReplay(cfg, init, n);
      NodesChangeByCalls(cfg, s, last);
      ReplayNext(Exec(cfg, acts[..n]).nodes, cfg.maxNodes, CallsSince(cfg, init, n), CallOf(cfg, s, last));
    }
  }

  /** The node is tracked after the first `n` actions and after every action since. */
  ghost predicate TrackedSince(cfg: Config, acts: seq<Action>, n: nat, id: int)
    requires IsRun(cfg, acts)
  {
    id in Exec(cfg, acts).nodes && (|acts| > n ==> TrackedSince(cfg, acts[..|acts| - 1], n, id))
  }

  lemma StaysTrackedNext(m: NodeMap, cap: int, calls: seq<Call>, more: seq<Call>, id: int)
    requires |more| <= 1 && StaysTracked(m, cap, calls, id) && id in Replay(m, cap, calls + more)
    ensures StaysTracked(m, cap, calls + more, id)
  {
    var all := calls + more;
    forall k | 0 <= k <= |all| ensures id in Replay(m, cap, all[..k]) {
      if k <= |calls| {
        assert all[..k] == calls[..k];
      } else {
        assert all[..k] == all;
      }
    }
  }

  lemma {:induction false} TrackedMeansStaysTracked(cfg: Config, acts: seq<Action>, n: nat, id: int)
    requires IsRun(cfg, acts) && n <= |acts| && IsRun(cfg, acts[..n]) && TrackedSince(cfg, acts, n, id)
    ensures StaysTracked(Exec(cfg, acts[..n]).nodes, cfg.maxNodes, CallsSince(cfg, acts, n), id)
  {
    var m := Exec(cfg, acts[..n]).nodes;
    TableIsReplay(cfg, acts, n);
    if n == |acts| {
      assert acts[..n] == acts;
    } else {
      var init := acts[..|acts| - 1];
      assert init[..n] == acts[..n];
      TrackedMeansStaysTracked(cfg, init, n, id);
      StaysTrackedNext(m, cfg.maxNodes, CallsSince(cfg, init, n), CallOf(cfg, Exec(cfg, init), acts[|acts| - 1]), id);
    }
  }

  /**
   * The lifecycle over every run: from any point on, for as long as a node stays tracked, its rank
   * never falls, it changes state at most three times, and its ready time is written at most once.
   */
  lemma LifecycleOverRuns(cfg: Config, acts: seq<Action>, n: nat, id: int)
    requires Loaded(cfg) && IsRun(cfg, acts) && n <= |acts| && IsRun(cfg, acts[..n]) && TrackedSince(cfg, acts, n, id)
    ensures var m, m' := Exec(cfg, acts[..n]).nodes, Exec(cfg, acts).nodes;
            var calls := CallsSince(cfg, acts, n);
            && id in m && id in m' && StaysTracked(m, cfg.maxNodes, calls, id)
            && Rank(m[id].state) + StateChanges(m, cfg.maxNodes, calls, id) <= Rank(m'[id].state) <= 3
            && (m[id].readyAt != None ==> m'[id].readyAt == m[id].readyAt)
            && (m[id].readyAt == None && m'[id].readyAt != None ==> m[id].state == Provisioning)
            && m'[id].name == m[id].name && m'[id].createdAt == m[id].createdAt
  {
    var m := Exec(cfg, acts[..n]).nodes;
    CapHolds(cfg, acts[..n]);
    TableIsReplay(cfg, acts, n);
    TrackedMeansStaysTracked(cfg, acts, n, id);
    LifecycleOverAnyInterleaving(m, cfg.maxNodes, CallsSince(cfg, acts, n), id);
  }

  /** No reachable state tracks more nodes than the cap allows, on any interleaving. */
  lemma {:induction false} CapHolds(cfg: Config, acts: seq<Action>)
    requires Loaded(cfg) && IsRun(cfg, acts)
    ensures |Exec(cfg, acts).nodes| <= cfg.maxNodes && WellStamped(Exec(cfg, acts).nodes)
  {
    assert acts[..0] == [];
    TableIsReplay(cfg, acts, 0);
    ReplayKeepsInvariants(map[], cfg.maxNodes, CallsSince(cfg, acts, 0));
  }

  // -------------------------------------------------------------- timers and cooldown

  ghost function LastOf(events: seq<int>): Option<int> {
    if events == [] then None else Some(events[|events| - 1])
  }

  /** The timers are what the readings so far make of them, and the last event is the last recorded one. */
  ghost predicate HistoryHolds(cfg: Config, s: Sys) {
    && Ordered(s.obs) && (s.obs != [] ==> s.obs[|s.obs| - 1].now <= s.clock)
    && s.upSince == UpTimer(cfg, s.obs) && s.downSince == DownTimer(cfg, s.obs)
    && s.lastEvent == LastOf(s.events)
    && (forall i, j :: 0 <= i <= j < |s.events| ==> s.events[i] <= s.events[j] <= s.clock)
  }

  lemma {:induction false} HistoryOverRuns(cfg: Config, acts: seq<Action>)
    requires IsRun(cfg, acts)
    ensures HistoryHolds(cfg, Exec(cfg, acts))
  {
    if acts != [] {
      var init, last := acts[..|acts| - 1], acts[|acts| - 1];
      HistoryOverRuns(cfg, init);
      HistoryStep(cfg, Exec(cfg, init), last);
    }
  }

  lemma HistoryStep(cfg: Config, s: Sys, a: Action)
    requires HistoryHolds(cfg, s) && Enabled(cfg, s, a)
    ensures HistoryHolds(cfg, Apply(cfg, s, a))
  {
    match a {
      case Evaluate(pending, _, _) => EvaluateKeepsHistory(cfg, s, a);
      case Run(_, _) => TaskKeepsHistory(cfg, s, a);
      case _ =>
    }
  }

  lemma EvaluateKeepsHistory(cfg: Config, s: Sys, a: Action)
    requires HistoryHolds(cfg, s) && Enabled(cfg, s, a) && a.Evaluate?
    ensures HistoryHolds(cfg, Apply(cfg, s, a))
  {
    var r := SysReading(cfg, s, a.pending);
    OrderedNext(s.obs, r);
    TimersNext(cfg, s.obs, r);
  }

  lemma OrderedNext(obs: seq<Reading>, r: Reading)
    requires Ordered(obs) && (obs != [] ==> obs[|obs| - 1].now <= r.now)
    ensures Ordered(obs + [r])
  {
    var all := obs + [r];
    forall i, j | 0 <= i <= j < |all| ensures all[i].now <= all[j].now {
      if j == |obs| && i < j {
        assert obs[i].now <= obs[|obs| - 1].now;
      }
    }
  }

  lemma TimersNext(cfg: Config, obs: seq<Reading>, r: Reading)
    ensures UpTimer(cfg, obs + [r]) == DecideUp(cfg, UpTimer(cfg, obs), r).since
    ensures DownTimer(cfg, obs + [r]) == DecideDown(cfg, DownTimer(cfg, obs), r).since
  {
    assert (obs + [r])[..|obs|] == obs;
  }

  lemma TaskKeepsHistory(cfg: Config, s: Sys, a: Action)
    requires HistoryHolds(cfg, s) && Enabled(cfg, s, a) && a.Run?
    ensures HistoryHolds(cfg, Apply(cfg, s, a))
  {
  }

  /**
   * On every run, whatever interleaves with the loop: k scale-out launches take at least k
   * scale-up durations of ticks, and scale-down launches the idle time each of them required.
   */
  lemma LaunchesTakeTime(cfg: Config, acts: seq<Action>)
    requires IsRun(cfg, acts)
    ensures var obs := Exec(cfg, acts).obs;
            && (ScaleOuts(cfg, obs) > 0 ==>
                  obs[|obs| - 1].now - obs[0].now >= ScaleOuts(cfg, obs) * cfg.scaleUpDuration)
            && (ScalesDown(cfg, obs) ==> obs[|obs| - 1].now - obs[0].now >= IdleOwed(cfg, obs))
  {
    var obs := Exec(cfg, acts).obs;
    HistoryOverRuns(cfg, acts);
    if ScaleOuts(cfg, obs) > 0 {
      ScaleOutsTakeTime(cfg, obs);
    }
    if ScalesDown(cfg, obs) {
      ScaleDownsTakeTime(cfg, obs);
    }
  }

  /** Every passed check is at least the cooldown after every event recorded before it. */
  ghost predicate ChecksHold(cfg: Config, s: Sys) {
    forall k :: 0 <= k < |s.checks| ==>
      && s.checks[k].events <= |s.events|
      && forall j :: 0 <= j < s.checks[k].events ==> s.checks[k].at - s.events[j] >= cfg.cooldown
  }

  lemma ChecksStep(cfg: Config, s: Sys, a: Action)
    requires HistoryHolds(cfg, s) && ChecksHold(cfg, s) && Enabled(cfg, s, a)
    ensures ChecksHold(cfg, Apply(cfg, s, a))
  {
    match a {
      case Evaluate(pending, _, _) =>
        LaunchNeedsCooldown(cfg, s, pending);
        CooledDown(cfg, s);
      case Run(_, _) => ChecksTaskStep(cfg, s, a);
      case _ =>
    }
  }

  /** When the cooldown has passed since the last event, it has passed since every event. */
  lemma CooledDown(cfg: Config, s: Sys)
    requires HistoryHolds(cfg, s)
    ensures CanScale(cfg, s.lastEvent, s.clock) ==>
              forall j :: 0 <= j < |s.events| ==> s.clock - s.events[j] >= cfg.cooldown
  {
    if s.events != [] {
      assert forall j :: 0 <= j < |s.events| ==> s.events[j] <= s.events[|s.events| - 1];
    }
  }

  lemma ChecksTaskStep(cfg: Config, s: Sys, a: Action)
    requires HistoryHolds(cfg, s) && ChecksHold(cfg, s) && Enabled(cfg, s, a) && a.Run?
    ensures ChecksHold(cfg, Apply(cfg, s, a))
  {
    CooledDown(cfg, s);
    EffectKeepsChecks(cfg, s, a.tid, TaskEffect(cfg, s, s.tasks[a.tid], a.answer));
  }

  lemma EffectKeepsChecks(cfg: Config, s: Sys, tid: nat, e: Effect)
    requires ChecksHold(cfg, s)
    requires e.check ==> forall j :: 0 <= j < |s.events| ==> s.clock - s.events[j] >= cfg.cooldown
    ensures ChecksHold(cfg, ApplyEffect(cfg, s, tid, e))
  {
  }

  lemma LaunchNeedsCooldown(cfg: Config, s: Sys, pending: int)
    ensures var r := SysReading(cfg, s, pending);
            DecideUp(cfg, s.upSince, r).launch != NoLaunch || DecideDown(cfg, s.downSince, r).target.Some?
            ==> CanScale(cfg, s.lastEvent, s.clock)
  {
  }

  /** The cooldown as a history invariant of every run. */
  lemma {:induction false} CooldownHolds(cfg: Config, acts: seq<Action>)
    requires IsRun(cfg, acts)
    ensures ChecksHold(cfg, Exec(cfg, acts))
  {
    if acts != [] {
      var init := acts[..|acts| - 1];
      CooldownHolds(cfg, init);
      HistoryOverRuns(cfg, init);
      ChecksStep(cfg, Exec(cfg, init), acts[|acts| - 1]);
    }
  }
}
