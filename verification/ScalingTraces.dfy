/**
 * The two scaling timers over whole runs. The readings are arbitrary, so the results hold however
 * the rest of the system interleaves with the tick loop.
 */
module ScalingTraces {
  import opened Common
  import opened Scaling
  import opened Timers

  /** Readings in clock order. */
  ghost predicate Ordered(obs: seq<Reading>) {
    forall i, j :: 0 <= i <= j < |obs| ==> obs[i].now <= obs[j].now
  }

  // -------------------------------------------------------------- scale-up timer

  ghost function UpTimer(cfg: Config, obs: seq<Reading>): Option<int> {
    if obs == [] then None
    else DecideUp(cfg, UpTimer(cfg, obs[..|obs| - 1]), obs[|obs| - 1]).since
  }

  ghost function UpLaunch(cfg: Config, obs: seq<Reading>, i: nat): UpLaunch
    requires i < |obs|
  {
    DecideUp(cfg, UpTimer(cfg, obs[..i]), obs[i]).launch
  }

  /** A tick that leaves the timer alone: the cold-start branch, or work above the threshold. */
  predicate KeepsUp(cfg: Config, r: Reading) {
    (r.pending > 0 && r.active == 0) || r.pending > cfg.scaleUpThreshold
  }

  /** The guards of the N to N+1 path: too much work, every active node ready, at least one, and room for one more. */
  predicate Guarded(cfg: Config, r: Reading) {
    r.pending > cfg.scaleUpThreshold && r.ready == r.active && 0 < r.active < cfg.maxNodes
  }

  /** Nothing to do for at least one ready node, above the floor. */
  predicate Unused(cfg: Config, r: Reading) {
    r.pending <= 0 && r.ready > 0 && 0 < r.active && cfg.minNodes < r.active
  }

  ghost function UpTick(cfg: Config, obs: seq<Reading>, i: nat): Tick
    requires i < |obs|
  {
    Tick(obs[i].now, Guarded(cfg, obs[i]) && !(obs[i].pending > 0 && obs[i].active == 0), KeepsUp(cfg, obs[i]),
         UpLaunch(cfg, obs, i) == ScaleOut, cfg.scaleUpDuration)
  }

  ghost function UpTicks(cfg: Config, obs: seq<Reading>): seq<Tick> {
    seq(|obs|, i requires 0 <= i < |obs| => UpTick(cfg, obs, i))
  }

  lemma UpTicksPrefix(cfg: Config, obs: seq<Reading>, n: nat)
    requires n <= |obs|
    ensures UpTicks(cfg, obs[..n]) == UpTicks(cfg, obs)[..n]
  {
    forall i | 0 <= i < n ensures UpTick(cfg, obs[..n], i) == UpTick(cfg, obs, i) {
      assert obs[..n][..i] == obs[..i];
    }
  }

  lemma {:induction false} UpTimerIsTimer(cfg: Config, obs: seq<Reading>)
    ensures UpTimer(cfg, obs) == Timer(UpTicks(cfg, obs))
  {
    if obs != [] {
      var n := |obs| - 1;
      UpTimerIsTimer(cfg, obs[..n]);
      UpTicksPrefix(cfg, obs, n);
      assert UpTicks(cfg, obs)[n] == UpTick(cfg, obs, n);
    }
  }

  /**
   * Work was sustained from tick `s` to tick `i`: `s` met every guard, each tick in between saw
   * work above the threshold or took the cold-start branch, and none of them launched a scale-out.
   */
  ghost predicate Sustained(cfg: Config, obs: seq<Reading>, s: nat, i: nat) {
    && s < i < |obs|
    && obs[s].pending > cfg.scaleUpThreshold && obs[s].ready == obs[s].active && 0 < obs[s].active < cfg.maxNodes
    && (forall j :: s <= j <= i ==>
          obs[j].pending > cfg.scaleUpThreshold || (obs[j].pending > 0 && obs[j].active == 0))
    && (forall j :: s <= j < i ==> UpLaunch(cfg, obs, j) != ScaleOut)
  }

  ghost predicate SustainedLong(cfg: Config, obs: seq<Reading>, s: nat, i: nat) {
    Sustained(cfg, obs, s, i) && obs[i].now - obs[s].now >= cfg.scaleUpDuration
  }

  /**
   * The N to N+1 path launches at a tick exactly when that tick meets the guards, cooldown and
   * in-progress checks allow it, and work was sustained for the configured time since some
   * earlier tick, with no such launch since then.
   */
  lemma ScaleOutIff(cfg: Config, obs: seq<Reading>, i: nat)
    requires Ordered(obs) && i < |obs|
    ensures UpLaunch(cfg, obs, i) == ScaleOut <==>
      && obs[i].pending > cfg.scaleUpThreshold && obs[i].ready == obs[i].active && 0 < obs[i].active < cfg.maxNodes
      && obs[i].canScale && !obs[i].inProgress
      && exists s: nat :: SustainedLong(cfg, obs, s, i)
  {
    var before := UpTicks(cfg, obs[..i]);
    UpTimerIsTimer(cfg, obs[..i]);
    UpTicksPrefix(cfg, obs, i);
    if UpLaunch(cfg, obs, i) == ScaleOut {
      var s := RunningMeansWindow(before);
      UpWindowIsSustained(cfg, obs, s, i);
      assert SustainedLong(cfg, obs, s, i);
    }
    if exists s: nat :: SustainedLong(cfg, obs, s, i) {
      var s: nat :| SustainedLong(cfg, obs, s, i);
      forall j | s <= j < i ensures before[j].keep && !before[j].fire {
        assert before[j] == UpTick(cfg, obs, j);
      }
      assert before[s] == UpTick(cfg, obs, s);
      WindowMeansRunning(before, s);
    }
  }

  lemma UpWindowIsSustained(cfg: Config, obs: seq<Reading>, s: nat, i: nat)
    requires i < |obs| && KeepsUp(cfg, obs[i])
    requires Window(UpTicks(cfg, obs)[..i], s, i)
    ensures Sustained(cfg, obs, s, i)
  {
    var before := UpTicks(cfg, obs)[..i];
    assert before[s] == UpTick(cfg, obs, s);
    forall j | s <= j < i ensures KeepsUp(cfg, obs[j]) && UpLaunch(cfg, obs, j) != ScaleOut {
      assert before[j].keep && !before[j].fire;
      assert before[j] == UpTick(cfg, obs, j);
    }
  }

  /** The cold-start path launches at a tick exactly when there is work and no active node, and both checks allow it. */
  lemma ColdStartIff(cfg: Config, obs: seq<Reading>, i: nat)
    requires i < |obs|
    ensures UpLaunch(cfg, obs, i) == ColdStart <==>
              obs[i].pending > 0 && obs[i].active == 0 && obs[i].canScale && !obs[i].inProgress
  {
  }

  /**
   * What a tick does to the scale-up timer: it starts it exactly when every guard is met, so never
   * while a node is not ready; it stops it exactly when it launches a scale-out or sees work at or
   * below the threshold outside the cold-start branch; and otherwise it leaves it running as it was.
   */
  lemma UpTimerSteps(cfg: Config, obs: seq<Reading>, i: nat)
    requires i < |obs|
    ensures var before, after := UpTimer(cfg, obs[..i]), UpTimer(cfg, obs[..i + 1]);
            && (before == None ==>
                  if obs[i].pending > cfg.scaleUpThreshold && obs[i].ready == obs[i].active
                     && 0 < obs[i].active < cfg.maxNodes
                  then after == Some(obs[i].now) else after == None)
            && (before != None ==>
                  if UpLaunch(cfg, obs, i) == ScaleOut
                     || (obs[i].pending <= cfg.scaleUpThreshold && !(obs[i].pending > 0 && obs[i].active == 0))
                  then after == None else after == before)
  {
    assert obs[..i + 1][..i] == obs[..i];
  }

  /** How many scale-outs a run of ticks launches. */
  ghost function ScaleOuts(cfg: Config, obs: seq<Reading>): nat {
    if obs == [] then 0
    else
      var n := |obs| - 1;
      ScaleOuts(cfg, obs[..n]) + if UpLaunch(cfg, obs, n) == ScaleOut then 1 else 0
  }

  lemma {:induction false} ScaleOutsOwe(cfg: Config, obs: seq<Reading>)
    ensures Owed(UpTicks(cfg, obs)) == Times(ScaleOuts(cfg, obs), cfg.scaleUpDuration)
  {
    if obs != [] {
      var n := |obs| - 1;
      ScaleOutsOwe(cfg, obs[..n]);
      UpTicksPrefix(cfg, obs, n);
      assert UpTicks(cfg, obs)[n] == UpTick(cfg, obs, n);
    }
  }

  lemma {:induction false} ScaleOutsFire(cfg: Config, obs: seq<Reading>)
    requires ScaleOuts(cfg, obs) > 0
    ensures Fires(UpTicks(cfg, obs))
  {
    var n := |obs| - 1;
    if UpLaunch(cfg, obs, n) == ScaleOut {
      assert UpTicks(cfg, obs)[n] == UpTick(cfg, obs, n);
    } else {
      ScaleOutsFire(cfg, obs[..n]);
      UpTicksPrefix(cfg, obs, n);
      var i :| 0 <= i < n && UpTicks(cfg, obs)[..n][i].fire;
      assert UpTicks(cfg, obs)[i].fire;
    }
  }

  /** k scale-outs span at least k scale-up durations. */
  lemma ScaleOutsTakeTime(cfg: Config, obs: seq<Reading>)
    requires Ordered(obs) && ScaleOuts(cfg, obs) > 0
    ensures obs[|obs| - 1].now - obs[0].now >= ScaleOuts(cfg, obs) * cfg.scaleUpDuration
  {
    var ticks := UpTicks(cfg, obs);
    forall i: nat | i < |ticks| && ticks[i].fire ensures Earned(ticks, i) {
      assert ticks[i] == UpTick(cfg, obs, i);
      ScaleOutIff(cfg, obs, i);
      var s: nat :| SustainedLong(cfg, obs, s, i);
      assert forall j :: s <= j < i ==> ticks[j] == UpTick(cfg, obs, j);
      assert EarnedBy(ticks, s, i);
    }
    ScaleOutsOwe(cfg, obs);
    ScaleOutsFire(cfg, obs);
    TimesIsProduct(ScaleOuts(cfg, obs), cfg.scaleUpDuration);
    var last := FiringsTakeTime(ticks);
  }

  // -------------------------------------------------------------- idle timer

  ghost function DownTimer(cfg: Config, obs: seq<Reading>): Option<int> {
    if obs == [] then None
    else DecideDown(cfg, DownTimer(cfg, obs[..|obs| - 1]), obs[|obs| - 1]).since
  }

  ghost predicate DownLaunch(cfg: Config, obs: seq<Reading>, i: nat)
    requires i < |obs|
  {
    DecideDown(cfg, DownTimer(cfg, obs[..i]), obs[i]).target.Some?
  }

  ghost function DownTick(cfg: Config, obs: seq<Reading>, i: nat): Tick
    requires i < |obs|
  {
    Tick(obs[i].now, Unused(cfg, obs[i]), Unused(cfg, obs[i]), DownLaunch(cfg, obs, i),
         if obs[i].active > 1 then cfg.scaleDownIdle else cfg.scaleToZeroIdle)
  }

  ghost function DownTicks(cfg: Config, obs: seq<Reading>): seq<Tick> {
    seq(|obs|, i requires 0 <= i < |obs| => DownTick(cfg, obs, i))
  }

  lemma DownTicksPrefix(cfg: Config, obs: seq<Reading>, n: nat)
    requires n <= |obs|
    ensures DownTicks(cfg, obs[..n]) == DownTicks(cfg, obs)[..n]
  {
    forall i | 0 <= i < n ensures DownTick(cfg, obs[..n], i) == DownTick(cfg, obs, i) {
      assert obs[..n][..i] == obs[..i];
    }
  }

  lemma {:induction false} DownTimerIsTimer(cfg: Config, obs: seq<Reading>)
    ensures DownTimer(cfg, obs) == Timer(DownTicks(cfg, obs))
  {
    if obs != [] {
      var n := |obs| - 1;
      DownTimerIsTimer(cfg, obs[..n]);
      DownTicksPrefix(cfg, obs, n);
      assert DownTicks(cfg, obs)[n] == DownTick(cfg, obs, n);
    }
  }

  /** Every tick from `s` to `i` was idle, and none before `i` launched a scale-down. */
  ghost predicate IdleSince(cfg: Config, obs: seq<Reading>, s: nat, i: nat) {
    && s <= i < |obs|
    && (forall j :: s <= j <= i ==>
          obs[j].pending <= 0 && obs[j].ready > 0 && 0 < obs[j].active && cfg.minNodes < obs[j].active)
    && (forall j :: s <= j < i ==> !DownLaunch(cfg, obs, j))
  }

  /** That lasted long enough for the last active node, or for one of several. */
  ghost predicate IdleLong(cfg: Config, obs: seq<Reading>, s: nat, i: nat) {
    && IdleSince(cfg, obs, s, i)
    && (obs[i].active > 1 ==> obs[i].now - obs[s].now >= cfg.scaleDownIdle)
    && (obs[i].active == 1 ==> obs[i].now - obs[s].now >= cfg.scaleToZeroIdle)
  }

  lemma DownWindowIsIdle(cfg: Config, obs: seq<Reading>, s: nat, i: nat)
    requires i < |obs| && Unused(cfg, obs[i])
    requires Window(DownTicks(cfg, obs)[..i], s, i)
    ensures IdleSince(cfg, obs, s, i)
  {
    var before := DownTicks(cfg, obs)[..i];
    forall j | s <= j < i ensures Unused(cfg, obs[j]) && !DownLaunch(cfg, obs, j) {
      assert before[j].keep && !before[j].fire;
      assert before[j] == DownTick(cfg, obs, j);
    }
  }

  lemma ScaleDownOnlyIf(cfg: Config, obs: seq<Reading>, i: nat)
    requires Ordered(obs) && i < |obs| && DownLaunch(cfg, obs, i)
    ensures exists s: nat :: IdleLong(cfg, obs, s, i)
  {
    DownTimerIsTimer(cfg, obs[..i]);
    DownTicksPrefix(cfg, obs, i);
    if DownTimer(cfg, obs[..i]).Some? {
      var s := RunningMeansWindow(DownTicks(cfg, obs[..i]));
      DownWindowIsIdle(cfg, obs, s, i);
      assert IdleLong(cfg, obs, s, i);
    } else {
      assert IdleLong(cfg, obs, i, i);
    }
  }

  lemma IdleTimerCovers(cfg: Config, obs: seq<Reading>, s: nat, i: nat)
    requires Ordered(obs) && IdleSince(cfg, obs, s, i)
    ensures var since := DownTimer(cfg, obs[..i]);
            if since.Some? then since.value <= obs[s].now else s == i
  {
    var before := DownTicks(cfg, obs[..i]);
    DownTimerIsTimer(cfg, obs[..i]);
    DownTicksPrefix(cfg, obs, i);
    if s < i {
      forall j | s <= j < i ensures before[j].keep && !before[j].fire {
        assert before[j] == DownTick(cfg, obs, j);
      }
      WindowMeansRunning(before, s);
    } else if Timer(before).Some? {
      var s0 := RunningMeansWindow(before);
      assert before[s0] == DownTick(cfg, obs, s0);
    }
  }

  /**
   * A tick launches a scale-down, of the node it reads as target, exactly when cooldown, in-progress
   * check and target allow it and an idle window ends there that contains no earlier scale-down
   * launch: one of the scale-down duration with several nodes active, of the scale-to-zero duration
   * with one.
   */
  lemma ScaleDownIff(cfg: Config, obs: seq<Reading>, i: nat)
    requires Ordered(obs) && i < |obs|
    ensures DownLaunch(cfg, obs, i) <==>
      && obs[i].canScale && !obs[i].inProgress && obs[i].target != 0
      && exists s: nat :: IdleLong(cfg, obs, s, i)
    ensures DownLaunch(cfg, obs, i) ==> DecideDown(cfg, DownTimer(cfg, obs[..i]), obs[i]).target == Some(obs[i].target)
  {
    if DownLaunch(cfg, obs, i) {
      ScaleDownOnlyIf(cfg, obs, i);
    }
    if exists s: nat :: IdleLong(cfg, obs, s, i) {
      var s: nat :| IdleLong(cfg, obs, s, i);
      IdleTimerCovers(cfg, obs, s, i);
    }
  }

  /** Of any two launches, the later one has an idle window of its own: it starts after the earlier launch. */
  lemma IdleWindowsAreDisjoint(cfg: Config, obs: seq<Reading>, first: nat, second: nat)
    requires Ordered(obs) && first < second < |obs|
    requires DownLaunch(cfg, obs, first) && DownLaunch(cfg, obs, second)
    ensures exists s: nat :: first < s && IdleLong(cfg, obs, s, second)
    ensures obs[second].active > 1 ==> obs[second].now - obs[first].now >= cfg.scaleDownIdle
    ensures obs[second].active == 1 ==> obs[second].now - obs[first].now >= cfg.scaleToZeroIdle
  {
    ScaleDownIff(cfg, obs, second);
    var s: nat :| IdleLong(cfg, obs, s, second);
    assert first < s;
  }

  ghost predicate ScalesDown(cfg: Config, obs: seq<Reading>) {
    exists i :: 0 <= i < |obs| && DownLaunch(cfg, obs, i)
  }

  /** The idle time the scale-downs of a run needed in all, each at the node count of its launch. */
  ghost function IdleOwed(cfg: Config, obs: seq<Reading>): int {
    if obs == [] then 0
    else
      var n := |obs| - 1;
      IdleOwed(cfg, obs[..n])
      + if !DownLaunch(cfg, obs, n) then 0 else if obs[n].active > 1 then cfg.scaleDownIdle else cfg.scaleToZeroIdle
  }

  lemma {:induction false} ScaleDownsOwe(cfg: Config, obs: seq<Reading>)
    ensures Owed(DownTicks(cfg, obs)) == IdleOwed(cfg, obs)
  {
    if obs != [] {
      var n := |obs| - 1;
      ScaleDownsOwe(cfg, obs[..n]);
      DownTicksPrefix(cfg, obs, n);
      assert DownTicks(cfg, obs)[n] == DownTick(cfg, obs, n);
    }
  }

  /** The scale-downs of a run span the sum of the idle times that their node counts required. */
  lemma ScaleDownsTakeTime(cfg: Config, obs: seq<Reading>)
    requires Ordered(obs) && ScalesDown(cfg, obs)
    ensures obs[|obs| - 1].now - obs[0].now >= IdleOwed(cfg, obs)
  {
    var ticks := DownTicks(cfg, obs);
    forall i: nat | i < |ticks| && ticks[i].fire ensures Earned(ticks, i) {
      assert ticks[i] == DownTick(cfg, obs, i);
      ScaleDownIff(cfg, obs, i);
      var s: nat :| IdleLong(cfg, obs, s, i);
      assert forall j :: s <= j < i ==> ticks[j] == DownTick(cfg, obs, j);
      assert EarnedBy(ticks, s, i);
    }
    ScaleDownsOwe(cfg, obs);
    var i :| 0 <= i < |obs| && DownLaunch(cfg, obs, i);
    assert ticks[i] == DownTick(cfg, obs, i);
    var last := FiringsTakeTime(ticks);
  }
}
