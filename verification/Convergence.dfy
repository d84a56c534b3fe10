/**
 * The sequential schedule, in which every launched operation ends before the next tick: an idle
 * fleet shrinks in bounded time, as far as the floor and the drain locks let it.
 */
module Convergence {
  import opened Common
  import opened Counting
  import opened Nodes
  import opened Scaling
  import opened Reconciliation
  import opened Operations

  // -------------------------------------------------------------- an idle fleet shrinks to the floor

  /** All nodes ready, real ids. */
  ghost predicate Quiet(m: NodeMap) {
    forall id :: id in m ==> m[id].state == Ready && id > 0
  }

  /** The same nodes under the same drain locks. */
  ghost predicate SameLocks(m: NodeMap, n: NodeMap) {
    n.Keys == m.Keys && forall id :: id in m ==> n[id].drainLocked == m[id].drainLocked
  }

  /** A round with no work, a listing of exactly the tracked nodes, and a destroy call that succeeds. */
  datatype QuietRound = QuietRound(listing: seq<CloudNode>, now: int, downAt: int, downDone: int, writeOk: bool)

  function AsRound(r: QuietRound): Round {
    Round(TickInput(Some(r.listing), 0, r.now, r.writeOk), false, None, "", r.now, r.downAt, true, r.downDone, [])
  }

  ghost function PlayQuiet(cfg: Config, c: Control, r: QuietRound): Control {
    FinishQuiet(cfg, MonitorTick(cfg, c, TickInput(Some(r.listing), 0, r.now, r.writeOk)), r)
  }

  /** The scale-down a quiet tick launched, if any. */
  ghost function FinishQuiet(cfg: Config, t: TickResult, r: QuietRound): Control {
    if t.down == None then t.after
    else ScaleDown(cfg, t.after, t.down.value, r.downAt, true, r.downDone, r.writeOk).after
  }

  /** A quiet round is one of the rounds above. */
  lemma QuietRoundIsRound(cfg: Config, c: Control, r: QuietRound)
    requires Loaded(cfg) && cfg.scaleUpThreshold >= 0
    requires Quiet(c.nodes) && Ids(r.listing) == c.nodes.Keys
    ensures PlayQuiet(cfg, c, r) == Play(cfg, c, AsRound(r)).0
  {
    QuietTick(cfg, c, r);
  }

  lemma {:induction false} MergeOfTracked(m: NodeMap, cap: int, listing: seq<CloudNode>, now: int)
    requires Quiet(m) && Ids(listing) <= m.Keys
    ensures SameLocks(m, Merge(m, cap, listing, now)) && Quiet(Merge(m, cap, listing, now))
  {
    if listing != [] {
      IdsOfInit(listing);
      MergeOfTracked(m, cap, listing[..|listing| - 1], now);
    }
  }

  lemma AccurateReconcile(m: NodeMap, cap: int, listing: seq<CloudNode>, now: int)
    requires Quiet(m) && Ids(listing) == m.Keys
    ensures SameLocks(m, Reconcile(m, cap, listing, now)) && Quiet(Reconcile(m, cap, listing, now))
  {
    MergeOfTracked(m, cap, listing, now);
  }

  lemma QuietCounts(m: NodeMap)
    requires Quiet(m)
    ensures ActiveCount(m) == ReadyCount(m) == |m| && !InProgress(m) && ReadyIds(m) == m.Keys
  {
    assert !InProgress(m);
    AllReadyCounts(m);
  }

  /** The idle timer's start at a quiet tick above the floor. */
  ghost function Start(c: Control, now: int): int {
    if c.downSince == None then now else c.downSince.value
  }

  ghost predicate Due(cfg: Config, c: Control, now: int) {
    && |c.nodes| > cfg.minNodes
    && now - Start(c, now) >= (if |c.nodes| > 1 then cfg.scaleDownIdle else cfg.scaleToZeroIdle)
    && (c.lastEvent == None || now - c.lastEvent.value >= cfg.cooldown)
  }

  lemma QuietReading(cfg: Config, m: NodeMap, lastEvent: Option<int>, now: int)
    requires Quiet(m)
    ensures Read(cfg, m, lastEvent, 0, now) ==
              Reading(now, 0, |m|, |m|, CanScale(cfg, lastEvent, now), false, Top(m.Keys))
    ensures m.Keys != {} ==> Top(m.Keys) != 0
  {
    QuietCounts(m);
    if m.Keys != {} {
      assert Top(m.Keys) in m;
    }
  }

  /** What the two evaluations make of that reading. */
  lemma QuietDecision(cfg: Config, m: NodeMap, c: Control, now: int)
    requires Loaded(cfg) && cfg.scaleUpThreshold >= 0
    requires Quiet(m) && m.Keys == c.nodes.Keys && |m| == |c.nodes|
    ensures var r := Read(cfg, m, c.lastEvent, 0, now);
            && DecideUp(cfg, c.upSince, r).launch == NoLaunch
            && DecideDown(cfg, c.downSince, r) ==
                 if Due(cfg, c, now) then DownDecision(None, Some(Top(m.Keys)))
                 else DownDecision(if |m| <= cfg.minNodes then None else Some(Start(c, now)), None)
  {
    QuietReading(cfg, m, c.lastEvent, now);
    assert |m| > 0 ==> m.Keys != {};
  }

  /** A quiet tick launches nothing but the due scale-down of the largest id. */
  lemma QuietTick(cfg: Config, c: Control, r: QuietRound)
    requires Loaded(cfg) && cfg.scaleUpThreshold >= 0
    requires Quiet(c.nodes) && Ids(r.listing) == c.nodes.Keys
    ensures var t := MonitorTick(cfg, c, TickInput(Some(r.listing), 0, r.now, r.writeOk));
            && Quiet(t.after.nodes) && SameLocks(c.nodes, t.after.nodes) && |t.after.nodes| == |c.nodes|
            && t.after.lastEvent == c.lastEvent && t.up == NoLaunch
            && t.down == (if Due(cfg, c, r.now) then Some(Top(c.nodes.Keys)) else None)
            && t.after.downSince ==
                 if Due(cfg, c, r.now) || |c.nodes| <= cfg.minNodes then None else Some(Start(c, r.now))
  {
    var m := Reconcile(c.nodes, cfg.maxNodes, r.listing, r.now);
    AccurateReconcile(c.nodes, cfg.maxNodes, r.listing, r.now);
    assert |m| == |m.Keys| == |c.nodes.Keys| == |c.nodes|;
    QuietDecision(cfg, m, c, r.now);
  }

  /** The scale-down of a due quiet round is aimed at a drain-locked node. */
  ghost predicate TopLocked(m: NodeMap) {
    Top(m.Keys) in m && m[Top(m.Keys)].drainLocked
  }

  /** The launched scale-down removes its target, unless that is locked. */
  lemma QuietScaleDown(cfg: Config, c: Control, r: QuietRound)
    requires Quiet(c.nodes) && |c.nodes| > cfg.minNodes >= 0
    requires CanScale(cfg, c.lastEvent, r.downAt)
    ensures var id := Top(c.nodes.Keys);
            var after := ScaleDown(cfg, c, id, r.downAt, true, r.downDone, r.writeOk).after;
            && id in c.nodes && after.downSince == c.downSince
            && (TopLocked(c.nodes) ==> after == c)
            && (!TopLocked(c.nodes) ==>
                  && after.nodes == c.nodes - {id} && |after.nodes| == |c.nodes| - 1
                  && after.lastEvent == Some(r.downDone))
  {
    var id := Top(c.nodes.Keys);
    QuietCounts(c.nodes);
    assert c.nodes.Keys != {};
    assert id in c.nodes;
    ScaleDownEffect(cfg, c, id, r.downAt, true, r.downDone, r.writeOk);
    assert (c.nodes - {id}).Keys == c.nodes.Keys - {id};
    assert |c.nodes - {id}| == |(c.nodes - {id}).Keys|;
  }

  /**
   * A quiet round removes the largest id when it is due and not drain-locked. When it is locked,
   * the round changes nothing but the timer, which starts over; the next largest is not considered.
   */
  lemma QuietRoundIs(cfg: Config, c: Control, r: QuietRound)
    requires Loaded(cfg) && cfg.scaleUpThreshold >= 0
    requires Quiet(c.nodes) && Ids(r.listing) == c.nodes.Keys
    requires r.now <= r.downAt
    ensures QuietStep(cfg, c, r, PlayQuiet(cfg, c, r))
  {
    var t := MonitorTick(cfg, c, TickInput(Some(r.listing), 0, r.now, r.writeOk));
    QuietTick(cfg, c, r);
    FinishQuietIs(cfg, c, t, r);
  }

  ghost predicate QuietStep(cfg: Config, c: Control, r: QuietRound, after: Control) {
    var removes := Due(cfg, c, r.now) && !TopLocked(c.nodes);
    && Quiet(after.nodes)
    && SameLocks(if removes then c.nodes - {Top(c.nodes.Keys)} else c.nodes, after.nodes)
    && |after.nodes| == |c.nodes| - Bit(removes)
    && after.lastEvent == (if removes then Some(r.downDone) else c.lastEvent)
    && after.downSince == if Due(cfg, c, r.now) || |c.nodes| <= cfg.minNodes then None else Some(Start(c, r.now))
  }

  lemma FinishQuietIs(cfg: Config, c: Control, t: TickResult, r: QuietRound)
    requires 0 <= cfg.minNodes && r.now <= r.downAt
    requires Quiet(t.after.nodes) && SameLocks(c.nodes, t.after.nodes) && |t.after.nodes| == |c.nodes|
    requires t.after.lastEvent == c.lastEvent
    requires t.down == if Due(cfg, c, r.now) then Some(Top(c.nodes.Keys)) else None
    requires Due(cfg, c, r.now) ==> t.after.downSince == None
    ensures var after, removes := FinishQuiet(cfg, t, r), Due(cfg, c, r.now) && !TopLocked(c.nodes);
            && Quiet(after.nodes) && after.downSince == t.after.downSince
            && SameLocks(if removes then c.nodes - {Top(c.nodes.Keys)} else c.nodes, after.nodes)
            && |after.nodes| == |c.nodes| - Bit(removes)
            && after.lastEvent == if removes then Some(r.downDone) else c.lastEvent
  {
    if Due(cfg, c, r.now) {
      QuietScaleDown(cfg, t.after, r);
    }
  }

  ghost function RunQuiet(cfg: Config, c: Control, rounds: seq<QuietRound>): Control {
    if rounds == [] then c else PlayQuiet(cfg, RunQuiet(cfg, c, rounds[..|rounds| - 1]), rounds[|rounds| - 1])
  }

  /** Operations inside their round, and an accurate listing. */
  ghost predicate InTurn(c: Control, r: QuietRound) {
    r.now <= r.downAt <= r.downDone && Ids(r.listing) == c.nodes.Keys
  }

  /** A round after another: its tick comes no later than the interval allows. */
  ghost predicate NoLater(cfg: Config, p: QuietRound, r: QuietRound) {
    p.downDone <= r.now <= p.now + cfg.monitorInterval
  }

  /** Ticks no further apart than the interval, operations inside their round, accurate listings. */
  ghost predicate QuietSchedule(cfg: Config, c: Control, rounds: seq<QuietRound>) {
    rounds != [] ==>
      var init, r := rounds[..|rounds| - 1], rounds[|rounds| - 1];
      && QuietSchedule(cfg, c, init) && InTurn(RunQuiet(cfg, c, init), r)
      && (init != [] ==> NoLater(cfg, init[|init| - 1], r))
  }

  /** What is known of the i-th round and the states around it. */
  ghost predicate Link(cfg: Config, rounds: seq<QuietRound>, states: seq<Control>, i: nat)
    requires i < |rounds| && |states| == |rounds| + 1
  {
    && (i > 0 ==> NoLater(cfg, rounds[i - 1], rounds[i]))
    && InTurn(states[i], rounds[i]) && QuietStep(cfg, states[i], rounds[i], states[i + 1])
  }

  /** The states a quiet schedule goes through. */
  ghost predicate Ran(cfg: Config, c: Control, rounds: seq<QuietRound>, states: seq<Control>) {
    && |states| == |rounds| + 1 && states[0] == c && Quiet(c.nodes)
    && forall i: nat :: i < |rounds| ==> Link(cfg, rounds, states, i)
  }

  lemma {:induction false} ScheduleRan(cfg: Config, c: Control, rounds: seq<QuietRound>) returns (states: seq<Control>)
    requires Loaded(cfg) && cfg.scaleUpThreshold >= 0 && QuietSchedule(cfg, c, rounds) && Quiet(c.nodes)
    ensures Ran(cfg, c, rounds, states)
    ensures states[|rounds|] == RunQuiet(cfg, c, rounds) && Quiet(states[|rounds|].nodes)
  {
    if rounds == [] {
      states := [c];
    } else {
      var n := |rounds| - 1;
      var earlier := ScheduleRan(cfg, c, rounds[..n]);
      QuietRoundIs(cfg, earlier[n], rounds[n]);
      states := earlier + [RunQuiet(cfg, c, rounds)];
      LinkOn(cfg, c, rounds, earlier, RunQuiet(cfg, c, rounds));
    }
  }

  lemma LinkOn(cfg: Config, c: Control, rounds: seq<QuietRound>, earlier: seq<Control>, after: Control)
    requires rounds != [] && Ran(cfg, c, rounds[..|rounds| - 1], earlier)
    requires var n := |rounds| - 1;
             && (n > 0 ==> NoLater(cfg, rounds[n - 1], rounds[n]))
             && InTurn(earlier[n], rounds[n]) && QuietStep(cfg, earlier[n], rounds[n], after)
    ensures Ran(cfg, c, rounds, earlier + [after])
  {
    var n := |rounds| - 1;
    forall i: nat | i < |rounds| ensures Link(cfg, rounds, earlier + [after], i) {
      assert i < n ==> Link(cfg, rounds[..n], earlier, i);
    }
  }

  function Max(a: int, b: int): int {
    if a >= b then a else b
  }

  /** The longest a node can stay the last of `n`: idle time or cooldown, whichever is longer. */
  function Patience(cfg: Config, n: nat): int {
    Max(0, Max(if n > 1 then cfg.scaleDownIdle else cfg.scaleToZeroIdle, cfg.cooldown))
  }

  /** Time allowed to get from `n` nodes down to `k`. */
  function Budget(cfg: Config, n: nat, k: nat): int
    decreases n
  {
    if n <= k then 0 else Patience(cfg, n) + 2 * cfg.monitorInterval + Budget(cfg, n - 1, k)
  }

  /** The last node may take the scale-to-zero time to go, every other one the scale-down time. */
  lemma BudgetIs(cfg: Config, n: nat)
    ensures Budget(cfg, 1, 0) == Max(0, Max(cfg.scaleToZeroIdle, cfg.cooldown)) + 2 * cfg.monitorInterval
    ensures n >= 1 ==>
      Budget(cfg, n + 1, n) == Max(0, Max(cfg.scaleDownIdle, cfg.cooldown)) + 2 * cfg.monitorInterval
  {
    assert Budget(cfg, 0, 0) == 0 && Budget(cfg, n, n) == 0;
  }

  lemma {:induction false} BudgetSplits(cfg: Config, n: nat, m: nat, k: nat)
    requires n >= m >= k
    ensures Budget(cfg, n, k) == Budget(cfg, n, m) + Budget(cfg, m, k)
    decreases n
  {
    if n > m {
      BudgetSplits(cfg, n - 1, m, k);
    }
  }

  lemma {:induction false} BudgetPositive(cfg: Config, n: nat, k: nat)
    requires cfg.monitorInterval > 0
    ensures Budget(cfg, n, k) >= 0 && (Budget(cfg, n, k) == 0 ==> n <= k)
    decreases n
  {
    if n > k {
      BudgetPositive(cfg, n - 1, k);
    }
  }

  // -------------------------------------------------------------- how far drain locks let it shrink

  /** Some locked id is no smaller. */
  ghost predicate HeldUp(m: NodeMap, id: int) {
    exists l :: l in m && m[l].drainLocked && id <= l
  }

  /** The ids at or below a locked one: as only the largest id is ever considered, none of them can go. */
  ghost function Pinned(m: NodeMap): set<int> {
    set id | id in m && HeldUp(m, id)
  }

  /** The size at which shrinking stops: the floor, or as many nodes as are pinned, and no more than there are. */
  ghost function Stop(cfg: Config, m: NodeMap): nat
    requires Loaded(cfg)
  {
    var least := Max(cfg.minNodes, |Pinned(m)|);
    if |m| <= least then |m| else least
  }

  lemma PinnedSize(m: NodeMap)
    ensures |Pinned(m)| <= |m|
    ensures |Pinned(m)| == |m| <==> Pinned(m) == m.Keys
  {
    assert |m| == |m.Keys|;
    Subset(Pinned(m), m.Keys);
  }

  /** The largest id is locked exactly when everything is pinned. */
  lemma TopLockedIff(m: NodeMap)
    requires m.Keys != {}
    ensures TopLocked(m) <==> Pinned(m) == m.Keys
  {
    var top := Top(m.Keys);
    assert top in m;
    if TopLocked(m) {
      forall id | id in m ensures id in Pinned(m) {
        assert m[top].drainLocked && id <= top;
      }
    } else {
      assert !HeldUp(m, top);
    }
  }

  /** Above the stopping size the largest id is not locked, and at it nothing is due that is not. */
  lemma StopIff(cfg: Config, m: NodeMap)
    requires Loaded(cfg) && |m| > cfg.minNodes
    ensures |m| > Stop(cfg, m) <==> !TopLocked(m)
  {
    assert m.Keys != {};
    TopLockedIff(m);
    PinnedSize(m);
  }

  lemma SameLocksSamePinned(m: NodeMap, n: NodeMap)
    requires SameLocks(m, n)
    ensures Pinned(n) == Pinned(m) && |n| == |m|
  {
    assert |m.Keys| == |m| && |n.Keys| == |n|;
    forall id ensures HeldUp(m, id) <==> HeldUp(n, id) {
    }
  }

  /** Taking away an unlocked largest id unpins nothing. */
  lemma PinnedWithoutTop(m: NodeMap)
    requires m.Keys != {} && !TopLocked(m)
    ensures Pinned(m - {Top(m.Keys)}) == Pinned(m)
  {
    var top := Top(m.Keys);
    var rest := m - {top};
    assert top in m && !HeldUp(m, top);
    forall id ensures HeldUp(m, id) <==> HeldUp(rest, id) {
      if HeldUp(m, id) {
        var l :| l in m && m[l].drainLocked && id <= l;
        assert l in rest && rest[l].drainLocked;
      }
    }
  }

  /** A quiet round leaves the stopping size where it was, and stops there. */
  lemma StopStays(cfg: Config, m: NodeMap, m': NodeMap, removes: bool)
    requires Loaded(cfg) && (removes ==> |m| > cfg.minNodes && !TopLocked(m))
    requires SameLocks(if removes then m - {Top(m.Keys)} else m, m') && |m'| == |m| - Bit(removes)
    ensures Stop(cfg, m') == Stop(cfg, m) <= |m'|
  {
    PinnedSize(m);
    if removes {
      assert m.Keys != {};
      StopIff(cfg, m);
      PinnedWithoutTop(m);
      SameLocksSamePinned(m - {Top(m.Keys)}, m');
    } else {
      SameLocksSamePinned(m, m');
    }
  }

  /**
   * Where a quiet run stands after a round at time `t`, having started with `n0` nodes at `t0` and
   * bound to stop at `stop`: there, or the timer for the current size runs since no later than the
   * time allowed to reach that size, or it starts with the next tick, which is no later than that.
   */
  ghost predicate OnTrack(cfg: Config, c: Control, stop: nat, n0: nat, t0: int, t: int)
    requires Loaded(cfg)
  {
    var n := |c.nodes|;
    && Quiet(c.nodes) && Stop(cfg, c.nodes) == stop <= n <= n0
    && (n > stop ==> InTime(cfg, c, n, t0 + Budget(cfg, n0, n), t))
  }

  ghost predicate InTime(cfg: Config, c: Control, n: nat, limit: int, t: int) {
    if c.downSince == None then t + cfg.monitorInterval <= limit
    else
      && c.downSince.value <= limit && (c.lastEvent.Some? ==> c.lastEvent.value <= limit)
      && t < limit + Patience(cfg, n)
  }

  /** One round's worth of time: the timer runs on, or the node goes and the next one's time begins. */
  lemma TimeGoesOn(cfg: Config, c: Control, after: Control, n: nat, limit: int, t: int, now: int, removed: bool)
    requires cfg.monitorInterval > 0 && n > cfg.minNodes >= 0 && |c.nodes| == n && InTime(cfg, c, n, limit, t)
    requires t <= now <= t + cfg.monitorInterval && removed == Due(cfg, c, now)
    requires !removed ==> after.lastEvent == c.lastEvent && after.downSince == Some(Start(c, now))
    requires removed ==> after.downSince == None
    requires c.lastEvent.Some? ==> c.lastEvent.value <= now
    ensures !removed ==> InTime(cfg, after, n, limit, now)
    ensures removed ==> InTime(cfg, after, n - 1, limit + Patience(cfg, n) + 2 * cfg.monitorInterval, now)
  {
  }

  lemma StaysOnTrack(cfg: Config, c: Control, r: QuietRound, after: Control, stop: nat, n0: nat, t0: int, t: int)
    requires Loaded(cfg) && cfg.monitorInterval > 0 && QuietStep(cfg, c, r, after)
    requires OnTrack(cfg, c, stop, n0, t0, t) && InTurn(c, r)
    requires t <= r.now <= t + cfg.monitorInterval
    requires c.lastEvent.Some? ==> c.lastEvent.value <= r.now
    ensures OnTrack(cfg, after, stop, n0, t0, r.now)
    ensures after.lastEvent.Some? ==> after.lastEvent.value <= r.downDone
  {
    var n := |c.nodes|;
    var removes := Due(cfg, c, r.now) && !TopLocked(c.nodes);
    StopStays(cfg, c.nodes, after.nodes, removes);
    if n > stop {
      AboveStop(cfg, c.nodes);
      TimeGoesOn(cfg, c, after, n, t0 + Budget(cfg, n0, n), t, r.now, removes);
      BudgetNext(cfg, n0, n);
    }
  }

  lemma AboveStop(cfg: Config, m: NodeMap)
    requires Loaded(cfg) && |m| > Stop(cfg, m)
    ensures |m| > cfg.minNodes && !TopLocked(m)
  {
    StopIff(cfg, m);
  }

  lemma BudgetNext(cfg: Config, n0: nat, n: nat)
    requires n0 >= n >= 1
    ensures Budget(cfg, n0, n - 1) == Budget(cfg, n0, n) + Patience(cfg, n) + 2 * cfg.monitorInterval
  {
    assert Budget(cfg, n - 1, n - 1) == 0;
    BudgetSplits(cfg, n0, n, n - 1);
  }

  /** A quiet fleet is on track one interval before its first tick. */
  lemma StartsOnTrack(cfg: Config, c: Control, now: int)
    requires Loaded(cfg) && cfg.monitorInterval > 0
    requires Quiet(c.nodes) && NothingAfter(c, now)
    ensures OnTrack(cfg, c, Stop(cfg, c.nodes), |c.nodes|, now, now - cfg.monitorInterval)
  {
  }

  /** Where a quiet run stands, and that its last event is not in the future. */
  ghost predicate Stands(cfg: Config, c: Control, stop: nat, n0: nat, t0: int, r: QuietRound)
    requires Loaded(cfg)
  {
    && OnTrack(cfg, c, stop, n0, t0, r.now) && r.now <= r.downDone
    && (c.lastEvent.Some? ==> c.lastEvent.value <= r.downDone)
  }

  lemma {:induction false} QuietRunOnTrack(cfg: Config, c: Control, rounds: seq<QuietRound>, states: seq<Control>,
                                           k: nat)
    requires Loaded(cfg) && cfg.monitorInterval > 0 && Ran(cfg, c, rounds, states)
    requires 0 < k <= |rounds| && NothingAfter(c, rounds[0].now)
    ensures Stands(cfg, states[k], Stop(cfg, c.nodes), |c.nodes|, rounds[0].now, rounds[k - 1])
  {
    assert Link(cfg, rounds, states, k - 1);
    if k == 1 {
      FirstOnTrack(cfg, c, rounds[0], states[1]);
    } else {
      QuietRunOnTrack(cfg, c, rounds, states, k - 1);
      NextOnTrack(cfg, states[k - 1], rounds[k - 2], rounds[k - 1], states[k],
                  Stop(cfg, c.nodes), |c.nodes|, rounds[0].now);
    }
  }

  lemma FirstOnTrack(cfg: Config, c: Control, r: QuietRound, after: Control)
    requires Loaded(cfg) && cfg.monitorInterval > 0 && QuietStep(cfg, c, r, after) && InTurn(c, r)
    requires Quiet(c.nodes) && NothingAfter(c, r.now)
    ensures Stands(cfg, after, Stop(cfg, c.nodes), |c.nodes|, r.now, r)
  {
    StartsOnTrack(cfg, c, r.now);
    StaysOnTrack(cfg, c, r, after, Stop(cfg, c.nodes), |c.nodes|, r.now, r.now - cfg.monitorInterval);
  }

  lemma NextOnTrack(cfg: Config, c: Control, p: QuietRound, r: QuietRound, after: Control, stop: nat, n0: nat, t0: int)
    requires Loaded(cfg) && cfg.monitorInterval > 0 && QuietStep(cfg, c, r, after) && InTurn(c, r)
    requires p.downDone <= r.now <= p.now + cfg.monitorInterval && Stands(cfg, c, stop, n0, t0, p)
    ensures Stands(cfg, after, stop, n0, t0, r)
  {
    StaysOnTrack(cfg, c, r, after, stop, n0, t0, p.now);
  }

  lemma OnTrackIsInTime(cfg: Config, c: Control, stop: nat, n0: nat, t0: int, t: int, k: nat)
    requires Loaded(cfg) && cfg.monitorInterval > 0 && OnTrack(cfg, c, stop, n0, t0, t) && stop <= k <= n0
    ensures t - t0 >= Budget(cfg, n0, k) ==> |c.nodes| <= k
  {
    var n := |c.nodes|;
    if n > k {
      BudgetSplits(cfg, n0, n, k);
      BudgetPositive(cfg, n - 1, k);
    }
  }

  /** From the first tick to the last. */
  function Elapsed(rounds: seq<QuietRound>): int {
    if rounds == [] then 0 else rounds[|rounds| - 1].now - rounds[0].now
  }

  /** The timed state holds nothing from the future. */
  ghost predicate NothingAfter(c: Control, now: int) {
    (c.downSince.Some? ==> c.downSince.value <= now) && (c.lastEvent.Some? ==> c.lastEvent.value <= now)
  }

  /**
   * With no work and accurate listings, an idle fleet never falls below its stopping size, and is
   * down to `k` nodes once the time allowed for that has passed: for each node the longer of its
   * idle requirement and the cooldown, plus two monitor intervals. The last node's requirement is
   * the scale-to-zero one.
   */
  lemma {:induction false} ShrinksInTime(cfg: Config, c: Control, rounds: seq<QuietRound>, k: nat)
    requires Loaded(cfg) && cfg.scaleUpThreshold >= 0 && cfg.monitorInterval > 0
    requires Quiet(c.nodes) && Stop(cfg, c.nodes) <= k <= |c.nodes|
    requires rounds != [] ==> QuietSchedule(cfg, c, rounds) && NothingAfter(c, rounds[0].now)
    ensures var n := |RunQuiet(cfg, c, rounds).nodes|;
            && Stop(cfg, c.nodes) <= n <= |c.nodes|
            && (Elapsed(rounds) >= Budget(cfg, |c.nodes|, k) ==> n <= k)
  {
    var n0, stop := |c.nodes|, Stop(cfg, c.nodes);
    if rounds == [] {
      BudgetPositive(cfg, n0, k);
    } else {
      var last := |rounds| - 1;
      var states := ScheduleRan(cfg, c, rounds);
      QuietRunOnTrack(cfg, c, rounds, states, |rounds|);
      OnTrackIsInTime(cfg, states[|rounds|], stop, n0, rounds[0].now, rounds[last].now, k);
    }
  }

  ghost function AtOrBelow(m: NodeMap, l: int): set<int> {
    set id | id in m && id <= l
  }

  /** No locked id has more than `k` tracked ids at or below it, itself included. */
  ghost predicate LocksAmongSmallest(m: NodeMap, k: nat) {
    forall l :: l in m && m[l].drainLocked ==> |AtOrBelow(m, l)| <= k
  }

  lemma LocksAmongSmallestIff(m: NodeMap, k: nat)
    ensures LocksAmongSmallest(m, k) <==> |Pinned(m)| <= k
  {
    forall l | l in m && m[l].drainLocked ensures AtOrBelow(m, l) <= Pinned(m) && |AtOrBelow(m, l)| <= |Pinned(m)| {
      assert forall id :: id in AtOrBelow(m, l) ==> m[l].drainLocked && id <= l;
      Subset(AtOrBelow(m, l), Pinned(m));
    }
    var locked := set l | l in m && m[l].drainLocked;
    if locked == {} {
      forall id ensures !HeldUp(m, id) {
        assert forall l :: l in m && m[l].drainLocked ==> l in locked;
      }
      assert Pinned(m) == {};
    } else {
      var top := HasTop(locked);
      assert top in m && m[top].drainLocked;
      forall id ensures HeldUp(m, id) <==> id <= top {
        if HeldUp(m, id) {
          var l :| l in m && m[l].drainLocked && id <= l;
          assert l in locked;
        }
      }
      assert Pinned(m) == AtOrBelow(m, top);
    }
  }

  /**
   * Once the time allowed for it has passed, an idle fleet is at the floor exactly when its locks are
   * all among as many of its smallest ids as the floor asks for; otherwise it never gets there.
   */
  lemma {:induction false} ReachesTheFloorIff(cfg: Config, c: Control, rounds: seq<QuietRound>)
    requires Loaded(cfg) && cfg.scaleUpThreshold >= 0 && cfg.monitorInterval > 0
    requires Quiet(c.nodes) && |c.nodes| >= cfg.minNodes
    requires rounds != [] ==> QuietSchedule(cfg, c, rounds) && NothingAfter(c, rounds[0].now)
    ensures var n := |RunQuiet(cfg, c, rounds).nodes|;
            && n >= cfg.minNodes
            && (n == cfg.minNodes ==> LocksAmongSmallest(c.nodes, cfg.minNodes))
            && (Elapsed(rounds) >= Budget(cfg, |c.nodes|, cfg.minNodes) && LocksAmongSmallest(c.nodes, cfg.minNodes) ==>
                  n == cfg.minNodes)
  {
    var stop := Stop(cfg, c.nodes);
    PinnedSize(c.nodes);
    LocksAmongSmallestIff(c.nodes, cfg.minNodes);
    ShrinksInTime(cfg, c, rounds, stop);
  }

  /** A fleet at its stopping size stays as it is: no node is removed and no scale event recorded. */
  lemma {:induction false} StoppedStays(cfg: Config, c: Control, rounds: seq<QuietRound>)
    requires Loaded(cfg) && cfg.scaleUpThreshold >= 0
    requires QuietSchedule(cfg, c, rounds) && Quiet(c.nodes) && |c.nodes| == Stop(cfg, c.nodes)
    ensures var after := RunQuiet(cfg, c, rounds);
            Quiet(after.nodes) && SameLocks(c.nodes, after.nodes) && after.lastEvent == c.lastEvent
  {
    var states := ScheduleRan(cfg, c, rounds);
    RanStopped(cfg, c, rounds, states, |rounds|);
  }

  lemma {:induction false} RanStopped(cfg: Config, c: Control, rounds: seq<QuietRound>, states: seq<Control>, k: nat)
    requires Loaded(cfg) && Ran(cfg, c, rounds, states) && |c.nodes| == Stop(cfg, c.nodes) && k <= |rounds|
    ensures Quiet(states[k].nodes) && SameLocks(c.nodes, states[k].nodes) && states[k].lastEvent == c.lastEvent
  {
    if k > 0 {
      assert Link(cfg, rounds, states, k - 1);
      RanStopped(cfg, c, rounds, states, k - 1);
      SameLocksSamePinned(c.nodes, states[k - 1].nodes);
      StepStopped(cfg, states[k - 1], rounds[k - 1], states[k]);
    }
  }

  lemma StepStopped(cfg: Config, c: Control, r: QuietRound, after: Control)
    requires Loaded(cfg) && |c.nodes| == Stop(cfg, c.nodes) && QuietStep(cfg, c, r, after)
    ensures Quiet(after.nodes) && SameLocks(c.nodes, after.nodes) && after.lastEvent == c.lastEvent
  {
    if |c.nodes| > cfg.minNodes {
      StopIff(cfg, c.nodes);
    }
  }

  /** So a drain lock on the largest id keeps the whole fleet, however many unlocked nodes idle above the floor. */
  lemma {:induction false} LockedTopStopsAll(cfg: Config, c: Control, rounds: seq<QuietRound>)
    requires Loaded(cfg) && cfg.scaleUpThreshold >= 0
    requires QuietSchedule(cfg, c, rounds) && Quiet(c.nodes) && TopLocked(c.nodes)
    ensures var after := RunQuiet(cfg, c, rounds);
            Quiet(after.nodes) && SameLocks(c.nodes, after.nodes) && after.lastEvent == c.lastEvent
  {
    TopLockedIff(c.nodes);
    PinnedSize(c.nodes);
    StoppedStays(cfg, c, rounds);
  }

  /** And so does a fleet at the floor. */
  lemma {:induction false} FloorIsStable(cfg: Config, c: Control, rounds: seq<QuietRound>)
    requires Loaded(cfg) && cfg.scaleUpThreshold >= 0
    requires QuietSchedule(cfg, c, rounds) && Quiet(c.nodes) && |c.nodes| <= cfg.minNodes
    ensures var after := RunQuiet(cfg, c, rounds);
            Quiet(after.nodes) && SameLocks(c.nodes, after.nodes) && after.lastEvent == c.lastEvent
  {
    StoppedStays(cfg, c, rounds);
  }

  /**
   * The step to zero: a fleet of one unlocked node and no floor is gone once the longer of the
   * scale-to-zero time and the cooldown, plus two intervals, has passed; and it is still there as
   * long as its idle timer has not run for the scale-to-zero time.
   */
  lemma {:induction false} LastNodeGoes(cfg: Config, c: Control, rounds: seq<QuietRound>)
    requires Loaded(cfg) && cfg.minNodes == 0 && cfg.scaleUpThreshold >= 0 && cfg.monitorInterval > 0
    requires Quiet(c.nodes) && |c.nodes| == 1 && !TopLocked(c.nodes)
    requires rounds != [] && QuietSchedule(cfg, c, rounds) && NothingAfter(c, rounds[0].now)
    ensures Elapsed(rounds) >= Max(0, Max(cfg.scaleToZeroIdle, cfg.cooldown)) + 2 * cfg.monitorInterval ==>
              |RunQuiet(cfg, c, rounds).nodes| == 0
    ensures Elapsed(rounds) < cfg.scaleToZeroIdle && c.downSince == None ==>
              |RunQuiet(cfg, c, rounds).nodes| == 1
  {
    TopLockedIff(c.nodes);
    PinnedSize(c.nodes);
    BudgetIs(cfg, 0);
    ShrinksInTime(cfg, c, rounds, 0);
    if c.downSince == None && Elapsed(rounds) < cfg.scaleToZeroIdle {
      var states := ScheduleRan(cfg, c, rounds);
      TicksAscend(cfg, c, rounds, states, |rounds| - 1);
      LastNodeStays(cfg, c, rounds, states, |rounds|);
    }
  }

  /** Ticks come in clock order. */
  lemma {:induction false} TicksAscend(cfg: Config, c: Control, rounds: seq<QuietRound>, states: seq<Control>, k: nat)
    requires Ran(cfg, c, rounds, states) && k < |rounds|
    ensures forall i: nat :: i <= k ==> rounds[i].now <= rounds[k].now && rounds[0].now <= rounds[i].now
  {
    if k > 0 {
      TicksAscend(cfg, c, rounds, states, k - 1);
      assert Link(cfg, rounds, states, k) && Link(cfg, rounds, states, k - 1);
    }
  }

  lemma {:induction false} LastNodeStays(cfg: Config, c: Control, rounds: seq<QuietRound>, states: seq<Control>, k: nat)
    requires Loaded(cfg) && cfg.minNodes == 0 && Ran(cfg, c, rounds, states) && k <= |rounds|
    requires |c.nodes| == 1 && c.downSince == None
    requires forall i: nat :: i < |rounds| ==> 0 <= rounds[i].now - rounds[0].now < cfg.scaleToZeroIdle
    ensures |states[k].nodes| == 1
    ensures states[k].downSince.Some? ==> rounds != [] && states[k].downSince.value >= rounds[0].now
  {
    if k > 0 {
      assert Link(cfg, rounds, states, k - 1);
      LastNodeStays(cfg, c, rounds, states, k - 1);
    }
  }
}
