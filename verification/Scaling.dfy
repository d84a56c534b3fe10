/** The autoscaler's decisions: what one tick reads, and what it launches. */
module Scaling {
  import opened Common
  import opened Counting
  import opened Nodes

  datatype Config = Config(minNodes: int, maxNodes: int, scaleUpThreshold: int, scaleUpDuration: int,
                           cooldown: int, scaleDownIdle: int, scaleToZeroIdle: int, monitorInterval: int)

  /** The bounds the configuration loader enforces. */
  predicate Loaded(cfg: Config) {
    0 <= cfg.minNodes <= cfg.maxNodes && 1 <= cfg.maxNodes
  }

  function CanScale(cfg: Config, lastEvent: Option<int>, now: int): bool {
    lastEvent == None || now - lastEvent.value >= cfg.cooldown
  }

  /** Everything an evaluation looks at. `target` is the scale-down pick, 0 when there is none. */
  datatype Reading = Reading(now: int, pending: int, active: nat, ready: nat,
                             canScale: bool, inProgress: bool, target: int)

  datatype UpLaunch = NoLaunch | ColdStart | ScaleOut

  /** The timer after a tick, and what the tick launched. */
  datatype UpDecision = UpDecision(since: Option<int>, launch: UpLaunch)
  datatype DownDecision = DownDecision(since: Option<int>, target: Option<int>)

  predicate WantsColdStart(r: Reading) {
    r.pending > 0 && r.active == 0
  }

  /** The guards of the N to N+1 path, other than time. */
  predicate WantsScaleOut(cfg: Config, r: Reading) {
    r.pending > cfg.scaleUpThreshold && r.ready == r.active && r.active > 0 && r.active < cfg.maxNodes
  }

  function DecideUp(cfg: Config, since: Option<int>, r: Reading): UpDecision {
    if WantsColdStart(r) then
      UpDecision(since, if r.canScale && !r.inProgress then ColdStart else NoLaunch)
    else if WantsScaleOut(cfg, r) then
      if since == None then UpDecision(Some(r.now), NoLaunch)
      else if r.now - since.value < cfg.scaleUpDuration then UpDecision(since, NoLaunch)
      else if !r.canScale || r.inProgress then UpDecision(since, NoLaunch)
      else UpDecision(None, ScaleOut)
    else
      UpDecision(if r.pending <= cfg.scaleUpThreshold then None else since, NoLaunch)
  }

  function IdleRequired(cfg: Config, active: nat): int {
    if active > 1 then cfg.scaleDownIdle else cfg.scaleToZeroIdle
  }

  /** Above the floor, with something to scale down and no outstanding work. */
  predicate Idle(cfg: Config, r: Reading) {
    r.active != 0 && r.ready != 0 && r.active > cfg.minNodes && r.pending <= 0
  }

  function DecideDown(cfg: Config, since: Option<int>, r: Reading): DownDecision {
    if !Idle(cfg, r) then DownDecision(None, None)
    else
      var start := if since == None then r.now else since.value;
      if r.now - start < IdleRequired(cfg, r.active) || !r.canScale || r.inProgress || r.target == 0 then
        DownDecision(Some(start), None)
      else
        DownDecision(None, Some(r.target))
  }

  lemma HasTop(s: set<int>) returns (t: int)
    requires s != {}
    ensures t in s && forall x :: x in s ==> x <= t
  {
    var one := Inhabited(s);
    t := one;
    if s - {one} != {} {
      var rest := HasTop(s - {one});
      t := if rest > one then rest else one;
    }
    forall x | x in s ensures x <= t {
      if x != one {
        assert x in s - {one};
      }
    }
  }

  /** The largest id of a set of ready nodes, 0 for none: what the scale-down pick looks for. */
  ghost function Top(s: set<int>): (t: int)
    ensures s == {} ==> t == 0
    ensures s != {} ==> t in s && forall x :: x in s ==> x <= t
  {
    if s == {} then 0
    else
      assert exists t :: t in s && forall x :: x in s ==> x <= t by {
        var w := HasTop(s);
        assert w in s && forall x :: x in s ==> x <= w;
      }
      var t :| t in s && forall x :: x in s ==> x <= t;
      t
  }

  /** An atomic reading of the table. */
  ghost function Read(cfg: Config, m: NodeMap, lastEvent: Option<int>, pending: int, now: int): Reading {
    Reading(now, pending, ActiveCount(m), ReadyCount(m), CanScale(cfg, lastEvent, now), InProgress(m), Top(ReadyIds(m)))
  }

  // -------------------------------------------------------------- what a launch implies

  /**
   * Every launch is made with all tracked nodes ready: a cold start with an empty table, a
   * scale-out below the cap, a scale-down above the floor and aimed at the largest tracked id.
   */
  lemma LaunchState(cfg: Config, m: NodeMap, lastEvent: Option<int>, up: Option<int>, down: Option<int>,
                    pending: int, now: int)
    requires Loaded(cfg)
    ensures var r := Read(cfg, m, lastEvent, pending, now);
            var u, d := DecideUp(cfg, up, r), DecideDown(cfg, down, r);
            && (u.launch != NoLaunch || d.target.Some? ==>
                  && ReadyCount(m) == |m| && CanScale(cfg, lastEvent, now)
                  && forall id :: id in m ==> m[id].state == Ready)
            && (u.launch == ColdStart ==> m == map[] && pending > 0)
            && (u.launch == ScaleOut ==> 0 < |m| < cfg.maxNodes)
            && (d.target.Some? ==>
                  |m| > cfg.minNodes && d.target.value in m && forall id :: id in m ==> id <= d.target.value)
  {
    var r := Read(cfg, m, lastEvent, pending, now);
    if !r.inProgress {
      AllReadyCounts(m);
      if r.active == 0 {
        assert m.Keys == {};
      }
    }
  }

  /** With a threshold that is not negative, or no count between floor and cap, no tick launches in both directions. */
  lemma LaunchesOneWay(cfg: Config, m: NodeMap, lastEvent: Option<int>, up: Option<int>, down: Option<int>,
                       pending: int, now: int)
    requires Loaded(cfg) && (cfg.scaleUpThreshold >= 0 || cfg.maxNodes <= cfg.minNodes + 1)
    ensures var r := Read(cfg, m, lastEvent, pending, now);
            DecideUp(cfg, up, r).launch == NoLaunch || DecideDown(cfg, down, r).target == None
  {
  }

  /** Once launched, and before anything else happens, a new node fits: a launch needs no compensation. */
  lemma LaunchFits(cfg: Config, m: NodeMap, lastEvent: Option<int>, up: Option<int>, pending: int, now: int,
                   id: int, name: string, later: int)
    requires Loaded(cfg) && id !in m
    requires DecideUp(cfg, up, Read(cfg, m, lastEvent, pending, now)).launch != NoLaunch
    ensures ActiveCount(m) < cfg.maxNodes
    ensures Try(m, cfg.maxNodes, AddNode(id, name), later) == Some(m[id := Fresh(name, later)])
  {
    LaunchState(cfg, m, lastEvent, up, None, pending, now);
    AllReadyCounts(m);
  }
}
