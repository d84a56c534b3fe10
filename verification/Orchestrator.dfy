/** The orchestrator object: timed state and node manager changed in place by its methods. */
module Orchestrators {
  import opened Common
  import opened Counting
  import opened Nodes
  import opened NodeManagers
  import opened Scaling
  import opened Reconciliation
  import opened Discovery
  import Operations

  class Orchestrator {
    const cfg: Config
    const nodes: NodeManager
    var lastScaleEvent: Option<int>
    var scaleUpSince: Option<int>
    var scaleDownSince: Option<int>
    var targetsFile: seq<Target>

    ghost predicate Valid()
      reads this, nodes, nodes.nodes.Values
    {
      nodes.Valid() && nodes.maxNodes == cfg.maxNodes
    }

    ghost function Control(): Operations.Control
      reads this, nodes
    {
      Operations.Control(nodes.view, lastScaleEvent, scaleUpSince, scaleDownSince, multiset(targetsFile))
    }

    constructor (cfg: Config)
      ensures Valid() && fresh(nodes) && nodes.nodes == map[] && this.cfg == cfg
      ensures Control() == Operations.Control(map[], None, None, None, multiset{})
    {
      this.cfg := cfg;
      nodes := new NodeManager(cfg.maxNodes);
      lastScaleEvent, scaleUpSince, scaleDownSince, targetsFile := None, None, None, [];
    }

    method MayScale(now: int) returns (b: bool)
      ensures b == CanScale(cfg, lastScaleEvent, now)
      ensures b <==> lastScaleEvent == None || now - lastScaleEvent.value >= cfg.cooldown
    {
      if lastScaleEvent == None {
        return true;
      }
      var elapsed := now - lastScaleEvent.value;
      return elapsed >= cfg.cooldown;
    }

    method RecordScaleEvent(now: int)
      modifies this`lastScaleEvent
      ensures lastScaleEvent == Some(now)
    {
      lastScaleEvent := Some(now);
    }

    method WriteTargets(ok: bool)
      requires Valid()
      modifies this`targetsFile
      ensures Valid() && Control() == Operations.Write(old(Control()), ok)
    {
      var targets := BuildTargets(nodes);
      if ok {
        targetsFile := targets;
      }
    }

    /** The two checks made right before every launch. */
    method MayLaunch(now: int) returns (b: bool)
      requires Valid()
      ensures b == (CanScale(cfg, lastScaleEvent, now) && !InProgress(nodes.view))
    {
      var may := MayScale(now);
      if !may {
        return false;
      }
      var busy := nodes.IsScalingInProgress();
      return !busy;
    }

    /** Starts at most one goroutine; which one is returned instead of run. */
    method EvaluateScaleUp(pending: int, now: int) returns (launch: UpLaunch)
      requires Valid()
      modifies this`scaleUpSince
      ensures Valid()
      ensures UpDecision(scaleUpSince, launch) ==
                DecideUp(cfg, old(scaleUpSince), Read(cfg, old(nodes.view), lastScaleEvent, pending, now))
    {
      var activeCount := nodes.CountActive();
      var readyCount := nodes.CountReady();
      if pending > 0 && activeCount == 0 {
        var may := MayLaunch(now);
        return if may then ColdStart else NoLaunch;
      }
      if pending > cfg.scaleUpThreshold && readyCount == activeCount && activeCount > 0 && activeCount < cfg.maxNodes {
        if scaleUpSince == None {
          scaleUpSince := Some(now);
          return NoLaunch;
        }
        var elapsed := now - scaleUpSince.value;
        if elapsed >= cfg.scaleUpDuration {
          var may := MayLaunch(now);
          if !may {
            return NoLaunch;
          }
          scaleUpSince := None;
          return ScaleOut;
        }
        return NoLaunch;
      }
      if scaleUpSince != None && pending <= cfg.scaleUpThreshold {
        scaleUpSince := None;
      }
      return NoLaunch;
    }

    method EvaluateScaleDown(pending: int, now: int) returns (target: Option<int>)
      requires Valid()
      modifies this`scaleDownSince
      ensures Valid()
      ensures DownDecision(scaleDownSince, target) ==
                DecideDown(cfg, old(scaleDownSince), Read(cfg, old(nodes.view), lastScaleEvent, pending, now))
    {
      var activeCount := nodes.CountActive();
      var readyNodes := ReadyNodes();
      if activeCount == 0 || |readyNodes| == 0 || activeCount <= cfg.minNodes {
        scaleDownSince := None;
        return None;
      }
      if pending > 0 {
        scaleDownSince := None;
        return None;
      }
      target := LaunchWhenIdle(readyNodes, activeCount, now);
    }

    /** What follows once a tick is idle: the timer, the checks and the pick. */
    method LaunchWhenIdle(readyNodes: seq<Node>, activeCount: nat, now: int) returns (target: Option<int>)
      requires Valid() && (set n | n in readyNodes :: n.linodeID) == ReadyIds(nodes.view)
      modifies this`scaleDownSince
      ensures Valid()
      ensures var start := if old(scaleDownSince) == None then now else old(scaleDownSince).value;
              var top := Top(ReadyIds(nodes.view));
              DownDecision(scaleDownSince, target) ==
                if now - start < IdleRequired(cfg, activeCount) || !CanScale(cfg, lastScaleEvent, now)
                   || InProgress(nodes.view) || top == 0 then DownDecision(Some(start), None)
                else DownDecision(None, Some(top))
    {
      if scaleDownSince == None {
        scaleDownSince := Some(now);
      }
      var elapsed := now - scaleDownSince.value;
      var idleRequired: int;
      if activeCount > 1 {
        idleRequired := cfg.scaleDownIdle;
      } else {
        idleRequired := cfg.scaleToZeroIdle;
      }
      if elapsed < idleRequired {
        return None;
      }
      var may := MayLaunch(now);
      if !may {
        return None;
      }
      var targetID := PickScaleDownTarget(readyNodes);
      if targetID == 0 {
        return None;
      }
      scaleDownSince := None;
      return Some(targetID);
    }

    method ReadyNodes() returns (ready: seq<Node>)
      requires Valid()
      ensures (set n | n in ready :: n.linodeID) == ReadyIds(nodes.view)
      ensures |ready| == 0 <==> ReadyCount(nodes.view) == 0
    {
      ready := nodes.NodesByState(Ready);
      ghost var ids := set n | n in ready :: n.linodeID;
      forall id ensures id in ids <==> id in ReadyIds(nodes.view) {
        if id in ReadyIds(nodes.view) {
          assert nodes.nodes[id] in ready && nodes.nodes[id].linodeID == id;
        }
      }
      if |ready| > 0 {
        assert ready[0].linodeID in ids;
      } else {
        assert ids == {};
      }
    }

    static method PickScaleDownTarget(ready: seq<Node>) returns (target: int)
      ensures target == Top(set n | n in ready :: n.linodeID)
    {
      if |ready| == 0 {
        return 0;
      }
      target := ready[0].linodeID;
      for i := 1 to |ready|
        invariant exists k :: 0 <= k < i && ready[k].linodeID == target
        invariant forall k :: 0 <= k < i ==> ready[k].linodeID <= target
      {
        if ready[i].linodeID > target {
          target := ready[i].linodeID;
        }
      }
      ghost var ids := set n | n in ready :: n.linodeID;
      assert target in ids;
      assert Top(ids) in ids && Top(ids) <= target;
    }

    method ScaleUp(created: Option<int>, name: string, now: int)
      returns (outcome: Operations.UpOutcome, destroyed: seq<int>)
      requires Valid()
      modifies this`lastScaleEvent, nodes
      ensures Valid() && nodes.OnlyNew()
      ensures Operations.UpResult(Control(), outcome, destroyed) ==
                Operations.ScaleUp(cfg, old(Control()), created, name, now)
    {
      destroyed := [];
      var activeCount := nodes.CountActive();
      if activeCount >= cfg.maxNodes {
        return Operations.CapReached, destroyed;
      }
      if created == None {
        return Operations.CreateFailed, destroyed;
      }
      var linodeID := created.value;
      var ok := nodes.Add(linodeID, name, now);
      if !ok {
        destroyed := destroyed + [linodeID];
        return Operations.TrackFailed(linodeID), destroyed;
      }
      RecordScaleEvent(now);
      return Operations.Added(linodeID), destroyed;
    }

    method WaitForNodeReady(linodeID: int, answer: Operations.WaitOutcome, now: int, writeOk: bool)
      returns (destroyed: seq<int>)
      requires Valid()
      modifies this`targetsFile, nodes, nodes.nodes.Values
      ensures Valid() && nodes.OnlyNew()
      ensures destroyed == Operations.WaitDestroys(linodeID, answer)
      ensures Control() == Operations.WaitForNodeReady(cfg, old(Control()), linodeID, answer, now, writeOk)
    {
      destroyed := [];
      if answer.NeverCameUp? {
        var _ := nodes.Transition(linodeID, Destroying, now);
        destroyed := destroyed + [linodeID];
        nodes.Remove(linodeID);
        return;
      }
      var addressed := nodes.SetIP(linodeID, answer.ip);
      if !addressed {
        return;
      }
      var ready := nodes.Transition(linodeID, Ready, now);
      if !ready {
        return;
      }
      WriteTargets(writeOk);
    }

    /** The checks before a scale-down touches the node; None lets it proceed. */
    method BlockedBy(linodeID: int, now: int) returns (blocked: Option<Operations.DownOutcome>)
      requires Valid()
      ensures blocked == Operations.BlockedBy(cfg, Control(), linodeID, now)
    {
      if linodeID !in nodes.nodes {
        return Some(Operations.NotFound);
      }
      var node := nodes.nodes[linodeID];
      if node.drainLocked {
        return Some(Operations.Locked);
      }
      var may := MayScale(now);
      if !may {
        return Some(Operations.Cooling);
      }
      var activeCount := nodes.CountActive();
      if activeCount <= cfg.minNodes {
        return Some(Operations.AtFloor);
      }
      return None;
    }

    /** Draining and then destroying, with nothing to wait for in between. */
    method Drain(linodeID: int, now: int) returns (ok: bool)
      requires Valid()
      modifies nodes`view, nodes.nodes.Values
      ensures Valid() && nodes.nodes == old(nodes.nodes)
      ensures ok == Operations.Drained(cfg, old(nodes.view), linodeID, now).Some?
      ensures nodes.view == if ok then Operations.Drained(cfg, old(nodes.view), linodeID, now).value
          else old(nodes.view)
    {
      ghost var m := nodes.view;
      ok := nodes.Transition(linodeID, Draining, now);
      if ok {
        ghost var draining := nodes.view;
        assert draining == Try(m, cfg.maxNodes, TransitionNode(linodeID, Draining), now).value;
        ok := nodes.Transition(linodeID, Destroying, now);
      }
    }

    method ScaleDown(linodeID: int, now: int, destroyOk: bool, done: int, writeOk: bool)
      returns (outcome: Operations.DownOutcome, destroyed: seq<int>)
      requires Valid()
      modifies this`lastScaleEvent, this`targetsFile, nodes, nodes.nodes.Values
      ensures Valid() && nodes.OnlyNew()
      ensures Operations.DownResult(Control(), outcome) ==
                Operations.ScaleDown(cfg, old(Control()), linodeID, now, destroyOk, done, writeOk)
      ensures destroyed == Operations.DownDestroys(linodeID, outcome)
    {
      destroyed := [];
      var blocked := BlockedBy(linodeID, now);
      if blocked.Some? {
        return blocked.value, destroyed;
      }
      outcome, destroyed := DrainAndDestroy(linodeID, now, destroyOk, done, writeOk);
    }

    /** What follows the checks. */
    method DrainAndDestroy(linodeID: int, now: int, destroyOk: bool, done: int, writeOk: bool)
      returns (outcome: Operations.DownOutcome, destroyed: seq<int>)
      requires Valid()
      modifies this`lastScaleEvent, this`targetsFile, nodes, nodes.nodes.Values
      ensures Valid() && nodes.OnlyNew()
      ensures Operations.DownResult(Control(), outcome) ==
                Operations.DrainAndDestroy(cfg, old(Control()), linodeID, now, destroyOk, done, writeOk)
      ensures destroyed == Operations.DownDestroys(linodeID, outcome)
    {
      destroyed := [];
      var drained := Drain(linodeID, now);
      if !drained {
        return Operations.NotReady, destroyed;
      }
      destroyed := destroyed + [linodeID];
      if !destroyOk {
        return Operations.DestroyFailed, destroyed;
      }
      Forget(linodeID, done, writeOk);
      return Operations.Destroyed, destroyed;
    }

    /** What follows a successful destroy call. */
    method Forget(linodeID: int, done: int, writeOk: bool)
      requires Valid()
      modifies this`lastScaleEvent, this`targetsFile, nodes
      ensures Valid() && nodes.OnlyNew()
      ensures Control() == Operations.Write(old(Control()).(nodes := old(nodes.view) - {linodeID},
          lastEvent := Some(done)), writeOk)
    {
      nodes.Remove(linodeID);
      RecordScaleEvent(done);
      WriteTargets(writeOk);
    }

    /** Bring a tracked node up to date with its listing entry: its address, and whether it is running. */
    method Refresh(cn: CloudNode, now: int) returns (changed: bool)
      requires Valid() && cn.id in nodes.nodes
      modifies nodes`view, nodes.nodes.Values
      ensures Valid() && nodes.nodes == old(nodes.nodes)
      ensures nodes.view == old(nodes.view)[cn.id := Observed(old(nodes.view)[cn.id], cn, now)]
      ensures changed == (nodes.view[cn.id] != old(nodes.view)[cn.id])
    {
      ghost var m := nodes.view;
      var copied := CopyAddress(cn);
      ghost var addressed := nodes.view;
      var promoted := PromoteRunning(cn, now);
      ObserveInTwo(m, cn, now, addressed, nodes.view);
      changed := copied || promoted;
    }

    method CopyAddress(cn: CloudNode) returns (changed: bool)
      requires Valid() && cn.id in nodes.nodes
      modifies nodes`view, nodes.nodes.Values
      ensures Valid() && nodes.nodes == old(nodes.nodes)
      ensures nodes.view == old(nodes.view)[cn.id := Addressed(old(nodes.view)[cn.id], cn)]
      ensures changed == (nodes.view[cn.id] != old(nodes.view)[cn.id])
    {
      var node := nodes.nodes[cn.id];
      assert node.Info() == nodes.view[cn.id];
      changed := false;
      if cn.ipv4 != "" && node.ipv4 != cn.ipv4 {
        changed := nodes.SetIP(cn.id, cn.ipv4);
      }
    }

    method PromoteRunning(cn: CloudNode, now: int) returns (changed: bool)
      requires Valid() && cn.id in nodes.nodes
      modifies nodes`view, nodes.nodes.Values
      ensures Valid() && nodes.nodes == old(nodes.nodes)
      ensures nodes.view == old(nodes.view)[cn.id := Promoted(old(nodes.view)[cn.id], cn, now)]
      ensures changed == (nodes.view[cn.id] != old(nodes.view)[cn.id])
    {
      var node := nodes.nodes[cn.id];
      assert node.Info() == nodes.view[cn.id];
      changed := false;
      if IsRunning(cn.status) && node.state == Provisioning {
        changed := nodes.Transition(cn.id, Ready, now);
      }
    }

    /** One listing entry: add the node if it is new and fits, then bring it up to date. */
    method MergeEntry(cn: CloudNode, now: int) returns (changed: bool)
      requires Valid()
      modifies nodes, nodes.nodes.Values
      ensures Valid() && nodes.OnlyNew()
      ensures nodes.view == MergeOne(old(nodes.view), cfg.maxNodes, cn, now)
      ensures changed == (nodes.view != old(nodes.view))
    {
      ghost var m := nodes.view;
      if cn.id in nodes.nodes {
        changed := Refresh(cn, now);
        assert !changed ==> nodes.view == m;
        return;
      }
      var added := nodes.Add(cn.id, cn.name, now);
      if !added {
        return false;
      }
      AddThenObserve(m, cfg.maxNodes, cn, now, nodes.view);
      var refreshed := Refresh(cn, now);
      assert cn.id in nodes.view && cn.id !in m;
      return true;
    }

    /** One visit of the removal loop: an unlisted node goes, unless it is still provisioning. */
    method SweepEntry(local: Node, seen: set<int>) returns (removed: bool)
      requires Valid() && local.linodeID in nodes.nodes && nodes.nodes[local.linodeID] == local
      modifies nodes
      ensures Valid()
      ensures removed == (local.linodeID !in seen && old(nodes.view)[local.linodeID].state != Provisioning)
      ensures nodes.view == if removed then old(nodes.view) - {local.linodeID} else old(nodes.view)
      ensures nodes.nodes == if removed then old(nodes.nodes) - {local.linodeID} else old(nodes.nodes)
      ensures nodes.nodes.Values <= old(nodes.nodes.Values)
    {
      if local.linodeID in seen {
        return false;
      }
      if local.state == Provisioning {
        return false;
      }
      nodes.Remove(local.linodeID);
      return true;
    }

    /** The removal loop, over a snapshot of the tracked nodes in any order. */
    method SweepUnlisted(seen: set<int>) returns (changed: bool)
      requires Valid()
      modifies nodes
      ensures Valid() && nodes.nodes.Values <= old(nodes.nodes.Values)
      ensures nodes.view == Sweep(old(nodes.view), seen)
      ensures changed == (nodes.view != old(nodes.view))
    {
      ghost var m := nodes.view;
      changed := false;
      var locals := nodes.nodes;
      var todo := locals.Keys;
      while todo != {}
        invariant todo <= locals.Keys && Valid()
        invariant forall id :: id in nodes.nodes ==> id in locals && nodes.nodes[id] == locals[id]
        invariant nodes.nodes.Values <= locals.Values
        invariant nodes.view == SweptExcept(m, seen, todo)
        invariant changed == (nodes.view != m)
        decreases todo
      {
        ghost var someId := Inhabited(todo);
        var id :| id in todo;
        assert id in nodes.view && nodes.view[id] == m[id];
        SweepNext(m, seen, todo, id);
        todo := todo - {id};
        var removed := SweepEntry(locals[id], seen);
        changed := changed || removed;
      }
    }

    /** The merge loop, over the listing in order. */
    method MergeListed(cloudNodes: seq<CloudNode>, now: int) returns (seen: set<int>, changed: bool)
      requires Valid()
      modifies nodes, nodes.nodes.Values
      ensures Valid() && nodes.OnlyNew()
      ensures nodes.view == Merge(old(nodes.view), cfg.maxNodes, cloudNodes, now)
      ensures seen == Ids(cloudNodes)
      ensures changed == MergeTouched(old(nodes.view), cfg.maxNodes, cloudNodes, now)
    {
      ghost var m := nodes.view;
      seen, changed := {}, false;
      for i := 0 to |cloudNodes|
        invariant Valid() && nodes.OnlyNew()
        invariant nodes.view == Merge(m, cfg.maxNodes, cloudNodes[..i], now)
        invariant seen == Ids(cloudNodes[..i])
        invariant changed == MergeTouched(m, cfg.maxNodes, cloudNodes[..i], now)
      {
        assert cloudNodes[..i + 1][..i] == cloudNodes[..i];
        IdsOfInit(cloudNodes[..i + 1]);
        seen := seen + {cloudNodes[i].id};
        var touched := MergeEntry(cloudNodes[i], now);
        changed := changed || touched;
      }
      assert cloudNodes[..|cloudNodes|] == cloudNodes;
    }

    method ReconcileWithCloud(listing: Option<seq<CloudNode>>, now: int, writeOk: bool) returns (ok: bool)
      requires Valid()
      modifies this`targetsFile, nodes, nodes.nodes.Values
      ensures Valid() && nodes.OnlyNew()
      ensures ok == listing.Some?
      ensures Control() == if ok then Operations.ReconcileControl(cfg, old(Control()), listing.value, now, writeOk)
          else old(Control())
    {
      if listing == None {
        return false;
      }
      ghost var m := nodes.view;
      var cloudNodes := listing.value;
      var seen, changed := MergeListed(cloudNodes, now);
      var removed := SweepUnlisted(seen);
      changed := changed || removed;
      assert nodes.view == Reconcile(m, cfg.maxNodes, cloudNodes, now);
      assert changed == Touched(m, cfg.maxNodes, cloudNodes, now);
      if changed {
        WriteTargets(writeOk);
      }
      return true;
    }

    method MonitorTick(t: Operations.TickInput) returns (up: UpLaunch, down: Option<int>)
      requires Valid()
      modifies this`scaleUpSince, this`scaleDownSince, this`targetsFile, nodes, nodes.nodes.Values
      ensures Valid() && nodes.OnlyNew()
      ensures Operations.TickResult(Control(), up, down) == Operations.MonitorTick(cfg, old(Control()), t)
    {
      var ok := ReconcileWithCloud(t.listing, t.now, t.writeOk);
      if !ok {
        return NoLaunch, None;
      }
      up := EvaluateScaleUp(t.pending, t.now);
      down := EvaluateScaleDown(t.pending, t.now);
    }

    /** Waiters that end before the next tick, one after the other. */
    method RunWaits(waits: seq<Operations.Waited>)
      requires Valid()
      modifies this`targetsFile, nodes, nodes.nodes.Values
      ensures Valid() && nodes.OnlyNew()
      ensures Control() == Operations.AfterWaits(cfg, old(Control()), waits)
    {
      ghost var start := Control();
      for i := 0 to |waits|
        invariant Valid() && nodes.OnlyNew()
        invariant lastScaleEvent == old(lastScaleEvent) && scaleUpSince == old(scaleUpSince)
        invariant scaleDownSince == old(scaleDownSince)
        invariant Control() == Operations.AfterWaits(cfg, start, waits[..i])
      {
        assert waits[..i + 1][..i] == waits[..i];
        var w := waits[i];
        var destroyed := WaitForNodeReady(w.id, w.outcome, w.at, w.writeOk);
      }
      assert waits[..|waits|] == waits;
    }

    /** The ScaleUp a tick launched, if any, run to its end: the time of the scale event it recorded. */
    method RunScaleUp(launch: UpLaunch, r: Operations.Round) returns (events: seq<int>)
      requires Valid()
      modifies this`lastScaleEvent, nodes
      ensures Valid() && nodes.OnlyNew()
      ensures var up := Operations.PlayUp(cfg, old(Control()), launch, r);
              Control() == up.after && events == Operations.UpEvents(up.outcome, r)
    {
      events := [];
      if launch != NoLaunch {
        var outcome, destroyed := ScaleUp(r.created, r.name, r.upAt);
        if outcome.Added? {
          events := [r.upAt];
        }
      }
    }

    /** The ScaleDown a tick launched, if any. */
    method RunScaleDown(down: Option<int>, r: Operations.Round) returns (events: seq<int>)
      requires Valid()
      modifies this`lastScaleEvent, this`targetsFile, nodes, nodes.nodes.Values
      ensures Valid() && nodes.OnlyNew()
      ensures var removed := Operations.PlayDown(cfg, old(Control()), down, r);
              Control() == removed.after && events == Operations.DownEvents(removed.outcome, r)
    {
      events := [];
      if down.Some? {
        var outcome, destroyed := ScaleDown(down.value, r.downAt, r.destroyOk, r.downDone, r.tick.writeOk);
        if outcome == Operations.Destroyed {
          events := [r.downDone];
        }
      }
    }

    /** What a tick launched, in the order of the round. */
    method RunLaunches(up: UpLaunch, down: Option<int>, r: Operations.Round) returns (events: seq<int>)
      requires Valid()
      modifies this`lastScaleEvent, this`targetsFile, nodes, nodes.nodes.Values
      ensures Valid() && nodes.OnlyNew()
      ensures (Control(), events) == Operations.PlayLaunched(cfg, old(Control()), up, down, r)
    {
      var more: seq<int>;
      if r.downFirst {
        events := RunScaleDown(down, r);
        more := RunScaleUp(up, r);
      } else {
        events := RunScaleUp(up, r);
        more := RunScaleDown(down, r);
      }
      events := events + more;
    }

    method PlayRound(r: Operations.Round) returns (events: seq<int>)
      requires Valid()
      modifies this, nodes, nodes.nodes.Values
      ensures Valid() && nodes.OnlyNew()
      ensures (Control(), events) == Operations.Play(cfg, old(Control()), r)
    {
      var up, down := MonitorTick(r.tick);
      events := RunLaunches(up, down, r);
      RunWaits(r.waits);
    }

    /** The loop with each launched operation run to its end before the next tick. */
    method MonitorLoop(rounds: seq<Operations.Round>) returns (events: seq<int>)
      requires Valid()
      modifies this, nodes, nodes.nodes.Values
      ensures Valid() && nodes.OnlyNew()
      ensures (Control(), events) == Operations.PlayAll(cfg, old(Control()), rounds)
    {
      events := [];
      ghost var start := Control();
      for i := 0 to |rounds|
        invariant Valid() && nodes.OnlyNew()
        invariant (Control(), events) == Operations.PlayAll(cfg, start, rounds[..i])
      {
        assert rounds[..i + 1][..i] == rounds[..i];
        var more := PlayRound(rounds[i]);
        events := events + more;
      }
      assert rounds[..|rounds|] == rounds;
    }
  }
}
