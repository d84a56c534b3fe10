/**
 * The orchestrator's operations run to completion, one at a time, as functions on its state.
 * What the cloud, the clock and the file system answer is passed in.
 */
module Operations {
  import opened Common
  import opened Counting
  import opened Nodes
  import opened Scaling
  import opened Reconciliation
  import opened Discovery

  /** The node table, the three pieces of timed state, and the entries in the target file. */
  datatype Control = Control(nodes: NodeMap, lastEvent: Option<int>, upSince: Option<int>, downSince: Option<int>,
                             targets: multiset<Target>)

  ghost function Write(c: Control, ok: bool): Control {
    if ok then c.(targets := multiset(Index(c.nodes))) else c
  }

  // -------------------------------------------------------------- scaling up

  datatype UpOutcome = CapReached | CreateFailed | TrackFailed(id: int) | Added(id: int)

  datatype UpResult = UpResult(after: Control, outcome: UpOutcome, destroyed: seq<int>)

  /** `created` is what the cloud returns; `destroyed` lists the compensating destroy calls. */
  ghost function ScaleUp(cfg: Config, c: Control, created: Option<int>, name: string, now: int): UpResult {
    if ActiveCount(c.nodes) >= cfg.maxNodes then UpResult(c, CapReached, [])
    else if created == None then UpResult(c, CreateFailed, [])
    else
      var added := Try(c.nodes, cfg.maxNodes, AddNode(created.value, name), now);
      if added == None then UpResult(c, TrackFailed(created.value), [created.value])
      else UpResult(c.(nodes := added.value, lastEvent := Some(now)), Added(created.value), [])
  }

  /**
   * All or nothing: exactly the new node is tracked, provisioning and under its label, and the event
   * recorded; or nothing changed and what was created is destroyed again. And which of them when.
   */
  lemma ScaleUpIsAllOrNothing(cfg: Config, c: Control, created: Option<int>, name: string, now: int)
    ensures var r := ScaleUp(cfg, c, created, name, now);
            && (r.outcome == CapReached <==> ActiveCount(c.nodes) >= cfg.maxNodes)
            && (r.outcome == CreateFailed <==> ActiveCount(c.nodes) < cfg.maxNodes && created == None)
            && (r.outcome.Added? <==> ActiveCount(c.nodes) < cfg.maxNodes && |c.nodes| < cfg.maxNodes
                                      && created.Some? && created.value !in c.nodes)
            && (r.outcome.Added? ==>
                  && created == Some(r.outcome.id) && r.destroyed == []
                  && r.after == c.(nodes := c.nodes[r.outcome.id := NodeInfo(name, "", Provisioning, now, None, false)],
                                   lastEvent := Some(now)))
            && (!r.outcome.Added? ==> r.after == c)
            && (r.outcome.TrackFailed? ==> created == Some(r.outcome.id) && r.destroyed == [created.value])
            && (r.outcome == CapReached || r.outcome == CreateFailed ==> r.destroyed == [])
  {
  }

  // -------------------------------------------------------------- waiting for a node

  /** The node came up with an address, or did not and was destroyed as far as the cloud allows. */
  datatype WaitOutcome = CameUp(ip: string) | NeverCameUp

  ghost function WaitForNodeReady(cfg: Config, c: Control, id: int, outcome: WaitOutcome, now: int,
                                  writeOk: bool): Control {
    match outcome
    case NeverCameUp =>
      c.(nodes := After(After(c.nodes, cfg.maxNodes, TransitionNode(id, Destroying), now), cfg.maxNodes,
          RemoveNode(id), now))
    case CameUp(ip) =>
      var addressed := Try(c.nodes, cfg.maxNodes, SetNodeIP(id, ip), now);
      if addressed == None then c
      else
        var ready := Try(addressed.value, cfg.maxNodes, TransitionNode(id, Ready), now);
        if ready == None then c.(nodes := addressed.value)
        else Write(c.(nodes := ready.value), writeOk)
  }

  /** The destroy calls of a waiter that gives up. */
  function WaitDestroys(id: int, outcome: WaitOutcome): seq<int> {
    if outcome.NeverCameUp? then [id] else []
  }

  // -------------------------------------------------------------- scaling down

  datatype DownOutcome = NotFound | Locked | Cooling | AtFloor | NotReady | DestroyFailed | Destroyed

  datatype DownResult = DownResult(after: Control, outcome: DownOutcome)

  /** The checks before a scale-down touches the node; None lets it proceed. */
  ghost function BlockedBy(cfg: Config, c: Control, id: int, now: int): Option<DownOutcome> {
    if id !in c.nodes then Some(NotFound)
    else if c.nodes[id].drainLocked then Some(Locked)
    else if !CanScale(cfg, c.lastEvent, now) then Some(Cooling)
    else if ActiveCount(c.nodes) <= cfg.minNodes then Some(AtFloor)
    else None
  }

  /** The two transitions; the second one cannot fail after the first. */
  ghost function Drained(cfg: Config, m: NodeMap, id: int, now: int): Option<NodeMap> {
    var draining := Try(m, cfg.maxNodes, TransitionNode(id, Draining), now);
    if draining == None then None
    else Try(draining.value, cfg.maxNodes, TransitionNode(id, Destroying), now)
  }

  ghost function ScaleDown(cfg: Config, c: Control, id: int, now: int, destroyOk: bool, done: int,
                           writeOk: bool): DownResult {
    var blocked := BlockedBy(cfg, c, id, now);
    if blocked.Some? then DownResult(c, blocked.value)
    else DrainAndDestroy(cfg, c, id, now, destroyOk, done, writeOk)
  }

  /** What follows the checks. */
  ghost function DrainAndDestroy(cfg: Config, c: Control, id: int, now: int, destroyOk: bool, done: int,
                                 writeOk: bool): DownResult {
    var drained := Drained(cfg, c.nodes, id, now);
    if drained == None then DownResult(c, NotReady)
    else if !destroyOk then DownResult(c.(nodes := drained.value), DestroyFailed)
    else DownResult(Write(c.(nodes := drained.value - {id}, lastEvent := Some(done)), writeOk), Destroyed)
  }

  /** The destroy calls of a scale-down with that outcome. */
  function DownDestroys(id: int, outcome: DownOutcome): seq<int> {
    if outcome == Destroyed || outcome == DestroyFailed then [id] else []
  }

  /**
   * What a scale-down leaves behind: nothing changed when a guard stopped it, the node stuck in its
   * last state when the destroy call failed, and otherwise exactly that node gone.
   */
  lemma ScaleDownEffect(cfg: Config, c: Control, id: int, now: int, destroyOk: bool, done: int, writeOk: bool)
    ensures var r := ScaleDown(cfg, c, id, now, destroyOk, done, writeOk);
            var passes := id in c.nodes && !c.nodes[id].drainLocked && CanScale(cfg, c.lastEvent, now)
                          && ActiveCount(c.nodes) > cfg.minNodes && c.nodes[id].state in {Ready, Draining};
            && (!passes <==> r.outcome !in {DestroyFailed, Destroyed})
            && (!passes ==> r.after == c)
            && (passes && !destroyOk ==>
                  r == DownResult(c.(nodes := c.nodes[id := c.nodes[id].(state := Destroying)]), DestroyFailed))
            && (passes && destroyOk ==>
                  r == DownResult(Write(c.(nodes := c.nodes - {id}, lastEvent := Some(done)), writeOk), Destroyed))
            && ActiveCount(r.after.nodes) == ActiveCount(c.nodes) - Bit(passes)
  {
    if id in c.nodes {
      CountPut(c.nodes, id, c.nodes[id].(state := Destroying), IsActive);
      CountDrop(c.nodes, id, IsActive);
      var m := c.nodes[id := c.nodes[id].(state := Draining)];
      assert m[id := m[id].(state := Destroying)] == c.nodes[id := c.nodes[id].(state := Destroying)];
      assert c.nodes[id := c.nodes[id].(state := Destroying)] - {id} == c.nodes - {id};
    }
  }

  // -------------------------------------------------------------- one tick of the monitor loop

  datatype TickResult = TickResult(after: Control, up: UpLaunch, down: Option<int>)

  ghost function ReconcileControl(cfg: Config, c: Control, listing: seq<CloudNode>, now: int, writeOk: bool): Control {
    var nodes := Reconcile(c.nodes, cfg.maxNodes, listing, now);
    Write(c.(nodes := nodes), writeOk && Touched(c.nodes, cfg.maxNodes, listing, now))
  }

  /** What the outside answers at one tick: the listing unless it failed, the queue, the clock, the disk. */
  datatype TickInput = TickInput(listing: Option<seq<CloudNode>>, pending: int, now: int, writeOk: bool)

  /** A tick whose listing failed ends there. */
  ghost function MonitorTick(cfg: Config, c: Control, t: TickInput): TickResult {
    if t.listing == None then TickResult(c, NoLaunch, None)
    else
      var s := ReconcileControl(cfg, c, t.listing.value, t.now, t.writeOk);
      var r := Read(cfg, s.nodes, s.lastEvent, t.pending, t.now);
      var u, d := DecideUp(cfg, s.upSince, r), DecideDown(cfg, s.downSince, r);
      TickResult(s.(upSince := u.since, downSince := d.since), u.launch, d.target)
  }

  /** A tick whose listing failed leaves everything as it was and launches nothing. */
  lemma FailedListingStops(cfg: Config, c: Control, t: TickInput)
    requires t.listing == None
    ensures MonitorTick(cfg, c, t).after == c
    ensures MonitorTick(cfg, c, t).up == NoLaunch && MonitorTick(cfg, c, t).down == None
  {
  }

  /**
   * What a pass does to the file: it is rewritten, with the index of the new table, exactly when some
   * step of the pass changed the table and the write succeeds. The timers and the last event stay.
   */
  lemma ReconcileWrites(cfg: Config, c: Control, listing: seq<CloudNode>, now: int, writeOk: bool)
    ensures var after := ReconcileControl(cfg, c, listing, now, writeOk);
            && after.nodes == Reconcile(c.nodes, cfg.maxNodes, listing, now)
            && after.lastEvent == c.lastEvent && after.upSince == c.upSince && after.downSince == c.downSince
            && after.targets ==
                 if writeOk && Touched(c.nodes, cfg.maxNodes, listing, now) then multiset(Index(after.nodes))
                 else c.targets
  {
  }

  /** For a duplicate-free listing that leaves the table as it is, the file is not rewritten, however stale it is. */
  lemma UnchangedPassKeepsFile(cfg: Config, c: Control, listing: seq<CloudNode>, now: int, writeOk: bool)
    requires Distinct(listing) && Reconcile(c.nodes, cfg.maxNodes, listing, now) == c.nodes
    ensures ReconcileControl(cfg, c, listing, now, writeOk) == c
  {
    TouchedIff(c.nodes, cfg.maxNodes, listing, now);
  }

  /**
   * Which check stops a scale-down: an unknown node, then a drain lock, then the cooldown, then the
   * floor; none of them exactly when the node is tracked and unlocked, the cooldown has passed since
   * the last event, and more nodes than the floor are active.
   */
  lemma WhatBlocks(cfg: Config, c: Control, id: int, now: int)
    ensures var blocked := BlockedBy(cfg, c, id, now);
            var tracked := id in c.nodes;
            var locked := tracked && c.nodes[id].drainLocked;
            var cooling := c.lastEvent != None && now - c.lastEvent.value < cfg.cooldown;
            && (blocked == Some(NotFound) <==> !tracked)
            && (blocked == Some(Locked) <==> locked)
            && (blocked == Some(Cooling) <==> tracked && !locked && cooling)
            && (blocked == Some(AtFloor) <==> tracked && !locked && !cooling && ActiveCount(c.nodes) <= cfg.minNodes)
            && (blocked == None <==> tracked && !locked && !cooling && ActiveCount(c.nodes) > cfg.minNodes)
  {
  }

  /** A waiter whose node did not come up takes it out, and changes nothing else. */
  lemma GivenUpEffect(cfg: Config, c: Control, id: int, now: int, writeOk: bool)
    ensures WaitForNodeReady(cfg, c, id, NeverCameUp, now, writeOk) == c.(nodes := c.nodes - {id})
  {
    TransitionThenRemove(c.nodes, cfg.maxNodes, id, now);
  }

  lemma TransitionThenRemove(m: NodeMap, cap: int, id: int, now: int)
    ensures After(After(m, cap, TransitionNode(id, Destroying), now), cap, RemoveNode(id), now) == m - {id}
  {
    assert After(m, cap, TransitionNode(id, Destroying), now) - {id} == m - {id};
  }

  /**
   * A waiter whose node came up gives it its address, and makes it ready, since now, if it was
   * provisioning; if it is ready then the file is rewritten. Nothing else changes.
   */
  lemma CameUpEffect(cfg: Config, c: Control, id: int, ip: string, now: int, writeOk: bool)
    requires id in c.nodes
    ensures var n, after := c.nodes[id], WaitForNodeReady(cfg, c, id, CameUp(ip), now, writeOk);
            && id in after.nodes
            && after == c.(nodes := c.nodes[id := after.nodes[id]], targets := after.targets)
            && after.nodes[id].ipv4 == ip && after.nodes[id].name == n.name
            && after.nodes[id].drainLocked == n.drainLocked && after.nodes[id].createdAt == n.createdAt
            && after.nodes[id].state == (if n.state == Provisioning then Ready else n.state)
            && (n.state == Provisioning ==> after.nodes[id].readyAt == Some(now))
            && after.targets ==
                 if writeOk && after.nodes[id].state == Ready then multiset(Index(after.nodes)) else c.targets
  {
  }

  /** And one whose node is no longer tracked changes nothing. */
  lemma CameUpTooLate(cfg: Config, c: Control, id: int, ip: string, now: int, writeOk: bool)
    requires id !in c.nodes
    ensures WaitForNodeReady(cfg, c, id, CameUp(ip), now, writeOk) == c
  {
  }

  // -------------------------------------------------------------- the sequential schedule

  /**
   * One tick, the answers its launched operations get, and the waiters that end before the next tick.
   * When a tick launches both operations, either may go first.
   */
  datatype Round = Round(tick: TickInput, downFirst: bool, created: Option<int>, name: string, upAt: int,
                         downAt: int, destroyOk: bool, downDone: int, waits: seq<Waited>)

  datatype Waited = Waited(id: int, outcome: WaitOutcome, at: int, writeOk: bool)

  ghost function AfterWaits(cfg: Config, c: Control, waits: seq<Waited>): Control {
    if waits == [] then c
    else
      var w := waits[|waits| - 1];
      WaitForNodeReady(cfg, AfterWaits(cfg, c, waits[..|waits| - 1]), w.id, w.outcome, w.at, w.writeOk)
  }

  ghost function PlayUp(cfg: Config, c: Control, launch: UpLaunch, r: Round): UpResult {
    if launch == NoLaunch then UpResult(c, CreateFailed, []) else ScaleUp(cfg, c, r.created, r.name, r.upAt)
  }

  ghost function PlayDown(cfg: Config, c: Control, target: Option<int>, r: Round): DownResult {
    if target == None then DownResult(c, NotFound)
    else ScaleDown(cfg, c, target.value, r.downAt, r.destroyOk, r.downDone, r.tick.writeOk)
  }

  /** The state after a round and the scale events it recorded. */
  ghost function Play(cfg: Config, c: Control, r: Round): (Control, seq<int>) {
    var t := MonitorTick(cfg, c, r.tick);
    var (after, events) := PlayLaunched(cfg, t.after, t.up, t.down, r);
    (AfterWaits(cfg, after, r.waits), events)
  }

  /** The launched operations, one after the other. */
  ghost function PlayLaunched(cfg: Config, c: Control, launch: UpLaunch, target: Option<int>, r: Round)
    : (Control, seq<int>)
  {
    if r.downFirst then
      var down := PlayDown(cfg, c, target, r);
      var up := PlayUp(cfg, down.after, launch, r);
      (up.after, DownEvents(down.outcome, r) + UpEvents(up.outcome, r))
    else
      var up := PlayUp(cfg, c, launch, r);
      var down := PlayDown(cfg, up.after, target, r);
      (down.after, UpEvents(up.outcome, r) + DownEvents(down.outcome, r))
  }

  function UpEvents(outcome: UpOutcome, r: Round): seq<int> {
    if outcome.Added? then [r.upAt] else []
  }

  function DownEvents(outcome: DownOutcome, r: Round): seq<int> {
    if outcome == Destroyed then [r.downDone] else []
  }

  ghost function PlayAll(cfg: Config, c: Control, rounds: seq<Round>): (Control, seq<int>) {
    if rounds == [] then (c, [])
    else
      var (before, events) := PlayAll(cfg, c, rounds[..|rounds| - 1]);
      var (after, more) := Play(cfg, before, rounds[|rounds| - 1]);
      (after, events + more)
  }
}
