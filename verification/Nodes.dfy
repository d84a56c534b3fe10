/**
 * The node table: lifecycle states, the operations the node manager performs under its lock,
 * and what every interleaving of those operations keeps.
 */
module Nodes {
  import opened Common
  import opened Counting

  datatype State = Provisioning | Ready | Draining | Destroying

  /** What is known about one tracked node; `readyAt` is None for the zero time. */
  datatype NodeInfo = NodeInfo(name: string, ipv4: string, state: State, createdAt: int,
                               readyAt: Option<int>, drainLocked: bool)

  /** Tracked nodes by instance id. */
  type NodeMap = map<int, NodeInfo>

  /** One locked call on the node manager. */
  datatype NodeOp =
    | AddNode(id: int, name: string)
    | TransitionNode(id: int, to: State)
    | RemoveNode(id: int)
    | SetNodeIP(id: int, ip: string)
    | SetDrainLock(id: int, locked: bool)

  function Allowed(s: State): set<State> {
    match s
    case Provisioning => {Ready, Destroying}
    case Ready => {Draining}
    case Draining => {Destroying}
    case Destroying => {}
  }

  function Fresh(name: string, now: int): NodeInfo {
    NodeInfo(name, "", Provisioning, now, None, false)
  }

  function Enter(n: NodeInfo, to: State, now: int): NodeInfo {
    if to == Ready then n.(state := to, readyAt := Some(now)) else n.(state := to)
  }

  /** The table after a locked call, or None when the call returns an error. */
  function Try(m: NodeMap, cap: int, op: NodeOp, now: int): Option<NodeMap> {
    match op
    case AddNode(id, name) =>
      if |m| >= cap || id in m then None else Some(m[id := Fresh(name, now)])
    case TransitionNode(id, to) =>
      if id !in m then None
      else if m[id].state == to then
        if to == Ready && m[id].readyAt == None then Some(m[id := m[id].(readyAt := Some(now))]) else Some(m)
      else if to in Allowed(m[id].state) then Some(m[id := Enter(m[id], to, now)])
      else None
    case RemoveNode(id) => Some(m - {id})
    case SetNodeIP(id, ip) =>
      if id in m then Some(m[id := m[id].(ipv4 := ip)]) else None
    case SetDrainLock(id, locked) =>
      if id in m then Some(m[id := m[id].(drainLocked := locked)]) else None
  }

  /** A failed call changes nothing. */
  function After(m: NodeMap, cap: int, op: NodeOp, now: int): NodeMap {
    var r := Try(m, cap, op, now);
    if r.Some? then r.value else m
  }

  predicate IsActive(n: NodeInfo) {
    n.state != Destroying
  }

  predicate IsReady(n: NodeInfo) {
    n.state == Ready
  }

  ghost function ActiveCount(m: NodeMap): nat {
    Count(m, IsActive)
  }

  ghost function ReadyCount(m: NodeMap): nat {
    Count(m, IsReady)
  }

  ghost function ReadyIds(m: NodeMap): set<int> {
    Matching(m, IsReady)
  }

  predicate InProgress(m: NodeMap) {
    exists id :: id in m && m[id].state in {Provisioning, Draining, Destroying}
  }

  function Rank(s: State): nat {
    match s
    case Provisioning => 0
    case Ready => 1
    case Draining => 2
    case Destroying => 3
  }

  /** Ready and draining nodes carry their ready time, provisioning nodes do not. */
  ghost predicate WellStamped(m: NodeMap) {
    forall id :: id in m ==>
      && (m[id].state == Provisioning ==> m[id].readyAt == None)
      && (m[id].state == Ready || m[id].state == Draining ==> m[id].readyAt != None)
  }

  // ---------------------------------------------------------------- one call

  /** What one call can do to an entry it neither adds nor removes. */
  ghost predicate Advances(before: NodeInfo, after: NodeInfo) {
    && Rank(before.state) <= Rank(after.state)
    && (before.readyAt != None ==> after.readyAt == before.readyAt)
    && (before.readyAt == None && after.readyAt != None ==> before.state == Provisioning && after.state == Ready)
    && after.name == before.name && after.createdAt == before.createdAt
  }

  lemma CallAdvances(m: NodeMap, cap: int, op: NodeOp, now: int)
    requires WellStamped(m)
    ensures var m' := After(m, cap, op, now);
            && WellStamped(m')
            && (forall id :: id in m && id in m' ==> Advances(m[id], m'[id]))
            && (forall id :: id in m' && id !in m ==> m'[id].state == Provisioning && op.AddNode?)
            && (forall id :: id in m && id !in m' ==> op == RemoveNode(id))
            && (forall id :: id in m && id in m' && m'[id] != m[id] ==> id == op.id)
  {
  }

  lemma CallRespectsCap(m: NodeMap, cap: int, op: NodeOp, now: int)
    requires |m| <= cap
    ensures |After(m, cap, op, now)| <= cap
  {
    if op.RemoveNode? {
      assert (m - {op.id}).Keys == m.Keys - {op.id};
      Subset(m.Keys - {op.id}, m.Keys);
    }
  }

  /**
   * A node is in a transitional state exactly when some tracked node is not ready: the
   * in-progress test and a comparison of two counts are the same test.
   */
  lemma InProgressIsNotAllReady(m: NodeMap)
    ensures InProgress(m) <==> ReadyCount(m) < |m|
  {
    CountAtMost(m, IsReady);
    if ReadyCount(m) == |m| {
      assert forall id :: id in m ==> IsReady(m[id]);
    } else {
      var id := Exception(m, IsReady);
      assert m[id].state in {Provisioning, Draining, Destroying};
    }
  }

  /** What the counts count. */
  lemma CountsAre(m: NodeMap)
    ensures ActiveCount(m) == |set id | id in m && m[id].state != Destroying|
    ensures ReadyCount(m) == |set id | id in m && m[id].state == Ready|
  {
    assert Matching(m, IsActive) == set id | id in m && m[id].state != Destroying;
    assert Matching(m, IsReady) == set id | id in m && m[id].state == Ready;
  }

  lemma InProgressIs(m: NodeMap)
    ensures InProgress(m) <==> exists id :: id in m && m[id].state != Ready
  {
  }

  lemma AllReadyCounts(m: NodeMap)
    requires !InProgress(m)
    ensures ActiveCount(m) == ReadyCount(m) == |m|
    ensures ReadyIds(m) == m.Keys
  {
    InProgressIsNotAllReady(m);
    CountAtMost(m, IsReady);
    CountAtMost(m, IsActive);
    assert forall id :: id in m ==> m[id].state == Ready;
  }

  // ---------------------------------------------------------------- each call, field by field

  /**
   * A node is added exactly if there is room and it is not tracked: provisioning, unlocked, without
   * address or ready time.
   */
  lemma AddEffect(m: NodeMap, cap: int, id: int, name: string, now: int)
    ensures var r := Try(m, cap, AddNode(id, name), now);
            && (r.Some? <==> |m| < cap && id !in m)
            && (r.Some? ==>
                  && id in r.value && r.value - {id} == m
                  && r.value[id].state == Provisioning && r.value[id].name == name && r.value[id].createdAt == now
                  && r.value[id].ipv4 == "" && r.value[id].readyAt == None && !r.value[id].drainLocked)
  {
  }

  /**
   * A transition succeeds exactly from provisioning to ready or destroying, from ready to draining,
   * from draining to destroying, and to the state a node is in. It changes the state, and the ready
   * time when it enters ready or finds it missing there; nothing else of the node, and no other node.
   */
  lemma TransitionEffect(m: NodeMap, cap: int, id: int, to: State, now: int)
    ensures var r := Try(m, cap, TransitionNode(id, to), now);
            && (r.Some? <==>
                  && id in m
                  && (m[id].state == to || (m[id].state == Provisioning && to == Ready)
                      || (m[id].state == Provisioning && to == Destroying) || (m[id].state == Ready && to == Draining)
                      || (m[id].state == Draining && to == Destroying)))
            && (r.Some? ==>
                  && id in r.value && r.value - {id} == m - {id}
                  && r.value[id].state == to && r.value[id].name == m[id].name && r.value[id].ipv4 == m[id].ipv4
                  && r.value[id].createdAt == m[id].createdAt && r.value[id].drainLocked == m[id].drainLocked
                  && r.value[id].readyAt ==
                       if to == Ready && (m[id].state != Ready || m[id].readyAt == None) then Some(now)
                       else m[id].readyAt)
  {
  }

  /** The other calls set one field of a tracked node, or take the node out. */
  lemma OtherEffects(m: NodeMap, cap: int, id: int, ip: string, locked: bool, now: int)
    ensures Try(m, cap, RemoveNode(id), now) == Some(m - {id})
    ensures Try(m, cap, SetNodeIP(id, ip), now).Some? <==> id in m
    ensures id in m ==> Try(m, cap, SetNodeIP(id, ip), now) == Some(m[id := m[id].(ipv4 := ip)])
    ensures Try(m, cap, SetDrainLock(id, locked), now).Some? <==> id in m
    ensures id in m ==> Try(m, cap, SetDrainLock(id, locked), now) == Some(m[id := m[id].(drainLocked := locked)])
  {
  }

  // ------------------------------------------------- any interleaving of calls

  /** A locked call and the clock reading it uses. */
  datatype Call = Call(op: NodeOp, now: int)

  ghost function Replay(m: NodeMap, cap: int, calls: seq<Call>): NodeMap {
    if calls == [] then m
    else
      var last := calls[|calls| - 1];
      After(Replay(m, cap, calls[..|calls| - 1]), cap, last.op, last.now)
  }

  /** The node is tracked before the first call and after every one of them. */
  ghost predicate StaysTracked(m: NodeMap, cap: int, calls: seq<Call>, id: int) {
    forall k :: 0 <= k <= |calls| ==> id in Replay(m, cap, calls[..k])
  }

  /** How many of the calls changed the node's state. */
  ghost function StateChanges(m: NodeMap, cap: int, calls: seq<Call>, id: int): nat
    requires StaysTracked(m, cap, calls, id)
  {
    if calls == [] then 0
    else
      var init := calls[..|calls| - 1];
      StaysTrackedBefore(m, cap, calls, id);
      assert calls[..|calls|] == calls;
      StateChanges(m, cap, init, id)
      + Bit(Replay(m, cap, calls)[id].state != Replay(m, cap, init)[id].state)
  }

  lemma StaysTrackedBefore(m: NodeMap, cap: int, calls: seq<Call>, id: int)
    requires StaysTracked(m, cap, calls, id) && calls != []
    ensures StaysTracked(m, cap, calls[..|calls| - 1], id)
    ensures id in Replay(m, cap, calls[..|calls| - 1])
  {
    var init := calls[..|calls| - 1];
    forall k | 0 <= k <= |init| ensures id in Replay(m, cap, init[..k]) {
      assert init[..k] == calls[..k];
    }
    assert init[..|init|] == init;
  }

  lemma {:induction false} ReplayKeepsInvariants(m: NodeMap, cap: int, calls: seq<Call>)
    requires WellStamped(m) && |m| <= cap
    ensures WellStamped(Replay(m, cap, calls)) && |Replay(m, cap, calls)| <= cap
  {
    if calls != [] {
      var last := calls[|calls| - 1];
      var before := Replay(m, cap, calls[..|calls| - 1]);
      ReplayKeepsInvariants(m, cap, calls[..|calls| - 1]);
      CallAdvances(before, cap, last.op, last.now);
      CallRespectsCap(before, cap, last.op, last.now);
    }
  }

  /**
   * However the callers interleave, an entry's rank never falls while it is tracked, each state
   * change costs a rank (so there are at most three), and its ready time is written at most once.
   */
  lemma {:induction false} LifecycleOverAnyInterleaving(m: NodeMap, cap: int, calls: seq<Call>, id: int)
    requires WellStamped(m) && |m| <= cap
    requires StaysTracked(m, cap, calls, id)
    ensures id in m && id in Replay(m, cap, calls)
    ensures Rank(m[id].state) + StateChanges(m, cap, calls, id) <= Rank(Replay(m, cap, calls)[id].state) <= 3
    ensures m[id].readyAt != None ==> Replay(m, cap, calls)[id].readyAt == m[id].readyAt
    ensures m[id].readyAt == None && Replay(m, cap, calls)[id].readyAt != None ==> m[id].state == Provisioning
    ensures Replay(m, cap, calls)[id].name == m[id].name && Replay(m, cap, calls)[id].createdAt == m[id].createdAt
  {
    if calls == [] {
      assert calls[..0] == [];
    } else {
      var init, last := calls[..|calls| - 1], calls[|calls| - 1];
      assert calls[..|calls|] == calls;
      StaysTrackedBefore(m, cap, calls, id);
      LifecycleOverAnyInterleaving(m, cap, init, id);
      ReplayKeepsInvariants(m, cap, init);
      CallAdvances(Replay(m, cap, init), cap, last.op, last.now);
    }
  }

  /**
   * Any number of interleaved calls about one node, such as those of several ScaleDowns of it,
   * leave every other node alone, so they lower the active count by at most one.
   */
  lemma {:induction false} CallsOnOneNode(m: NodeMap, cap: int, calls: seq<Call>, id: int)
    requires forall i :: 0 <= i < |calls| ==> calls[i].op.id == id
    ensures Replay(m, cap, calls) - {id} == m - {id}
    ensures ActiveCount(m) - 1 <= ActiveCount(Replay(m, cap, calls)) <= ActiveCount(m) + 1
  {
    var after := Replay(m, cap, calls);
    if calls != [] {
      var last := calls[|calls| - 1];
      var before := Replay(m, cap, calls[..|calls| - 1]);
      CallsOnOneNode(m, cap, calls[..|calls| - 1], id);
      CallLeavesOthers(before, cap, last.op, last.now);
    }
    CountDrop(m, id, IsActive);
    CountDrop(after, id, IsActive);
  }

  /** A call leaves all nodes but its own alone. */
  lemma CallLeavesOthers(m: NodeMap, cap: int, op: NodeOp, now: int)
    ensures After(m, cap, op, now) - {op.id} == m - {op.id}
  {
  }
}
