/**
 * The two views of the orchestrator are one: the steps of the transition system, taken by one
 * goroutine or one tick without interference, add up to the operations run to completion.
 */
module Solo {
  import opened Common
  import opened Nodes
  import opened Scaling
  import opened Reconciliation
  import opened Interleaving
  import Operations

  /** What the sequential view sees of a state; the target file is not part of the transition system. */
  ghost function View(s: Sys): Operations.Control {
    Operations.Control(s.nodes, s.lastEvent, s.upSince, s.downSince, multiset{})
  }

  /** The same state but for the target file. */
  ghost predicate Shows(s: Sys, c: Operations.Control) {
    s.nodes == c.nodes && s.lastEvent == c.lastEvent && s.upSince == c.upSince && s.downSince == c.downSince
  }

  // -------------------------------------------------------------- goroutines

  /** Steps left at most. */
  function Left(t: Task): nat {
    match t
    case UpStart => 5
    case UpCreate => 4
    case UpTrack(_) => 3
    case UpUndo(_) => 1
    case UpRecord(_) => 1
    case WaitPoll(_) => 4
    case WaitAddress(_, _) => 2
    case WaitReady(_) => 1
    case WaitFail(_) => 3
    case WaitDestroy(_) => 2
    case WaitRemove(_) => 1
    case DownFind(_) => 9
    case DownLock(_) => 8
    case DownCool(_) => 7
    case DownFloor(_) => 6
    case DownDrain(_) => 5
    case DownDestroy(_) => 4
    case DownCall(_) => 3
    case DownRemove(_) => 2
    case DownRecord(_) => 1
  }

  lemma LeftFalls(cfg: Config, s: Sys, t: Task, a: Answer)
    ensures var next := TaskEffect(cfg, s, t, a).next;
            next.Some? && !next.value.WaitPoll? ==> Left(next.value) < Left(t)
  {
  }

  /** All a goroutine sees of the system. */
  datatype Local = Local(nodes: NodeMap, lastEvent: Option<int>, now: int)

  function LocalOf(s: Sys): Local {
    Local(s.nodes, s.lastEvent, s.clock)
  }

  ghost function EffectOn(cfg: Config, l: Local, t: Task, a: Answer): Effect {
    TaskEffect(cfg, START.(nodes := l.nodes, lastEvent := l.lastEvent, clock := l.now), t, a)
  }

  ghost function Step(cfg: Config, l: Local, e: Effect): Local {
    Local(if e.op.Some? then After(l.nodes, cfg.maxNodes, e.op.value, l.now) else l.nodes,
          if e.record then Some(l.now) else l.lastEvent, l.now)
  }

  /** A goroutine alone, until it ends or hands over to a waiter; `a` answers each of its steps. */
  ghost function Finish(cfg: Config, l: Local, t: Task, a: Task -> Answer): (Local, Option<Task>)
    decreases Left(t)
  {
    var e := EffectOn(cfg, l, t, a(t));
    LeftFalls(cfg, START.(nodes := l.nodes, lastEvent := l.lastEvent, clock := l.now), t, a(t));
    if e.next.Some? && !e.next.value.WaitPoll? then Finish(cfg, Step(cfg, l, e), e.next.value, a)
    else (Step(cfg, l, e), e.next)
  }

  /** The same in the transition system: the goroutine takes step after step, and nothing else runs. */
  ghost function RunAlone(cfg: Config, s: Sys, tid: nat, a: Task -> Answer): Sys
    requires tid in s.tasks
    decreases Left(s.tasks[tid])
  {
    var e := TaskEffect(cfg, s, s.tasks[tid], a(s.tasks[tid]));
    LeftFalls(cfg, s, s.tasks[tid], a(s.tasks[tid]));
    var s' := ApplyEffect(cfg, s, tid, e);
    if e.next.Some? && !e.next.value.WaitPoll? then RunAlone(cfg, s', tid, a) else s'
  }

  lemma EffectIsLocal(cfg: Config, s: Sys, t: Task, a: Answer)
    ensures TaskEffect(cfg, s, t, a) == EffectOn(cfg, LocalOf(s), t, a)
  {
  }

  /** The monitor loop and its timers are where they were, and no id is forgotten. */
  ghost predicate SameElsewhere(s: Sys, s': Sys) {
    s'.mon == s.mon && s'.upSince == s.upSince && s'.downSince == s.downSince && s'.obs == s.obs && s.used <= s'.used
  }

  lemma StepIsLocal(cfg: Config, s: Sys, tid: nat, e: Effect)
    requires tid in s.tasks
    ensures var s' := ApplyEffect(cfg, s, tid, e);
            && LocalOf(s') == Step(cfg, LocalOf(s), e) && SameElsewhere(s, s')
            && s'.tasks - {tid} == s.tasks - {tid} && (tid in s'.tasks <==> e.next.Some?)
            && (e.next.Some? ==> s'.tasks[tid] == e.next.value)
  {
  }

  /** A goroutine alone changes the system by what `Finish` says, and nothing else in it but its own place. */
  lemma {:induction false} RunAloneIs(cfg: Config, s: Sys, tid: nat, a: Task -> Answer)
    requires tid in s.tasks
    ensures var s', (l, next) := RunAlone(cfg, s, tid, a), Finish(cfg, LocalOf(s), s.tasks[tid], a);
            && LocalOf(s') == l && SameElsewhere(s, s')
            && s'.tasks - {tid} == s.tasks - {tid} && (tid in s'.tasks <==> next.Some?)
            && (next.Some? ==> s'.tasks[tid] == next.value)
    decreases Left(s.tasks[tid])
  {
    var t := s.tasks[tid];
    var e := TaskEffect(cfg, s, t, a(t));
    EffectIsLocal(cfg, s, t, a(t));
    StepIsLocal(cfg, s, tid, e);
    LeftFalls(cfg, s, t, a(t));
    if e.next.Some? && !e.next.value.WaitPoll? {
      RunAloneIs(cfg, ApplyEffect(cfg, s, tid, e), tid, a);
    }
  }

  function Created(a: Answer): Option<int> {
    if a.ok then Some(a.id) else None
  }

  function LocalView(c: Operations.Control, now: int): Local {
    Local(c.nodes, c.lastEvent, now)
  }

  lemma SoloTrack(cfg: Config, l: Local, id: int, a: Task -> Answer)
    ensures var added := Try(l.nodes, cfg.maxNodes, AddNode(id, a(UpTrack(id)).text), l.now);
            Finish(cfg, l, UpTrack(id), a) ==
              if added.Some? then (Local(added.value, Some(l.now), l.now), Some(WaitPoll(id))) else (l, None)
  {
    var e := EffectOn(cfg, l, UpTrack(id), a(UpTrack(id)));
    assert Finish(cfg, l, UpTrack(id), a) == Finish(cfg, Step(cfg, l, e), e.next.value, a);
  }

  /** A ScaleUp alone does what the operation does, and leaves a waiter for the node it tracked. */
  lemma SoloScaleUp(cfg: Config, c: Operations.Control, now: int, a: Task -> Answer)
    ensures var got := a(UpCreate);
            var r := Operations.ScaleUp(cfg, c, Created(got), a(UpTrack(got.id)).text, now);
            Finish(cfg, LocalView(c, now), UpStart, a) ==
              (LocalView(r.after, now), if r.outcome.Added? then Some(WaitPoll(got.id)) else None)
  {
    var l := LocalView(c, now);
    if ActiveCount(c.nodes) < cfg.maxNodes {
      assert Finish(cfg, l, UpStart, a) == Finish(cfg, l, UpCreate, a);
      if a(UpCreate).ok {
        assert Finish(cfg, l, UpCreate, a) == Finish(cfg, l, UpTrack(a(UpCreate).id), a);
        SoloTrack(cfg, l, a(UpCreate).id, a);
      }
    }
  }

  lemma SoloAddress(cfg: Config, c: Operations.Control, now: int, id: int, ip: string, a: Task -> Answer)
    ensures Finish(cfg, LocalView(c, now), WaitAddress(id, ip), a) ==
              (LocalView(Operations.WaitForNodeReady(cfg, c, id, Operations.CameUp(ip), now, false), now), None)
  {
    var l := LocalView(c, now);
    var e := EffectOn(cfg, l, WaitAddress(id, ip), a(WaitAddress(id, ip)));
    if e.next.Some? {
      assert Finish(cfg, l, WaitAddress(id, ip), a) == Finish(cfg, Step(cfg, l, e), WaitReady(id), a);
    }
  }

  lemma SoloFail(cfg: Config, c: Operations.Control, now: int, id: int, a: Task -> Answer)
    ensures Finish(cfg, LocalView(c, now), WaitFail(id), a) ==
              (LocalView(Operations.WaitForNodeReady(cfg, c, id, Operations.NeverCameUp, now, false), now), None)
  {
    var l := LocalView(c, now);
    var e := EffectOn(cfg, l, WaitFail(id), a(WaitFail(id)));
    var l1 := Step(cfg, l, e);
    assert Finish(cfg, l, WaitFail(id), a) == Finish(cfg, l1, WaitDestroy(id), a);
    assert Finish(cfg, l1, WaitDestroy(id), a) == Finish(cfg, l1, WaitRemove(id), a);
  }

  /** A waiter alone does what the operation does. */
  lemma SoloWaiter(cfg: Config, c: Operations.Control, now: int, id: int, a: Task -> Answer)
    ensures var got := a(WaitPoll(id));
            var outcome := if got.ok then Operations.CameUp(got.text) else Operations.NeverCameUp;
            Finish(cfg, LocalView(c, now), WaitPoll(id), a) ==
              (LocalView(Operations.WaitForNodeReady(cfg, c, id, outcome, now, false), now), None)
  {
    var l, got := LocalView(c, now), a(WaitPoll(id));
    if got.ok {
      assert Finish(cfg, l, WaitPoll(id), a) == Finish(cfg, l, WaitAddress(id, got.text), a);
      SoloAddress(cfg, c, now, id, got.text, a);
    } else {
      assert Finish(cfg, l, WaitPoll(id), a) == Finish(cfg, l, WaitFail(id), a);
      SoloFail(cfg, c, now, id, a);
    }
  }

  /** From the destroy call on. */
  lemma {:induction false} SoloCall(cfg: Config, l: Local, id: int, a: Task -> Answer)
    ensures Finish(cfg, l, DownCall(id), a) ==
              (if a(DownCall(id)).ok then Local(l.nodes - {id}, Some(l.now), l.now) else l, None)
  {
    if a(DownCall(id)).ok {
      assert Finish(cfg, l, DownCall(id), a) == Finish(cfg, l, DownRemove(id), a);
      SoloRemove(cfg, l, id, a);
    }
  }

  lemma SoloRemove(cfg: Config, l: Local, id: int, a: Task -> Answer)
    ensures Finish(cfg, l, DownRemove(id), a) == (Local(l.nodes - {id}, Some(l.now), l.now), None)
  {
    var l1 := l.(nodes := l.nodes - {id});
    RemoveStep(cfg, l, id, a(DownRemove(id)));
    FinishNext(cfg, l, DownRemove(id), a, l1, DownRecord(id));
    SoloRecord(cfg, l1, id, a);
  }

  lemma RemoveStep(cfg: Config, l: Local, id: int, a: Answer)
    ensures var e := EffectOn(cfg, l, DownRemove(id), a);
            e.next == Some(DownRecord(id)) && Step(cfg, l, e) == l.(nodes := l.nodes - {id})
  {
  }

  lemma FinishNext(cfg: Config, l: Local, t: Task, a: Task -> Answer, l1: Local, next: Task)
    requires EffectOn(cfg, l, t, a(t)).next == Some(next) && !next.WaitPoll?
    requires Step(cfg, l, EffectOn(cfg, l, t, a(t))) == l1
    ensures Finish(cfg, l, t, a) == Finish(cfg, l1, next, a)
  {
  }

  lemma SoloRecord(cfg: Config, l: Local, id: int, a: Task -> Answer)
    ensures Finish(cfg, l, DownRecord(id), a) == (l.(lastEvent := Some(l.now)), None)
  {
  }

  /** From the first transition on. */
  lemma SoloDrain(cfg: Config, l: Local, id: int, a: Task -> Answer)
    ensures var drained := Operations.Drained(cfg, l.nodes, id, l.now);
            Finish(cfg, l, DownDrain(id), a) ==
              if drained == None then (l, None) else Finish(cfg, l.(nodes := drained.value), DownCall(id), a)
  {
    var draining := Try(l.nodes, cfg.maxNodes, TransitionNode(id, Draining), l.now);
    if draining.Some? {
      var l1 := l.(nodes := draining.value);
      FinishNext(cfg, l, DownDrain(id), a, l1, DownDestroy(id));
      SoloDestroy(cfg, l1, id, a);
    }
  }

  lemma SoloDestroy(cfg: Config, l: Local, id: int, a: Task -> Answer)
    requires id in l.nodes && l.nodes[id].state == Draining
    ensures var destroying := Try(l.nodes, cfg.maxNodes, TransitionNode(id, Destroying), l.now);
            destroying.Some? && Finish(cfg, l, DownDestroy(id), a)
                == Finish(cfg, l.(nodes := destroying.value), DownCall(id), a)
  {
    var destroying := Try(l.nodes, cfg.maxNodes, TransitionNode(id, Destroying), l.now);
    FinishNext(cfg, l, DownDestroy(id), a, l.(nodes := destroying.value), DownCall(id));
  }

  /** The checks pass one by one exactly when the operation finds nothing that blocks it. */
  lemma {:induction false} SoloChecks(cfg: Config, c: Operations.Control, now: int, id: int, a: Task -> Answer)
    requires id in c.nodes ==> a(DownLock(id)).ok == !c.nodes[id].drainLocked
    ensures var l := LocalView(c, now);
            Finish(cfg, l, DownFind(id), a) ==
              if Operations.BlockedBy(cfg, c, id, now).Some? then (l, None) else Finish(cfg, l, DownDrain(id), a)
  {
    var l := LocalView(c, now);
    if id in c.nodes {
      assert Finish(cfg, l, DownFind(id), a) == Finish(cfg, l, DownLock(id), a);
      if !c.nodes[id].drainLocked {
        assert Finish(cfg, l, DownLock(id), a) == Finish(cfg, l, DownCool(id), a);
        SoloLimits(cfg, l, id, a);
      }
    }
  }

  lemma SoloLimits(cfg: Config, l: Local, id: int, a: Task -> Answer)
    ensures Finish(cfg, l, DownCool(id), a) ==
              if CanScale(cfg, l.lastEvent, l.now) && ActiveCount(l.nodes) > cfg.minNodes
              then Finish(cfg, l, DownDrain(id), a)
              else (l, None)
  {
    if CanScale(cfg, l.lastEvent, l.now) {
      assert Finish(cfg, l, DownCool(id), a) == Finish(cfg, l, DownFloor(id), a);
    }
  }

  /** A ScaleDown alone, reading the drain lock as it is, does what the operation does. */
  lemma SoloScaleDown(cfg: Config, c: Operations.Control, now: int, id: int, a: Task -> Answer)
    requires id in c.nodes ==> a(DownLock(id)).ok == !c.nodes[id].drainLocked
    ensures Finish(cfg, LocalView(c, now), DownFind(id), a) ==
              (LocalView(Operations.ScaleDown(cfg, c, id, now, a(DownCall(id)).ok, now, false).after, now), None)
  {
    SoloChecks(cfg, c, now, id, a);
    SoloDrain(cfg, LocalView(c, now), id, a);
    var drained := Operations.Drained(cfg, c.nodes, id, now);
    if drained.Some? {
      SoloCall(cfg, Local(drained.value, c.lastEvent, now), id, a);
    }
  }

  // -------------------------------------------------------------- a tick

  function StepsInEntry(stage: Stage): nat {
    match stage
    case Look => 3
    case Add => 2
    case Address => 1
    case Promote => 0
  }

  /** What the unlocked comparisons of the merge loop find when nothing else runs. */
  ghost predicate Differs(s: Sys)
    requires s.mon.Merging? && s.mon.rest != []
  {
    var cn := s.mon.rest[0];
    cn.id in s.nodes && if s.mon.stage == Address then s.nodes[cn.id].ipv4 != cn.ipv4
        else s.nodes[cn.id].state == Provisioning
  }

  /** The merge loop alone, to the end of the listing. */
  ghost function MergeAll(cfg: Config, s: Sys): (r: Sys)
    requires s.mon.Merging?
    ensures r.mon.Merging? && r.mon.rest == []
    decreases |s.mon.rest|, StepsInEntry(s.mon.stage)
  {
    if s.mon.rest == [] then s else MergeAll(cfg, Apply(cfg, s, Merge(Differs(s))))
  }

  /** The steps for one listing entry are one merge step of the operation. */
  lemma EntrySteps(cfg: Config, s: Sys)
    requires s.mon.Merging? && s.mon.rest != [] && s.mon.stage == Look
    ensures var cn := s.mon.rest[0];
            MergeAll(cfg, s) == MergeAll(cfg, s.(nodes := MergeOne(s.nodes, cfg.maxNodes, cn, s.clock),
                                                 mon := Merging(s.mon.rest[1..], s.mon.seen + {cn.id}, Look)))
  {
    var cn := s.mon.rest[0];
    var s1 := Apply(cfg, s, Merge(Differs(s)));
    if cn.id in s.nodes {
      ObserveSteps(cfg, s1);
    } else {
      var s2 := Apply(cfg, s1, Merge(Differs(s1)));
      if s2.mon.stage == Address {
        AddThenObserve(s.nodes, cfg.maxNodes, cn, s.clock, s2.nodes);
        ObserveSteps(cfg, s2);
      }
    }
  }

  lemma ObserveSteps(cfg: Config, s: Sys)
    requires s.mon.Merging? && s.mon.rest != [] && s.mon.stage == Address && s.mon.rest[0].id in s.nodes
    ensures var cn := s.mon.rest[0];
            MergeAll(cfg, s) == MergeAll(cfg, s.(nodes := s.nodes[cn.id := Observed(s.nodes[cn.id], cn, s.clock)],
                                                 mon := Merging(s.mon.rest[1..], s.mon.seen, Look)))
  {
    var cn := s.mon.rest[0];
    var s1 := Apply(cfg, s, Merge(Differs(s)));
    assert s1.nodes == s.nodes[cn.id := if cn.ipv4 != "" then s.nodes[cn.id].(ipv4 := cn.ipv4) else s.nodes[cn.id]];
    var s2 := Apply(cfg, s1, Merge(Differs(s1)));
    assert s2.nodes == s.nodes[cn.id := Observed(s.nodes[cn.id], cn, s.clock)];
  }

  /** The merge loop alone computes the merge, here from the k-th entry on. */
  lemma {:induction false} MergeAllIs(cfg: Config, s: Sys, m: NodeMap, listing: seq<CloudNode>, k: nat)
    requires k <= |listing| && s.mon == Merging(listing[k..], Ids(listing[..k]), Look)
    requires s.nodes == Reconciliation.Merge(m, cfg.maxNodes, listing[..k], s.clock)
    ensures MergeAll(cfg, s) == s.(nodes := Reconciliation.Merge(m, cfg.maxNodes, listing, s.clock),
                                   mon := Merging([], Ids(listing), Look))
    decreases |listing| - k
  {
    if k == |listing| {
      assert listing[..k] == listing;
    } else {
      EntrySteps(cfg, s);
      assert listing[..k + 1][..k] == listing[..k];
      assert listing[k..][1..] == listing[k + 1..];
      IdsOfInit(listing[..k + 1]);
      MergeAllIs(cfg, s.(nodes := MergeOne(s.nodes, cfg.maxNodes, listing[k], s.clock),
                         mon := Merging(listing[k + 1..], Ids(listing[..k + 1]), Look)), m, listing, k + 1);
    }
  }

  /** An order in which the removal loop may visit the nodes left to visit. */
  ghost predicate Visits(order: seq<int>, todo: set<int>)
    decreases |order|
  {
    if order == [] then todo == {} else order[0] in todo && Visits(order[1..], todo - {order[0]})
  }

  ghost function SweepAll(cfg: Config, s: Sys, order: seq<int>): (r: Sys)
    requires s.mon.Sweeping? && Visits(order, s.mon.todo)
    ensures r.mon.Sweeping? && r.mon.todo == {}
    decreases |order|
  {
    if order == [] then s else SweepAll(cfg, Apply(cfg, s, Sweep(order[0])), order[1..])
  }

  /** The removal loop alone computes the sweep, whatever the order of its visits. */
  lemma {:induction false} SweepAllIs(cfg: Config, s: Sys, m: NodeMap, order: seq<int>)
    requires s.mon.Sweeping? && Visits(order, s.mon.todo) && s.mon.todo <= m.Keys
    requires s.nodes == SweptExcept(m, s.mon.seen, s.mon.todo)
    ensures SweepAll(cfg, s, order) == s.(nodes := Reconciliation.Sweep(m, s.mon.seen), mon := s.mon.(todo := {}))
    decreases |order|
  {
    if order == [] {
      assert SweptExcept(m, s.mon.seen, {}) == Reconciliation.Sweep(m, s.mon.seen);
    } else {
      SweepNext(m, s.mon.seen, s.mon.todo, order[0]);
      SweepAllIs(cfg, Apply(cfg, s, Sweep(order[0])), m, order[1..]);
    }
  }

  /** A reconcile pass alone, from the listing to the evaluation. */
  ghost function Pass(cfg: Config, s: Sys, listing: seq<CloudNode>, order: seq<int>): (r: Sys)
    requires s.mon.Waiting? && Ids(listing) <= s.used
    requires Visits(order, MergeAll(cfg, Apply(cfg, s, List(listing))).nodes.Keys)
    ensures r.mon.Evaluating?
  {
    var merged := MergeAll(cfg, Apply(cfg, s, List(listing)));
    Apply(cfg, SweepAll(cfg, Apply(cfg, merged, MergeDone), order), SweepDone)
  }

  /** A pass alone is the reconcile function, in whatever order it visits the tracked nodes. */
  lemma PassIs(cfg: Config, s: Sys, listing: seq<CloudNode>, order: seq<int>)
    requires s.mon.Waiting? && Ids(listing) <= s.used
    requires Visits(order, MergeAll(cfg, Apply(cfg, s, List(listing))).nodes.Keys)
    ensures Pass(cfg, s, listing, order) ==
              s.(nodes := Reconcile(s.nodes, cfg.maxNodes, listing, s.clock), mon := Evaluating)
  {
    var merged := MergeAll(cfg, Apply(cfg, s, List(listing)));
    MergeFromTheStart(cfg, s, listing);
    SweepFromTheStart(cfg, Apply(cfg, merged, MergeDone), order);
  }

  lemma MergeFromTheStart(cfg: Config, s: Sys, listing: seq<CloudNode>)
    requires s.mon.Waiting? && Ids(listing) <= s.used
    ensures MergeAll(cfg, Apply(cfg, s, List(listing))) ==
              s.(nodes := Reconciliation.Merge(s.nodes, cfg.maxNodes, listing, s.clock),
                  mon := Merging([], Ids(listing), Look))
  {
    assert listing[0..] == listing && listing[..0] == [];
    MergeAllIs(cfg, Apply(cfg, s, List(listing)), s.nodes, listing, 0);
  }

  lemma SweepFromTheStart(cfg: Config, s: Sys, order: seq<int>)
    requires s.mon.Sweeping? && s.mon.todo == s.nodes.Keys && Visits(order, s.mon.todo)
    ensures SweepAll(cfg, s, order) == s.(nodes := Reconciliation.Sweep(s.nodes, s.mon.seen), mon := s.mon.(todo := {}))
  {
    assert SweptExcept(s.nodes, s.mon.seen, s.nodes.Keys) == s.nodes;
    SweepAllIs(cfg, s, s.nodes, order);
  }

  /** A tick alone does what the operation does: same table, same timers, same launches. */
  lemma {:induction false} SoloTick(cfg: Config, s: Sys, listing: seq<CloudNode>, order: seq<int>, pending: int,
                                    up: nat, down: nat)
    requires s.mon.Waiting? && Ids(listing) <= s.used && up !in s.tasks && down !in s.tasks && up != down
    requires Visits(order, MergeAll(cfg, Apply(cfg, s, List(listing))).nodes.Keys)
    ensures Pass(cfg, s, listing, order).tasks == s.tasks
    ensures var s' := Apply(cfg, Pass(cfg, s, listing, order), Evaluate(pending, up, down));
            var t := Operations.MonitorTick(cfg, View(s), Operations.TickInput(Some(listing), pending, s.clock, false));
            && Shows(s', t.after) && s'.mon.Waiting?
            && s'.tasks == Launched(s.tasks, up, down, t)
  {
    var now := s.clock;
    var nodes := Reconcile(s.nodes, cfg.maxNodes, listing, now);
    PassIs(cfg, s, listing, order);
    TickIs(cfg, View(s), listing, pending, now);
    SoloEvaluate(cfg, s.(nodes := nodes, mon := Evaluating), pending, up, down,
                 Operations.MonitorTick(cfg, View(s), Operations.TickInput(Some(listing), pending, now, false)));
  }

  /** The goroutines after a tick: those before it and what it launched. */
  function Launched(tasks: map<nat, Task>, up: nat, down: nat, t: Operations.TickResult): map<nat, Task> {
    var some := if t.up != NoLaunch then tasks[up := UpStart] else tasks;
    if t.down.Some? then some[down := DownFind(t.down.value)] else some
  }

  ghost predicate Decides(cfg: Config, c: Operations.Control, nodes: NodeMap, pending: int, now: int,
                          t: Operations.TickResult) {
    var r := Read(cfg, nodes, c.lastEvent, pending, now);
    && t.after.nodes == nodes && t.after.lastEvent == c.lastEvent
    && UpDecision(t.after.upSince, t.up) == DecideUp(cfg, c.upSince, r)
    && DownDecision(t.after.downSince, t.down) == DecideDown(cfg, c.downSince, r)
  }

  lemma TickIs(cfg: Config, c: Operations.Control, listing: seq<CloudNode>, pending: int, now: int)
    ensures Decides(cfg, c, Reconcile(c.nodes, cfg.maxNodes, listing, now), pending, now,
                    Operations.MonitorTick(cfg, c, Operations.TickInput(Some(listing), pending, now, false)))
  {
  }

  lemma SoloEvaluate(cfg: Config, s: Sys, pending: int, up: nat, down: nat, t: Operations.TickResult)
    requires s.mon.Evaluating? && up !in s.tasks && down !in s.tasks && up != down
    requires Decides(cfg, View(s), s.nodes, pending, s.clock, t)
    ensures var s' := Apply(cfg, s, Evaluate(pending, up, down));
            Shows(s', t.after) && s'.mon.Waiting? && s'.tasks == Launched(s.tasks, up, down, t)
  {
  }
}
