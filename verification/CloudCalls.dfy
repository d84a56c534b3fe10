/**
 * The create and destroy calls a goroutine makes, and what they leave of the cloud: the calls of the
 * operations are those of the steps, one for one.
 */
module CloudCalls {
  import opened Common
  import opened Nodes
  import opened Scaling
  import opened Interleaving
  import opened Solo
  import Operations

  datatype Call = Creates(id: int) | Destroys(id: int, ok: bool)

  /** The call a step makes, if any. */
  function CallsIn(e: Effect): seq<Call> {
    (if e.born.Some? then [Creates(e.born.value)] else [])
    + (if e.died.Some? then [Destroys(e.died.value, true)] else [])
    + (if e.failed.Some? then [Destroys(e.failed.value, false)] else [])
  }

  /** The calls of a goroutine alone, until it ends or hands over to a waiter. */
  ghost function Calls(cfg: Config, l: Local, t: Task, a: Task -> Answer): seq<Call>
    decreases Left(t)
  {
    var e := EffectOn(cfg, l, t, a(t));
    LeftFalls(cfg, START.(nodes := l.nodes, lastEvent := l.lastEvent, clock := l.now), t, a(t));
    CallsIn(e)
    + if e.next.Some? && !e.next.value.WaitPoll? then Calls(cfg, Step(cfg, l, e), e.next.value, a) else []
  }

  function LiveAfter(live: set<int>, calls: seq<Call>): set<int>
    decreases |calls|
  {
    if calls == [] then live
    else
      match calls[0]
      case Creates(id) => LiveAfter(live + {id}, calls[1..])
      case Destroys(id, ok) => LiveAfter(if ok then live - {id} else live, calls[1..])
  }

  function FailedAfter(failed: set<int>, calls: seq<Call>): set<int>
    decreases |calls|
  {
    if calls == [] then failed
    else
      match calls[0]
      case Creates(_) => FailedAfter(failed, calls[1..])
      case Destroys(id, ok) => FailedAfter(if ok then failed else failed + {id}, calls[1..])
  }

  /** The ids of the destroy calls, in order. */
  function Destroyed(calls: seq<Call>): seq<int> {
    if calls == [] then []
    else (if calls[0].Destroys? then [calls[0].id] else []) + Destroyed(calls[1..])
  }

  // -------------------------------------------------------------- the calls are what happens to the cloud

  lemma OneCallAtMost(cfg: Config, s: Sys, t: Task, a: Answer)
    ensures |CallsIn(TaskEffect(cfg, s, t, a))| <= 1
  {
  }

  lemma StepCalls(cfg: Config, s: Sys, tid: nat, e: Effect, more: seq<Call>)
    requires |CallsIn(e)| <= 1
    ensures var s' := ApplyEffect(cfg, s, tid, e);
            && LiveAfter(s.live, CallsIn(e) + more) == LiveAfter(s'.live, more)
            && FailedAfter(s.failed, CallsIn(e) + more) == FailedAfter(s'.failed, more)
  {
    var s' := ApplyEffect(cfg, s, tid, e);
    if CallsIn(e) == [] {
      assert CallsIn(e) + more == more;
      assert s'.live == s.live && s'.failed == s.failed;
    } else {
      assert (CallsIn(e) + more)[1..] == more;
      assert s'.live == match CallsIn(e)[0] {
        case Creates(id) => s.live + {id}
        case Destroys(id, ok) => if ok then s.live - {id} else s.live
      };
      assert s'.failed == match CallsIn(e)[0] {
        case Creates(_) => s.failed
        case Destroys(id, ok) => if ok then s.failed else s.failed + {id}
      };
    }
  }

  /** A goroutine alone leaves exactly the instances, and the failed destroys, that its calls make. */
  lemma {:induction false} RunAloneCalls(cfg: Config, s: Sys, tid: nat, a: Task -> Answer)
    requires tid in s.tasks
    ensures var s', calls := RunAlone(cfg, s, tid, a), Calls(cfg, LocalOf(s), s.tasks[tid], a);
            s'.live == LiveAfter(s.live, calls) && s'.failed == FailedAfter(s.failed, calls)
    decreases Left(s.tasks[tid])
  {
    var t := s.tasks[tid];
    var e := TaskEffect(cfg, s, t, a(t));
    var s1 := ApplyEffect(cfg, s, tid, e);
    EffectIsLocal(cfg, s, t, a(t));
    StepIsLocal(cfg, s, tid, e);
    LeftFalls(cfg, s, t, a(t));
    OneCallAtMost(cfg, s, t, a(t));
    if e.next.Some? && !e.next.value.WaitPoll? {
      RunAloneCalls(cfg, s1, tid, a);
      StepCalls(cfg, s, tid, e, Calls(cfg, LocalOf(s1), e.next.value, a));
    } else {
      StepCalls(cfg, s, tid, e, []);
    }
  }

  /** A step that goes on without a call. */
  lemma CallsNext(cfg: Config, l: Local, t: Task, a: Task -> Answer, l1: Local, next: Task)
    requires var e := EffectOn(cfg, l, t, a(t));
             e.next == Some(next) && !next.WaitPoll? && CallsIn(e) == [] && Step(cfg, l, e) == l1
    ensures Calls(cfg, l, t, a) == Calls(cfg, l1, next, a)
  {
  }

  // -------------------------------------------------------------- waiters

  lemma GivesUpCalls(cfg: Config, l: Local, id: int, a: Task -> Answer)
    ensures Calls(cfg, l, WaitFail(id), a) == [Destroys(id, a(WaitDestroy(id)).ok)]
  {
    var l1 := Step(cfg, l, EffectOn(cfg, l, WaitFail(id), a(WaitFail(id))));
    CallsNext(cfg, l, WaitFail(id), a, l1, WaitDestroy(id));
    assert Calls(cfg, l1, WaitRemove(id), a) == [];
  }

  lemma ComesUpCalls(cfg: Config, l: Local, id: int, ip: string, a: Task -> Answer)
    ensures Calls(cfg, l, WaitAddress(id, ip), a) == []
  {
    var e := EffectOn(cfg, l, WaitAddress(id, ip), a(WaitAddress(id, ip)));
    if e.next.Some? {
      CallsNext(cfg, l, WaitAddress(id, ip), a, Step(cfg, l, e), WaitReady(id));
    }
  }

  /** A waiter makes one call if its node does not come up, to destroy it, and none otherwise. */
  lemma WaiterCalls(cfg: Config, l: Local, id: int, a: Task -> Answer)
    ensures Calls(cfg, l, WaitPoll(id), a) ==
              if a(WaitPoll(id)).ok then [] else [Destroys(id, a(WaitDestroy(id)).ok)]
  {
    if a(WaitPoll(id)).ok {
      CallsNext(cfg, l, WaitPoll(id), a, l, WaitAddress(id, a(WaitPoll(id)).text));
      ComesUpCalls(cfg, l, id, a(WaitPoll(id)).text, a);
    } else {
      CallsNext(cfg, l, WaitPoll(id), a, l, WaitFail(id));
      GivesUpCalls(cfg, l, id, a);
    }
  }

  /** The operation reports exactly those destroy calls. */
  lemma WaiterDestroys(cfg: Config, l: Local, id: int, a: Task -> Answer)
    ensures var got := a(WaitPoll(id));
            var outcome := if got.ok then Operations.CameUp(got.text) else Operations.NeverCameUp;
            Destroyed(Calls(cfg, l, WaitPoll(id), a)) == Operations.WaitDestroys(id, outcome)
  {
    WaiterCalls(cfg, l, id, a);
    DestroyedAre(id, a(WaitDestroy(id)).ok);
  }

  /**
   * So a waiter alone that gives up leaves its instance dead, or known to have resisted a destroy
   * call; and one whose node came up destroys nothing.
   */
  lemma GivenUpIsAccountedFor(cfg: Config, s: Sys, tid: nat, a: Task -> Answer, id: int)
    requires tid in s.tasks && s.tasks[tid] == WaitPoll(id)
    ensures var s' := RunAlone(cfg, s, tid, a);
            && (!a(WaitPoll(id)).ok ==> id !in s'.nodes && (id !in s'.live || id in s'.failed))
            && (!a(WaitPoll(id)).ok ==> s'.live == if a(WaitDestroy(id)).ok then s.live - {id} else s.live)
            && (a(WaitPoll(id)).ok ==> s'.live == s.live && s'.failed == s.failed)
  {
    RunAloneCalls(cfg, s, tid, a);
    WaiterCalls(cfg, LocalOf(s), id, a);
    if !a(WaitPoll(id)).ok {
      OneCall(s.live, s.failed, Destroys(id, a(WaitDestroy(id)).ok));
      GivenUpIsUntracked(cfg, s, tid, a, id);
    }
  }

  lemma GivenUpIsUntracked(cfg: Config, s: Sys, tid: nat, a: Task -> Answer, id: int)
    requires tid in s.tasks && s.tasks[tid] == WaitPoll(id) && !a(WaitPoll(id)).ok
    ensures id !in RunAlone(cfg, s, tid, a).nodes
  {
    RunAloneIs(cfg, s, tid, a);
    SoloWaiter(cfg, View(s), s.clock, id, a);
    Operations.GivenUpEffect(cfg, View(s), id, s.clock, false);
  }

  lemma OneCall(live: set<int>, failed: set<int>, c: Call)
    ensures LiveAfter(live, [c]) ==
              if c.Creates? then live + {c.id} else if c.ok then live - {c.id} else live
    ensures FailedAfter(failed, [c]) == if c.Destroys? && !c.ok then failed + {c.id} else failed
  {
    assert [c][1..] == [];
  }

  // -------------------------------------------------------------- scaling up and down

  lemma TrackCalls(cfg: Config, l: Local, id: int, a: Task -> Answer)
    ensures Calls(cfg, l, UpTrack(id), a) ==
              if |l.nodes| < cfg.maxNodes && id !in l.nodes then [] else [Destroys(id, a(UpUndo(id)).ok)]
  {
    var e := EffectOn(cfg, l, UpTrack(id), a(UpTrack(id)));
    CallsNext(cfg, l, UpTrack(id), a, Step(cfg, l, e), e.next.value);
  }

  /**
   * A ScaleUp alone creates nothing at the cap and nothing when the cloud refuses; otherwise it
   * creates one instance, and destroys it again exactly when the table does not take it.
   */
  lemma ScaleUpCalls(cfg: Config, c: Operations.Control, now: int, a: Task -> Answer)
    ensures var got, calls := a(UpCreate), Calls(cfg, LocalView(c, now), UpStart, a);
            calls ==
              if ActiveCount(c.nodes) >= cfg.maxNodes || !got.ok then []
              else if |c.nodes| < cfg.maxNodes && got.id !in c.nodes then [Creates(got.id)]
              else [Creates(got.id), Destroys(got.id, a(UpUndo(got.id)).ok)]
  {
    var l, got := LocalView(c, now), a(UpCreate);
    if ActiveCount(c.nodes) < cfg.maxNodes {
      CallsNext(cfg, l, UpStart, a, l, UpCreate);
      if got.ok {
        CreateCalls(cfg, l, a);
        TrackCalls(cfg, l, got.id, a);
      }
    }
  }

  lemma CreateCalls(cfg: Config, l: Local, a: Task -> Answer)
    requires a(UpCreate).ok
    ensures Calls(cfg, l, UpCreate, a) == [Creates(a(UpCreate).id)] + Calls(cfg, l, UpTrack(a(UpCreate).id), a)
  {
  }

  /** The operation reports exactly those destroy calls. */
  lemma ScaleUpDestroys(cfg: Config, c: Operations.Control, now: int, a: Task -> Answer)
    ensures var got, calls := a(UpCreate), Calls(cfg, LocalView(c, now), UpStart, a);
            Destroyed(calls) == Operations.ScaleUp(cfg, c, Created(got), a(UpTrack(got.id)).text, now).destroyed
  {
    ScaleUpCalls(cfg, c, now, a);
    var got := a(UpCreate);
    Operations.ScaleUpIsAllOrNothing(cfg, c, Created(got), a(UpTrack(got.id)).text, now);
    DestroyedAre(got.id, a(UpUndo(got.id)).ok);
  }

  lemma DestroyedAre(id: int, ok: bool)
    ensures Destroyed([]) == [] && Destroyed([Creates(id)]) == []
    ensures Destroyed([Destroys(id, ok)]) == [id] && Destroyed([Creates(id), Destroys(id, ok)]) == [id]
  {
    assert [Creates(id)][1..] == [] && [Destroys(id, ok)][1..] == [];
    assert [Creates(id), Destroys(id, ok)][1..] == [Destroys(id, ok)];
    assert Destroyed([Destroys(id, ok)]) == [id] + Destroyed([]);
  }

  lemma CallCalls(cfg: Config, l: Local, id: int, a: Task -> Answer)
    ensures Calls(cfg, l, DownCall(id), a) == [Destroys(id, a(DownCall(id)).ok)]
  {
    if a(DownCall(id)).ok {
      DestroyedCalls(cfg, l, id, a);
      RemoveCalls(cfg, l, id, a);
    } else {
      RefusedCalls(cfg, l, id, a);
    }
  }

  lemma DestroyedCalls(cfg: Config, l: Local, id: int, a: Task -> Answer)
    requires a(DownCall(id)).ok
    ensures Calls(cfg, l, DownCall(id), a) == [Destroys(id, true)] + Calls(cfg, l, DownRemove(id), a)
  {
  }

  lemma RefusedCalls(cfg: Config, l: Local, id: int, a: Task -> Answer)
    requires !a(DownCall(id)).ok
    ensures Calls(cfg, l, DownCall(id), a) == [Destroys(id, false)]
  {
  }

  lemma RemoveCalls(cfg: Config, l: Local, id: int, a: Task -> Answer)
    ensures Calls(cfg, l, DownRemove(id), a) == []
  {
    var l1 := l.(nodes := l.nodes - {id});
    RemoveStep(cfg, l, id, a(DownRemove(id)));
    CallsNext(cfg, l, DownRemove(id), a, l1, DownRecord(id));
    RecordCalls(cfg, l1, id, a);
  }

  lemma RecordCalls(cfg: Config, l: Local, id: int, a: Task -> Answer)
    ensures Calls(cfg, l, DownRecord(id), a) == []
  {
  }

  lemma DrainCalls(cfg: Config, l: Local, id: int, a: Task -> Answer)
    ensures Calls(cfg, l, DownDrain(id), a) ==
              if id in l.nodes && l.nodes[id].state in {Ready, Draining} then [Destroys(id, a(DownCall(id)).ok)] else []
  {
    var draining := Try(l.nodes, cfg.maxNodes, TransitionNode(id, Draining), l.now);
    if draining.Some? {
      var l1 := l.(nodes := draining.value);
      CallsNext(cfg, l, DownDrain(id), a, l1, DownDestroy(id));
      DestroyingCalls(cfg, l1, id, a);
    }
  }

  lemma DestroyingCalls(cfg: Config, l: Local, id: int, a: Task -> Answer)
    requires id in l.nodes && l.nodes[id].state == Draining
    ensures Calls(cfg, l, DownDestroy(id), a) == [Destroys(id, a(DownCall(id)).ok)]
  {
    var l1 := Step(cfg, l, EffectOn(cfg, l, DownDestroy(id), a(DownDestroy(id))));
    CallsNext(cfg, l, DownDestroy(id), a, l1, DownCall(id));
    CallCalls(cfg, l1, id, a);
  }

  /** Past its checks a ScaleDown makes the calls of its transitions. */
  lemma CheckCalls(cfg: Config, c: Operations.Control, now: int, id: int, a: Task -> Answer)
    requires id in c.nodes ==> a(DownLock(id)).ok == !c.nodes[id].drainLocked
    ensures var l := LocalView(c, now);
            Calls(cfg, l, DownFind(id), a) ==
              if Operations.BlockedBy(cfg, c, id, now).Some? then [] else Calls(cfg, l, DownDrain(id), a)
  {
    var l := LocalView(c, now);
    if id in c.nodes {
      CallsNext(cfg, l, DownFind(id), a, l, DownLock(id));
      if !c.nodes[id].drainLocked {
        CallsNext(cfg, l, DownLock(id), a, l, DownCool(id));
        LimitCalls(cfg, l, id, a);
      }
    }
  }

  lemma LimitCalls(cfg: Config, l: Local, id: int, a: Task -> Answer)
    ensures Calls(cfg, l, DownCool(id), a) ==
              if CanScale(cfg, l.lastEvent, l.now) && ActiveCount(l.nodes) > cfg.minNodes
              then Calls(cfg, l, DownDrain(id), a)
              else []
  {
    if CanScale(cfg, l.lastEvent, l.now) {
      CallsNext(cfg, l, DownCool(id), a, l, DownFloor(id));
      if ActiveCount(l.nodes) > cfg.minNodes {
        CallsNext(cfg, l, DownFloor(id), a, l, DownDrain(id));
      }
    }
  }

  /** A ScaleDown alone makes one destroy call, for its node, exactly when the operation reports one. */
  lemma ScaleDownDestroys(cfg: Config, c: Operations.Control, now: int, id: int, a: Task -> Answer)
    requires id in c.nodes ==> a(DownLock(id)).ok == !c.nodes[id].drainLocked
    ensures var r := Operations.ScaleDown(cfg, c, id, now, a(DownCall(id)).ok, now, false);
            Destroyed(Calls(cfg, LocalView(c, now), DownFind(id), a)) == Operations.DownDestroys(id, r.outcome)
  {
    CheckCalls(cfg, c, now, id, a);
    DrainCalls(cfg, LocalView(c, now), id, a);
    DestroyedAre(id, a(DownCall(id)).ok);
    Operations.ScaleDownEffect(cfg, c, id, now, a(DownCall(id)).ok, now, false);
  }
}
