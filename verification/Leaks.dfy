/** Instances that exist but that nothing will ever destroy: when the system loses one, and when it cannot. */
module Leaks {
  import opened Common
  import opened Counting
  import opened Nodes
  import opened Scaling
  import opened Reconciliation
  import opened Interleaving
  import opened SystemInvariants

  // -------------------------------------------------------------- who knows about an instance

  /** A ScaleUp between creating the instance and tracking or destroying it. */
  predicate Holds(t: Task, id: int) {
    t == UpTrack(id) || t == UpUndo(id)
  }

  ghost predicate HeldBy(s: Sys, tid: nat, id: int) {
    tid in s.tasks && Holds(s.tasks[tid], id)
  }

  ghost predicate Held(s: Sys, id: int) {
    exists tid: nat :: HeldBy(s, tid, id)
  }

  /**
   * A live instance that ScaleUp created, and that is neither tracked, held, nor known to have
   * resisted a destroy call.
   */
  ghost predicate Leaked(s: Sys, id: int) {
    id in s.live && id in s.created && id !in s.nodes && id !in s.failed && !Held(s, id)
  }

  ghost predicate NoLeak(s: Sys) {
    forall id :: !Leaked(s, id)
  }

  // -------------------------------------------------------------- ids and removals

  predicate Mentions(t: Task, id: int) {
    t != UpStart && t != UpCreate && t.id == id
  }

  /** Ids in use anywhere have existed, and a task about to untrack an id has dealt with its instance. */
  ghost predicate IdsHold(s: Sys) {
    && s.nodes.Keys <= s.used && s.live <= s.used && s.created <= s.used
    && (s.mon.Merging? ==> Ids(s.mon.rest) <= s.used)
    && forall tid :: tid in s.tasks ==> TaskIdsHold(s, s.tasks[tid])
  }

  ghost predicate TaskIdsHold(s: Sys, t: Task) {
    && (t != UpStart && t != UpCreate ==> t.id in s.used)
    && (t.WaitRemove? ==> t.id !in s.live || t.id in s.failed)
    && (t.DownRemove? ==> t.id !in s.live)
  }

  lemma IdsOfRest(rest: seq<CloudNode>)
    requires rest != []
    ensures rest[0].id in Ids(rest) && Ids(rest[1..]) <= Ids(rest)
  {
  }

  /** Later: more ids have existed, more destroy calls failed, and no id that existed came back to life. */
  ghost predicate Later(s: Sys, s': Sys) {
    s.used <= s'.used && s.failed <= s'.failed && forall id :: id in s.used && id in s'.live ==> id in s.live
  }

  lemma TaskIdsStay(s: Sys, s': Sys, t: Task)
    requires TaskIdsHold(s, t) && Later(s, s')
    ensures TaskIdsHold(s', t)
  {
  }

  lemma TaskStepIsLater(cfg: Config, s: Sys, a: Action)
    requires IdsHold(s) && Enabled(cfg, s, a) && a.Run?
    ensures var s' := Apply(cfg, s, a);
            && Later(s, s') && s'.live <= s'.used && s'.created <= s'.used
  {
  }

  /** A task and its successor are about the same id, which is a fresh one for a task that creates. */
  lemma SuccessorId(cfg: Config, s: Sys, t: Task, a: Answer)
    ensures var e := TaskEffect(cfg, s, t, a);
            && (e.next.Some? && e.next.value != UpCreate ==>
                  e.next.value != UpStart
                  && ((t == UpCreate && e.next.value.id == a.id && e.born == Some(a.id))
                      || (t != UpStart && t != UpCreate && e.next.value.id == t.id)))
            && (e.op.Some? ==> t != UpStart && t != UpCreate && e.op.value.id == t.id)
  {
  }

  /** Only a task whose destroy call was answered goes on to untrack the node. */
  lemma SuccessorRemoves(cfg: Config, s: Sys, t: Task, a: Answer)
    ensures var e := TaskEffect(cfg, s, t, a);
            && (e.next.Some? && e.next.value.WaitRemove? ==>
                  e.died == Some(e.next.value.id) || e.failed == Some(e.next.value.id))
            && (e.next.Some? && e.next.value.DownRemove? ==> e.died == Some(e.next.value.id))
  {
  }

  lemma NextTaskIds(cfg: Config, s: Sys, a: Action)
    requires Enabled(cfg, s, a) && a.Run?
    requires TaskIdsHold(s, s.tasks[a.tid])
    ensures var s', e := Apply(cfg, s, a), TaskEffect(cfg, s, s.tasks[a.tid], a.answer);
            && (e.next.Some? ==> TaskIdsHold(s', e.next.value))
            && (e.op.Some? ==> e.op.value.id in s.used)
  {
    var e := TaskEffect(cfg, s, s.tasks[a.tid], a.answer);
    SuccessorId(cfg, s, s.tasks[a.tid], a.answer);
    SuccessorRemoves(cfg, s, s.tasks[a.tid], a.answer);
    EffectIds(cfg, s, a.tid, e);
  }

  /** An effect's next task holds its id conditions when the effect itself establishes them. */
  lemma EffectIds(cfg: Config, s: Sys, tid: nat, e: Effect)
    requires e.next.Some? && e.next.value != UpStart && e.next.value != UpCreate ==>
      e.next.value.id in s.used || e.born == Some(e.next.value.id)
    requires e.next.Some? && e.next.value.WaitRemove? ==>
      e.died == Some(e.next.value.id) || e.failed == Some(e.next.value.id)
    requires e.next.Some? && e.next.value.DownRemove? ==> e.died == Some(e.next.value.id)
    ensures e.next.Some? ==> TaskIdsHold(ApplyEffect(cfg, s, tid, e), e.next.value)
  {
  }

  lemma {:induction false} TaskStepIds(cfg: Config, s: Sys, a: Action)
    requires IdsHold(s) && Enabled(cfg, s, a) && a.Run?
    ensures IdsHold(Apply(cfg, s, a))
  {
    var s' := Apply(cfg, s, a);
    TaskStepIsLater(cfg, s, a);
    NextTaskIds(cfg, s, a);
    forall tid | tid in s'.tasks ensures TaskIdsHold(s', s'.tasks[tid]) {
      if tid != a.tid {
        TaskIdsStay(s, s', s.tasks[tid]);
      }
    }
    PerformKeys(cfg, s, OpOf(cfg, s, a));
  }

  lemma PerformKeys(cfg: Config, s: Sys, op: Option<NodeOp>)
    ensures Perform(cfg, s, op).Keys <= s.nodes.Keys + if op.Some? then {op.value.id} else {}
  {
  }

  lemma EvaluateStepIds(cfg: Config, s: Sys, a: Action)
    requires IdsHold(s) && Enabled(cfg, s, a) && a.Evaluate?
    ensures IdsHold(Apply(cfg, s, a))
  {
    var r := SysReading(cfg, s, a.pending);
    var d := DecideDown(cfg, s.downSince, r);
    var s' := Apply(cfg, s, a);
    if d.target.Some? {
      assert r.ready != 0;
      assert ReadyIds(s.nodes) != {};
      assert r.target in s.nodes;
    }
    forall tid | tid in s'.tasks ensures TaskIdsHold(s', s'.tasks[tid]) {
      if tid != a.up && tid != a.down {
        assert TaskIdsHold(s, s.tasks[tid]);
      }
    }
  }

  lemma {:induction false} IdsStep(cfg: Config, s: Sys, a: Action)
    requires IdsHold(s) && Enabled(cfg, s, a)
    ensures IdsHold(Apply(cfg, s, a))
  {
    match a {
      case Run(_, _) => TaskStepIds(cfg, s, a);
      case Evaluate(_, _, _) => EvaluateStepIds(cfg, s, a);
      case _ => OtherStepIds(cfg, s, a);
    }
  }

  lemma OtherStepIds(cfg: Config, s: Sys, a: Action)
    requires IdsHold(s) && Enabled(cfg, s, a) && !a.Run? && !a.Evaluate?
    ensures IdsHold(Apply(cfg, s, a))
  {
    TasksStay(cfg, s, a);
    if a.Merge? {
      MergeStepIds(cfg, s, a);
    } else {
      PerformKeys(cfg, s, OpOf(cfg, s, a));
    }
  }

  lemma MergeStepIds(cfg: Config, s: Sys, a: Action)
    requires IdsHold(s) && Enabled(cfg, s, a) && a.Merge?
    ensures var s' := Apply(cfg, s, a);
            s'.nodes.Keys <= s.used && (s'.mon.Merging? ==> Ids(s'.mon.rest) <= s.used)
  {
    PerformKeys(cfg, s, OpOf(cfg, s, a));
    IdsOfRest(s.mon.rest);
  }

  lemma TasksStay(cfg: Config, s: Sys, a: Action)
    requires IdsHold(s) && Enabled(cfg, s, a) && !a.Run? && !a.Evaluate?
    ensures var s' := Apply(cfg, s, a);
            s'.tasks == s.tasks && forall tid :: tid in s.tasks ==> TaskIdsHold(s', s.tasks[tid])
  {
    var s' := Apply(cfg, s, a);
    forall tid | tid in s.tasks ensures TaskIdsHold(s', s.tasks[tid]) {
      TaskIdsStay(s, s', s.tasks[tid]);
    }
  }

  lemma {:induction false} IdsOverRuns(cfg: Config, acts: seq<Action>)
    requires IsRun(cfg, acts)
    ensures IdsHold(Exec(cfg, acts))
  {
    if acts != [] {
      IdsOverRuns(cfg, acts[..|acts| - 1]);
      IdsStep(cfg, Exec(cfg, acts[..|acts| - 1]), acts[|acts| - 1]);
    }
  }

  // -------------------------------------------------------------- one step

  /** The only step that can lose an instance: the sweep removes a node whose instance is alive. */
  ghost predicate Loses(s: Sys, a: Action) {
    && a.Sweep? && s.mon.Sweeping? && SweepOp(s, a.id) != None
    && a.id in s.live && a.id in s.created && a.id !in s.failed && !Held(s, a.id)
  }

  lemma TaskStepLeaks(cfg: Config, s: Sys, a: Action, id: int)
    requires IdsHold(s) && NoLeak(s) && Enabled(cfg, s, a) && a.Run?
    ensures !Leaked(Apply(cfg, s, a), id)
  {
    var t := s.tasks[a.tid];
    var s' := Apply(cfg, s, a);
    assert TaskIdsHold(s, t);
    assert !Leaked(s, id);
    if Held(s, id) {
      var tid: nat :| HeldBy(s, tid, id);
      if tid != a.tid {
        assert HeldBy(s', tid, id);
      } else {
        assert t == UpTrack(id) && id !in s'.nodes ==> HeldBy(s', tid, id);
      }
    } else if t == UpCreate && a.answer.ok && a.answer.id == id {
      assert HeldBy(s', a.tid, id);
    }
  }

  lemma OtherStepLeaks(cfg: Config, s: Sys, a: Action, id: int)
    requires IdsHold(s) && NoLeak(s) && Enabled(cfg, s, a) && !a.Run?
    ensures Leaked(Apply(cfg, s, a), id) <==> Loses(s, a) && id == a.id
  {
    assert !Leaked(s, id);
    HoldersStay(cfg, s, a, id);
  }

  lemma HoldersStay(cfg: Config, s: Sys, a: Action, id: int)
    requires Enabled(cfg, s, a) && !a.Run?
    ensures Held(Apply(cfg, s, a), id) <==> Held(s, id)
  {
    var s' := Apply(cfg, s, a);
    if Held(s, id) {
      var tid: nat :| HeldBy(s, tid, id);
      assert HeldBy(s', tid, id);
    }
    if Held(s', id) {
      var tid: nat :| HeldBy(s', tid, id);
      assert HeldBy(s, tid, id);
    }
  }

  /** From any state of any run, a step leaks an instance exactly when it is such a sweep. */
  lemma StepLeaksIff(cfg: Config, s: Sys, a: Action)
    requires IdsHold(s) && NoLeak(s) && Enabled(cfg, s, a)
    ensures NoLeak(Apply(cfg, s, a)) <==> !Loses(s, a)
  {
    if a.Run? {
      forall id ensures !Leaked(Apply(cfg, s, a), id) {
        TaskStepLeaks(cfg, s, a, id);
      }
    } else {
      forall id ensures Leaked(Apply(cfg, s, a), id) <==> Loses(s, a) && id == a.id {
        OtherStepLeaks(cfg, s, a, id);
      }
      if Loses(s, a) {
        assert Leaked(Apply(cfg, s, a), a.id);
      }
    }
  }

  // -------------------------------------------------------------- whole runs

  /** An instance that is alive and that ScaleUp created. */
  predicate Ours(s: Sys, id: int) {
    id in s.live && id in s.created
  }

  /** The ids the pass under way has seen or still has to look at. */
  function Known(s: Sys): set<int> {
    match s.mon
    case Merging(rest, seen, _) => seen + Ids(rest)
    case Sweeping(seen, _) => seen
    case _ => {}
  }

  predicate InPass(s: Sys) {
    s.mon.Merging? || s.mon.Sweeping?
  }

  /** Untracked, or exempt from the sweep. */
  predicate Exempt(m: NodeMap, id: int) {
    id in m ==> m[id].state == Provisioning
  }

  /**
   * What the cloud and the waiters owe the removal loop. A listing may lag behind, but only by
   * instances whose nodes are untracked or provisioning; and no node that a pass does not know
   * leaves provisioning before the pass is over. Instances may be created at any time.
   */
  ghost predicate Timely(cfg: Config, s: Sys, a: Action)
    requires Enabled(cfg, s, a)
  {
    && (a.List? ==> forall id :: Ours(s, id) && id !in Ids(a.listing) ==> Exempt(s.nodes, id))
    && (InPass(s) ==>
          var op := OpOf(cfg, s, a);
          op.Some? && op.value.TransitionNode? && Ours(s, op.value.id) && op.value.id !in Known(s) ==>
            !(op.value.id in s.nodes && s.nodes[op.value.id].state == Provisioning))
  }

  ghost predicate TimelyRun(cfg: Config, acts: seq<Action>)
    requires IsRun(cfg, acts)
  {
    acts != [] ==>
      var init := acts[..|acts| - 1];
      TimelyRun(cfg, init) && Timely(cfg, Exec(cfg, init), acts[|acts| - 1])
  }

  /** During a pass, what is ours and unknown to it is exempt from its sweep. */
  ghost predicate Covered(s: Sys) {
    && (s.mon.Merging? && s.mon.stage != Look && s.mon.rest != [] ==> s.mon.rest[0].id in s.mon.seen)
    && (InPass(s) ==> forall id :: Ours(s, id) && id !in Known(s) ==> Exempt(s.nodes, id))
  }

  lemma RestSplits(rest: seq<CloudNode>)
    requires rest != []
    ensures Ids(rest) == {rest[0].id} + Ids(rest[1..])
  {
    assert rest == [rest[0]] + rest[1..];
  }

  /** Only a transition of the node takes away its exemption. */
  lemma ExemptStays(cfg: Config, s: Sys, op: Option<NodeOp>, id: int)
    requires Exempt(s.nodes, id)
    requires op.Some? && op.value.TransitionNode? && op.value.id == id ==>
               !(id in s.nodes && s.nodes[id].state == Provisioning)
    ensures Exempt(Perform(cfg, s, op), id)
  {
  }

  /** What is ours after a step was ours before, or was created by it and has never been tracked. */
  lemma OursBefore(cfg: Config, s: Sys, a: Action, id: int)
    requires IdsHold(s) && Enabled(cfg, s, a) && Ours(Apply(cfg, s, a), id)
    ensures Ours(s, id) || (id !in s.used && Apply(cfg, s, a).nodes == s.nodes)
  {
    if a.Run? {
      BirthsAreNew(cfg, s, a.tid, s.tasks[a.tid], a.answer);
    }
  }

  lemma BirthsAreNew(cfg: Config, s: Sys, tid: nat, t: Task, a: Answer)
    ensures var e := TaskEffect(cfg, s, t, a);
            e.born.Some? ==> t == UpCreate && a.ok && e.born.value == a.id && e.op == None
  {
  }

  /** A pass forgets nothing it knew, until it is over. */
  lemma KnownStays(cfg: Config, s: Sys, a: Action)
    requires Covered(s) && Enabled(cfg, s, a) && InPass(s) && InPass(Apply(cfg, s, a))
    ensures Known(s) == Known(Apply(cfg, s, a))
  {
    if a.Merge? {
      RestSplits(s.mon.rest);
    }
  }

  lemma ExemptStep(cfg: Config, s: Sys, a: Action, id: int)
    requires IdsHold(s) && Covered(s) && Enabled(cfg, s, a) && Timely(cfg, s, a) && InPass(s)
    requires InPass(Apply(cfg, s, a)) && Ours(Apply(cfg, s, a), id) && id !in Known(s)
    ensures Exempt(Apply(cfg, s, a).nodes, id)
  {
    OursBefore(cfg, s, a, id);
    if Ours(s, id) {
      ExemptStays(cfg, s, OpOf(cfg, s, a), id);
      NodesChangeByCalls(cfg, s, a);
    }
  }

  lemma CoveredStep(cfg: Config, s: Sys, a: Action)
    requires IdsHold(s) && Covered(s) && Enabled(cfg, s, a) && Timely(cfg, s, a)
    ensures Covered(Apply(cfg, s, a))
  {
    var s' := Apply(cfg, s, a);
    if InPass(s) && InPass(s') {
      KnownStays(cfg, s, a);
      forall id | Ours(s', id) && id !in Known(s') ensures Exempt(s'.nodes, id) {
        ExemptStep(cfg, s, a, id);
      }
    }
  }

  /** A covered sweep loses nothing: what it takes is known to be gone, or not ours. */
  lemma CoveredLosesNothing(s: Sys, a: Action)
    requires Covered(s)
    ensures !Loses(s, a)
  {
    if a.Sweep? && InPass(s) {
      assert Ours(s, a.id) && a.id !in Known(s) ==> Exempt(s.nodes, a.id);
    }
  }

  /**
   * No instance that ScaleUp created is ever lost on a timely run, however ticks, scale-ups, waiters
   * and scale-downs interleave: while it lives it is tracked, held by the ScaleUp that created it, or
   * known to have resisted a destroy call.
   */
  lemma {:induction false} NoLeakOverRuns(cfg: Config, acts: seq<Action>)
    requires IsRun(cfg, acts) && TimelyRun(cfg, acts)
    ensures NoLeak(Exec(cfg, acts)) && Covered(Exec(cfg, acts))
  {
    if acts != [] {
      var init, last := acts[..|acts| - 1], acts[|acts| - 1];
      NoLeakOverRuns(cfg, init);
      IdsOverRuns(cfg, init);
      CoveredLosesNothing(Exec(cfg, init), last);
      StepLeaksIff(cfg, Exec(cfg, init), last);
      CoveredStep(cfg, Exec(cfg, init), last);
    }
  }

  /** So when nothing is running and no destroy call failed, the live created instances fit under the cap. */
  lemma {:induction false} QuiescentInstancesAreCapped(cfg: Config, acts: seq<Action>)
    requires Loaded(cfg) && IsRun(cfg, acts) && TimelyRun(cfg, acts)
    requires Exec(cfg, acts).tasks == map[] && Exec(cfg, acts).failed == {}
    ensures var s := Exec(cfg, acts);
            s.live * s.created <= s.nodes.Keys && |s.live * s.created| <= cfg.maxNodes
  {
    var s := Exec(cfg, acts);
    NoLeakOverRuns(cfg, acts);
    CapHolds(cfg, acts);
    forall id | id in s.live * s.created ensures id in s.nodes {
      assert !Leaked(s, id);
    }
    Subset(s.live * s.created, s.nodes.Keys);
    assert |s.nodes| == |s.nodes.Keys|;
  }
}
