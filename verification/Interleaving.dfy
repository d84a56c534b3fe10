/**
 * The orchestrator as a transition system. The monitor loop, every ScaleUp, waiter and ScaleDown
 * interleave freely; each locked node-manager call, cloud call, clock reading and evaluation is
 * one step. The cloud, the clock and the queue are adversaries.
 */
module Interleaving {
  import opened Common
  import opened Nodes
  import opened Scaling
  import opened Reconciliation

  /** Where a launched goroutine stands: the next thing it does. */
  datatype Task =
    | UpStart | UpCreate | UpTrack(id: int) | UpUndo(id: int) | UpRecord(id: int)
    | WaitPoll(id: int) | WaitAddress(id: int, ip: string) | WaitReady(id: int)
    | WaitFail(id: int) | WaitDestroy(id: int) | WaitRemove(id: int)
    | DownFind(id: int) | DownLock(id: int) | DownCool(id: int) | DownFloor(id: int) | DownDrain(id: int)
    | DownDestroy(id: int) | DownCall(id: int) | DownRemove(id: int) | DownRecord(id: int)

  /** Where the merge loop stands within the first remaining listing entry. */
  datatype Stage = Look | Add | Address | Promote

  /** Where the monitor loop stands. */
  datatype Monitor =
    | Waiting
    | Merging(rest: seq<CloudNode>, seen: set<int>, stage: Stage)
    | Sweeping(seen: set<int>, todo: set<int>)
    | Evaluating

  /** A passed cooldown check: when, and how many scale events had been recorded. */
  datatype Check = Check(at: int, events: nat)

  /**
   * The whole system. `live` are the instances that exist, `used` every id that ever existed,
   * `created` the ids ScaleUp was given, `failed` the ids a destroy call failed for; `obs`,
   * `events` and `checks` are history.
   */
  datatype Sys = Sys(nodes: NodeMap, lastEvent: Option<int>, upSince: Option<int>, downSince: Option<int>, clock: int,
                     mon: Monitor, tasks: map<nat, Task>,
                     live: set<int>, used: set<int>, created: set<int>, failed: set<int>,
                     obs: seq<Reading>, events: seq<int>, checks: seq<Check>)

  /** What the outside answers to a task's next step. */
  datatype Answer = Answer(ok: bool, id: int, text: string)

  datatype Action =
    | Advance(d: nat)                       // time passes
    | Appear(id: int) | Vanish(id: int)     // instances come and go without the orchestrator
    | SetLock(id: int, locked: bool)
    | List(listing: seq<CloudNode>)         // a tick begins and the listing succeeds
    | Merge(differs: bool) | MergeDone
    | Sweep(id: int) | SweepDone
    | Evaluate(pending: int, up: nat, down: nat)
    | Skip                                  // the pass at startup is not followed by an evaluation
    | Run(tid: nat, answer: Answer)

  const START: Sys := Sys(map[], None, None, None, 0, Waiting, map[], {}, {}, {}, {}, [], [], [])

  // -------------------------------------------------------------- one step of a task

  /** What a step does: at most one locked call, a successor (None ends the task), cloud and history effects. */
  datatype Effect = Effect(op: Option<NodeOp>, next: Option<Task>, born: Option<int>, died: Option<int>,
                           failed: Option<int>, record: bool, check: bool)

  function Goto(t: Task): Effect {
    Effect(None, Some(t), None, None, None, false, false)
  }

  function End(): Effect {
    Effect(None, None, None, None, None, false, false)
  }

  function Calls(op: NodeOp, next: Option<Task>): Effect {
    Effect(Some(op), next, None, None, None, false, false)
  }

  /** A destroy call: the instance is gone, or the call failed and that is remembered. */
  function Destroys(id: int, ok: bool, next: Option<Task>): Effect {
    Effect(None, next, None, if ok then Some(id) else None, if ok then None else Some(id), false, false)
  }

  ghost predicate Succeeds(cfg: Config, s: Sys, op: NodeOp) {
    Try(s.nodes, cfg.maxNodes, op, s.clock).Some?
  }

  ghost function TaskEffect(cfg: Config, s: Sys, t: Task, a: Answer): Effect {
    match t
    case UpStart => if ActiveCount(s.nodes) >= cfg.maxNodes then End() else Goto(UpCreate)
    case UpCreate => if a.ok then Goto(UpTrack(a.id)).(born := Some(a.id)) else End()
    case UpTrack(id) =>
      var op := AddNode(id, a.text);
      Calls(op, Some(if Succeeds(cfg, s, op) then UpRecord(id) else UpUndo(id)))
    case UpUndo(id) => Destroys(id, a.ok, None)
    case UpRecord(id) => Goto(WaitPoll(id)).(record := true)
    case WaitPoll(id) => Goto(if a.ok then WaitAddress(id, a.text) else WaitFail(id))
    case WaitAddress(id, ip) =>
      var op := SetNodeIP(id, ip);
      Calls(op, if Succeeds(cfg, s, op) then Some(WaitReady(id)) else None)
    case WaitReady(id) => Calls(TransitionNode(id, Ready), None)
    case WaitFail(id) => Calls(TransitionNode(id, Destroying), Some(WaitDestroy(id)))
    case WaitDestroy(id) => Destroys(id, a.ok, Some(WaitRemove(id)))
    case WaitRemove(id) => Calls(RemoveNode(id), None)
    case DownFind(id) => if id in s.nodes then Goto(DownLock(id)) else End()
    case DownLock(id) => if a.ok then Goto(DownCool(id)) else End()   // the flag is read through a pointer
    case DownCool(id) =>
      if CanScale(cfg, s.lastEvent, s.clock) then Goto(DownFloor(id)).(check := true) else End()
    case DownFloor(id) => if ActiveCount(s.nodes) <= cfg.minNodes then End() else Goto(DownDrain(id))
    case DownDrain(id) =>
      var op := TransitionNode(id, Draining);
      Calls(op, if Succeeds(cfg, s, op) then Some(DownDestroy(id)) else None)
    case DownDestroy(id) =>
      var op := TransitionNode(id, Destroying);
      Calls(op, if Succeeds(cfg, s, op) then Some(DownCall(id)) else None)
    case DownCall(id) => Destroys(id, a.ok, if a.ok then Some(DownRemove(id)) else None)
    case DownRemove(id) => Calls(RemoveNode(id), Some(DownRecord(id)))
    case DownRecord(id) => End().(record := true)
  }

  function SetOf(o: Option<int>): set<int> {
    if o.Some? then {o.value} else {}
  }

  ghost function Perform(cfg: Config, s: Sys, op: Option<NodeOp>): NodeMap {
    if op.Some? then After(s.nodes, cfg.maxNodes, op.value, s.clock) else s.nodes
  }

  ghost function ApplyEffect(cfg: Config, s: Sys, tid: nat, e: Effect): Sys {
    s.(nodes := Perform(cfg, s, e.op),
       tasks := if e.next.Some? then s.tasks[tid := e.next.value] else s.tasks - {tid},
       live := (s.live + SetOf(e.born)) - SetOf(e.died),
       used := s.used + SetOf(e.born),
       created := s.created + SetOf(e.born),
       failed := s.failed + SetOf(e.failed),
       lastEvent := if e.record then Some(s.clock) else s.lastEvent,
       events := if e.record then s.events + [s.clock] else s.events,
       checks := if e.check then s.checks + [Check(s.clock, |s.events|)] else s.checks)
  }

  // -------------------------------------------------------------- one step of the monitor loop

  /** A step of the merge loop: a locked call, if any, and where the loop stands after it. */
  ghost function MergeStep(cfg: Config, s: Sys, differs: bool): (Option<NodeOp>, Monitor)
    requires s.mon.Merging? && s.mon.rest != []
  {
    var cn := s.mon.rest[0];
    var next := Merging(s.mon.rest[1..], s.mon.seen, Look);
    match s.mon.stage
    case Look => (None, s.mon.(seen := s.mon.seen + {cn.id}, stage := if cn.id in s.nodes then Address else Add))
    case Add =>
      var op := AddNode(cn.id, cn.name);
      (Some(op), if Succeeds(cfg, s, op) then s.mon.(stage := Address) else next)
    // The two comparisons read the node through a pointer, so either answer is possible.
    case Address => (if cn.ipv4 != "" && differs then Some(SetNodeIP(cn.id, cn.ipv4)) else None,
        s.mon.(stage := Promote))
    case Promote => (if IsRunning(cn.status) && differs then Some(TransitionNode(cn.id, Ready)) else None, next)
  }

  ghost function SweepOp(s: Sys, id: int): Option<NodeOp>
    requires s.mon.Sweeping?
  {
    if id in s.mon.seen || id !in s.nodes || s.nodes[id].state == Provisioning then None else Some(RemoveNode(id))
  }

  ghost function SysReading(cfg: Config, s: Sys, pending: int): Reading {
    Read(cfg, s.nodes, s.lastEvent, pending, s.clock)
  }

  ghost function ApplyEvaluate(cfg: Config, s: Sys, pending: int, up: nat, down: nat): Sys {
    var r := SysReading(cfg, s, pending);
    var u, d := DecideUp(cfg, s.upSince, r), DecideDown(cfg, s.downSince, r);
    var tasks := if u.launch != NoLaunch then s.tasks[up := UpStart] else s.tasks;
    s.(mon := Waiting, upSince := u.since, downSince := d.since, obs := s.obs + [r],
       tasks := if d.target.Some? then tasks[down := DownFind(d.target.value)] else tasks,
       checks := if u.launch != NoLaunch || d.target.Some? then s.checks + [Check(s.clock, |s.events|)] else s.checks)
  }

  // -------------------------------------------------------------- the system

  ghost predicate Enabled(cfg: Config, s: Sys, a: Action) {
    match a
    case Advance(_) => true
    case Appear(id) => id !in s.used
    case Vanish(id) => id in s.live
    case SetLock(_, _) => true
    case List(listing) => s.mon.Waiting? && Ids(listing) <= s.used
    case Merge(_) => s.mon.Merging? && s.mon.rest != []
    case MergeDone => s.mon.Merging? && s.mon.rest == []
    case Sweep(id) => s.mon.Sweeping? && id in s.mon.todo
    case SweepDone => s.mon.Sweeping? && s.mon.todo == {}
    case Evaluate(_, up, down) => s.mon.Evaluating? && up !in s.tasks && down !in s.tasks && up != down
    case Skip => s.mon.Evaluating?
    case Run(tid, answer) => tid in s.tasks && (s.tasks[tid] == UpCreate && answer.ok ==> answer.id !in s.used)
  }

  /** The locked call an action makes, if any. */
  ghost function OpOf(cfg: Config, s: Sys, a: Action): Option<NodeOp>
    requires Enabled(cfg, s, a)
  {
    match a
    case SetLock(id, locked) => Some(SetDrainLock(id, locked))
    case Merge(differs) => MergeStep(cfg, s, differs).0
    case Sweep(id) => SweepOp(s, id)
    case Run(tid, answer) => TaskEffect(cfg, s, s.tasks[tid], answer).op
    case _ => None
  }

  ghost function Apply(cfg: Config, s: Sys, a: Action): Sys
    requires Enabled(cfg, s, a)
  {
    match a
    case Advance(d) => s.(clock := s.clock + d)
    case Appear(id) => s.(live := s.live + {id}, used := s.used + {id})
    case Vanish(id) => s.(live := s.live - {id})
    case SetLock(id, locked) => s.(nodes := Perform(cfg, s, OpOf(cfg, s, a)))
    case List(listing) => s.(mon := Merging(listing, {}, Look))
    case Merge(differs) => s.(nodes := Perform(cfg, s, OpOf(cfg, s, a)), mon := MergeStep(cfg, s, differs).1)
    case MergeDone => s.(mon := Sweeping(s.mon.seen, s.nodes.Keys))
    case Sweep(id) => s.(nodes := Perform(cfg, s, OpOf(cfg, s, a)), mon := s.mon.(todo := s.mon.todo - {id}))
    case SweepDone => s.(mon := Evaluating)
    case Evaluate(pending, up, down) => ApplyEvaluate(cfg, s, pending, up, down)
    case Skip => s.(mon := Waiting)
    case Run(tid, answer) => ApplyEffect(cfg, s, tid, TaskEffect(cfg, s, s.tasks[tid], answer))
  }

  /** The state after a sequence of actions, each enabled where it happens. */
  ghost predicate IsRun(cfg: Config, acts: seq<Action>)
    decreases |acts|, 0
  {
    acts != [] ==>
      var init := acts[..|acts| - 1];
      IsRun(cfg, init) && Enabled(cfg, Exec(cfg, init), acts[|acts| - 1])
  }

  ghost function Exec(cfg: Config, acts: seq<Action>): Sys
    requires IsRun(cfg, acts)
    decreases |acts|, 1
  {
    if acts == [] then START
    else Apply(cfg, Exec(cfg, acts[..|acts| - 1]), acts[|acts| - 1])
  }
}
