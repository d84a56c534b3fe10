/**
 * Any number of agents pulling from one work queue. Fetch loops, handlers, the queue server and
 * crashes interleave freely; leases may expire, and messages be redelivered, at any time.
 */
module Delivery {
  import opened Counting
  import opened Handling

  // -------------------------------------------------------------- one handler, step by step

  /** How a handler ended: its ack was counted, its ack failed uncounted, or it gave the message back. */
  datatype End = CountedAck | LostAck | CountedNak

  /** The next thing a handler does. After settling it releases its slot, then signs off. */
  datatype Pc =
    | Started | Validating | Forwarding(attempt: nat) | AckingDelivered
    | DeadLettering(invalid: bool) | AckingStored(invalid: bool) | NakingLater | Naking
    | Settled(end: End) | Released

  /** What a step finds: the shutdown flag, the payload, the reply, and whether its call succeeds. */
  datatype Input = Input(shuttingDown: bool, valid: bool, reply: Reply, ok: bool)

  function FirstNak(cfg: AgentConfig): Pc {
    if cfg.retryDelay > 0 then NakingLater else Naking
  }

  predicate Handles(pc: Pc) {
    !pc.Settled? && !pc.Released?
  }

  function Next(cfg: AgentConfig, pc: Pc, x: Input): Pc
    requires Handles(pc)
  {
    match pc
    case Started => if x.shuttingDown then FirstNak(cfg) else Validating
    case Validating => if x.valid then Forwarding(1) else DeadLettering(true)
    case Forwarding(k) =>
      if IsSuccess(x.reply) then AckingDelivered
      else if IsNonRetryable(StatusOf(x.reply)) || k >= Limit(cfg) then DeadLettering(false)
      else Forwarding(k + 1)
    case AckingDelivered => Settled(if x.ok then CountedAck else LostAck)
    case DeadLettering(invalid) => if x.ok then AckingStored(invalid) else FirstNak(cfg)
    case AckingStored(invalid) => Settled(if x.ok || invalid then CountedAck else LostAck)
    case NakingLater => if x.ok then Settled(CountedNak) else Naking
    case Naking => Settled(CountedNak)
  }

  function Emits(pc: Pc, x: Input): seq<Event>
    requires Handles(pc)
  {
    match pc
    case Started | Validating => []
    case Forwarding(_) => [Forwarded(x.reply)]
    case AckingDelivered | AckingStored(_) => [Acked(x.ok)]
    case DeadLettering(_) => [DeadLettered(x.ok)]
    case NakingLater => [NakedLater(x.ok)]
    case Naking => [Naked(x.ok)]
  }

  /** What the step at `pc` finds when the whole handling gets these answers. */
  function InputAt(pc: Pc, shuttingDown: bool, valid: bool, replies: nat -> Reply, a: Answers): Input
    requires Handles(pc)
  {
    Input(shuttingDown, valid,
          if pc.Forwarding? then replies(pc.attempt) else NetworkError(0),
          match pc
          case DeadLettering(_) => a.dlqOk
          case NakingLater => a.nakLaterOk
          case Naking => a.nakOk
          case _ => a.ackOk)
  }

  function Distance(cfg: AgentConfig, pc: Pc): nat {
    match pc
    case Started => Limit(cfg) + 8
    case Validating => Limit(cfg) + 7
    case Forwarding(k) => if k >= Limit(cfg) then 6 else Limit(cfg) - k + 6
    case DeadLettering(_) => 5
    case AckingStored(_) | AckingDelivered => 1
    case NakingLater => 2
    case Naking => 1
    case _ => 0
  }

  /** The events of a handler left to itself from `pc` on. */
  function Play(cfg: AgentConfig, pc: Pc, shuttingDown: bool, valid: bool, replies: nat -> Reply,
                a: Answers): seq<Event>
    decreases Distance(cfg, pc)
  {
    if !Handles(pc) then []
    else
      var x := InputAt(pc, shuttingDown, valid, replies, a);
      Emits(pc, x) + Play(cfg, Next(cfg, pc, x), shuttingDown, valid, replies, a)
  }

  /** A step that settles ends the play with what it emits. */
  lemma PlaysLast(cfg: AgentConfig, pc: Pc, shuttingDown: bool, valid: bool, replies: nat -> Reply, a: Answers)
    requires Handles(pc) && !Handles(Next(cfg, pc, InputAt(pc, shuttingDown, valid, replies, a)))
    ensures Play(cfg, pc, shuttingDown, valid, replies, a) == Emits(pc, InputAt(pc, shuttingDown, valid, replies, a))
  {
    var e := Emits(pc, InputAt(pc, shuttingDown, valid, replies, a));
    assert e + [] == e;
  }

  lemma PlaysNak(cfg: AgentConfig, shuttingDown: bool, valid: bool, replies: nat -> Reply, a: Answers)
    ensures Play(cfg, FirstNak(cfg), shuttingDown, valid, replies, a) == NakEvents(cfg, a)
  {
    PlaysLast(cfg, Naking, shuttingDown, valid, replies, a);
    if cfg.retryDelay > 0 && a.nakLaterOk {
      PlaysLast(cfg, NakingLater, shuttingDown, valid, replies, a);
    }
  }

  lemma PlaysDeadLetter(cfg: AgentConfig, invalid: bool, shuttingDown: bool, valid: bool, replies: nat -> Reply,
                        a: Answers)
    ensures Play(cfg, DeadLettering(invalid), shuttingDown, valid, replies, a) == DeadLetter(cfg, a)
  {
    PlaysNak(cfg, shuttingDown, valid, replies, a);
    PlaysLast(cfg, AckingStored(invalid), shuttingDown, valid, replies, a);
  }

  lemma {:induction false} PlaysForwards(cfg: AgentConfig, k: nat, shuttingDown: bool, valid: bool,
                                         replies: nat -> Reply, a: Answers)
    requires 1 <= k <= Limit(cfg)
    ensures var n := LastAttempt(cfg, replies, k);
            Forwards(replies, k - 1) + Play(cfg, Forwarding(k), shuttingDown, valid, replies, a)
            == Forwards(replies, n) + Ending(cfg, IsSuccess(replies(n)), a)
    decreases Limit(cfg) - k
  {
    var x := InputAt(Forwarding(k), shuttingDown, valid, replies, a);
    var rest := Play(cfg, Next(cfg, Forwarding(k), x), shuttingDown, valid, replies, a);
    assert Forwards(replies, k - 1) + ([Forwarded(replies(k))] + rest) == Forwards(replies, k) + rest;
    if k < Limit(cfg) && !IsDecisive(replies(k)) {
      PlaysForwards(cfg, k + 1, shuttingDown, valid, replies, a);
    } else if IsSuccess(replies(k)) {
      PlaysLast(cfg, AckingDelivered, shuttingDown, valid, replies, a);
    } else {
      PlaysDeadLetter(cfg, false, shuttingDown, valid, replies, a);
    }
  }

  /** The small steps, run to the end without interference, make exactly the calls of the whole handler. */
  lemma StepsRefineHandle(cfg: AgentConfig, shuttingDown: bool, valid: bool, replies: nat -> Reply, a: Answers)
    ensures Play(cfg, Started, shuttingDown, valid, replies, a) == Handle(cfg, shuttingDown, valid, replies, a)
  {
    PlaysNak(cfg, shuttingDown, valid, replies, a);
    if !shuttingDown {
      if valid {
        PlaysForwards(cfg, 1, shuttingDown, valid, replies, a);
      } else {
        PlaysDeadLetter(cfg, true, shuttingDown, valid, replies, a);
      }
    }
  }

  // -------------------------------------------------------------- the system

  datatype Job = Job(id: int, valid: bool)

  /** A handler goroutine; `late` remembers that shutdown had been flagged before it began. */
  datatype Handler = Handler(job: Job, pc: Pc, late: bool)

  /** The fetch loop between fetches, in one (`open` if it began before the subscription was drained), or ended. */
  datatype Loop = Idle | Fetching(open: bool) | Stopped

  datatype AgentState = AgentState(cfg: AgentConfig, cap: nat, loop: Loop, cancelled: bool, shuttingDown: bool,
                                   drained: bool, handlers: map<nat, Handler>, slots: nat, waiting: nat,
                                   received: nat, acked: nat, nacked: nat, lostAcks: nat)

  /**
   * The queue server and the agents. `queue` is the work-queue stream, `acking` the acks on their
   * way to it; `replies` is what each job was answered with, `dlq` is the dead-letter stream.
   */
  datatype Sys = Sys(agents: map<nat, AgentState>, published: set<Job>, queue: set<Job>, acking: set<Job>,
                     replies: set<Answered>, dlq: set<Job>)

  datatype Answered = Answered(job: Job, reply: Reply)

  datatype Action =
    | Publish(job: Job)
    | AckArrives(job: Job) | AckDropped(job: Job)
    | Join(agent: nat, cfg: AgentConfig) | Crash(agent: nat)
    | Cancel(agent: nat) | FlagShutdown(agent: nat) | Drain(agent: nat)
    | Acquire(agent: nat) | Stop(agent: nat) | FetchNothing(agent: nat) | FetchFails(agent: nat)
    | Fetch(agent: nat, hid: nat, job: Job)
    | TakeStep(agent: nat, hid: nat, input: Input, reached: bool)
    | Release(agent: nat, hid: nat) | SignOff(agent: nat, hid: nat)

  const EMPTY: Sys := Sys(map[], {}, {}, {}, {}, {})

  function NewAgent(cfg: AgentConfig): AgentState {
    var cap := if cfg.maxInFlight <= 0 then 1 else cfg.maxInFlight;
    AgentState(cfg, cap, Idle, false, false, false, map[], 0, 0, 0, 0, 0, 0)
  }

  predicate HasHandler(s: Sys, agent: nat, hid: nat) {
    agent in s.agents && hid in s.agents[agent].handlers
  }

  /**
   * When an action can happen. Redelivery is unrestricted: any queued job can be fetched at any
   * time, whatever became of its earlier deliveries. A fetch begun once the subscription was drained
   * yields no message.
   */
  predicate Enabled(s: Sys, a: Action) {
    match a
    case Publish(job) => job !in s.published
    case AckArrives(job) => job in s.acking
    case AckDropped(job) => job in s.acking
    case Join(g, _) => g !in s.agents
    case Crash(g) => g in s.agents
    case Cancel(g) => g in s.agents
    case FlagShutdown(g) => g in s.agents && s.agents[g].cancelled
    case Drain(g) => g in s.agents && s.agents[g].shuttingDown
    case Acquire(g) => g in s.agents && s.agents[g].loop == Idle && s.agents[g].slots < s.agents[g].cap
    case Stop(g) => g in s.agents && s.agents[g].loop == Idle && s.agents[g].cancelled
    case FetchNothing(g) => g in s.agents && s.agents[g].loop.Fetching?
    case FetchFails(g) => g in s.agents && s.agents[g].loop.Fetching?
    case Fetch(g, h, job) => g in s.agents && s.agents[g].loop == Fetching(true) && h !in s.agents[g].handlers
        && job in s.queue
    case TakeStep(g, h, x, _) =>
      && HasHandler(s, g, h)
      && var ag := s.agents[g];
         Handles(ag.handlers[h].pc) && x.shuttingDown == ag.shuttingDown && x.valid == ag.handlers[h].job.valid
    case Release(g, h) => HasHandler(s, g, h) && s.agents[g].handlers[h].pc.Settled?
    case SignOff(g, h) => HasHandler(s, g, h) && s.agents[g].handlers[h].pc == Released
  }

  function Bump(n: nat, b: bool): nat {
    if b then n + 1 else n
  }

  function Drop(n: nat): nat {
    if n == 0 then 0 else n - 1
  }

  /** One handler moves to `pc`; settling is counted by how it ended. */
  function MoveHandler(ag: AgentState, h: nat, pc: Pc): AgentState
    requires h in ag.handlers
  {
    ag.(handlers := ag.handlers[h := ag.handlers[h].(pc := pc)],
        acked := Bump(ag.acked, pc == Settled(CountedAck)),
        nacked := Bump(ag.nacked, pc == Settled(CountedNak)),
        lostAcks := Bump(ag.lostAcks, pc == Settled(LostAck)))
  }

  /** What an action does to the agent it names. */
  function ApplyToAgent(s: Sys, a: Action): AgentState
    requires Enabled(s, a) && !a.Publish? && !a.AckArrives? && !a.AckDropped? && !a.Join? && !a.Crash?
  {
    var ag := s.agents[a.agent];
    match a
    case Cancel(_) => ag.(cancelled := true)
    case FlagShutdown(_) => ag.(shuttingDown := true)
    case Drain(_) => ag.(drained := true)
    case Acquire(_) => ag.(loop := Fetching(!ag.drained), slots := ag.slots + 1)
    case Stop(_) => ag.(loop := Stopped)
    case FetchNothing(_) => ag.(loop := Idle, slots := Drop(ag.slots))
    case FetchFails(_) => ag.(loop := Stopped, slots := Drop(ag.slots))
    case Fetch(_, h, job) =>
      ag.(loop := Idle, received := ag.received + 1, waiting := ag.waiting + 1,
          handlers := ag.handlers[h := Handler(job, Started, ag.shuttingDown)])
    case TakeStep(_, h, x, _) => MoveHandler(ag, h, Next(ag.cfg, ag.handlers[h].pc, x))
    case Release(_, h) => ag.(handlers := ag.handlers[h := ag.handlers[h].(pc := Released)], slots := Drop(ag.slots))
    case SignOff(_, h) => ag.(handlers := ag.handlers - {h}, waiting := Drop(ag.waiting))
  }

  function Apply(s: Sys, a: Action): Sys
    requires Enabled(s, a)
  {
    match a
    case Publish(job) => s.(published := s.published + {job}, queue := s.queue + {job})
    case AckArrives(job) => s.(queue := s.queue - {job}, acking := s.acking - {job})
    case AckDropped(job) => s.(acking := s.acking - {job})
    case Join(g, cfg) => s.(agents := s.agents[g := NewAgent(cfg)])
    case Crash(g) => s.(agents := s.agents - {g})
    case TakeStep(g, h, x, reached) =>
      // A call that fails may have reached the server all the same; one that succeeds to publish has.
      var hd := s.agents[g].handlers[h];
      var job := {hd.job};
      s.(agents := s.agents[g := ApplyToAgent(s, a)],
         replies := if hd.pc.Forwarding? then s.replies + {Answered(hd.job, x.reply)} else s.replies,
         dlq := if hd.pc.DeadLettering? && (x.ok || reached) then s.dlq + job else s.dlq,
         acking := if (hd.pc.AckingDelivered? || hd.pc.AckingStored?) && reached then s.acking + job else s.acking)
    case _ => s.(agents := s.agents[a.agent := ApplyToAgent(s, a)])
  }

  ghost predicate IsRun(acts: seq<Action>)
    decreases |acts|, 0
  {
    acts != [] ==>
      var init := acts[..|acts| - 1];
      IsRun(init) && Enabled(Exec(init), acts[|acts| - 1])
  }

  ghost function Exec(acts: seq<Action>): Sys
    requires IsRun(acts)
    decreases |acts|, 1
  {
    if acts == [] then EMPTY else Apply(Exec(acts[..|acts| - 1]), acts[|acts| - 1])
  }

  // -------------------------------------------------------------- no job is lost

  /** The job got a reply with a status in 200..299. */
  ghost predicate Delivered(s: Sys, job: Job) {
    exists r :: r in s.replies && r.job == job && r.reply.Response? && 200 <= r.reply.status <= 299
  }

  ghost predicate HandlerSafe(s: Sys, h: Handler) {
    && (h.pc.AckingDelivered? ==> Delivered(s, h.job))
    && (h.pc.AckingStored? ==> h.job in s.dlq)
  }

  /** Every published job is queued, delivered or stored; acks are only under way for the last two. */
  ghost predicate Safe(s: Sys) {
    && (forall job :: job in s.published ==> job in s.queue || Delivered(s, job) || job in s.dlq)
    && (forall job :: job in s.acking ==> Delivered(s, job) || job in s.dlq)
    && forall g, h :: HasHandler(s, g, h) ==> HandlerSafe(s, s.agents[g].handlers[h])
  }

  lemma SafeStep(s: Sys, a: Action)
    requires Safe(s) && Enabled(s, a)
    ensures Safe(Apply(s, a))
  {
    var s' := Apply(s, a);
    forall g, h | HasHandler(s', g, h) ensures HandlerSafe(s', s'.agents[g].handlers[h]) {
      HandlerStep(s, a, g, h);
    }
    forall job | job in s'.acking ensures Delivered(s', job) || job in s'.dlq {
      AckingStep(s, a, job);
    }
    forall job | job in s'.published ensures job in s'.queue || Delivered(s', job) || job in s'.dlq {
      if job in s.published && Delivered(s, job) {
        StaysDelivered(s, a, job);
      }
      if a == AckArrives(job) && Delivered(s, job) {
        StaysDelivered(s, a, job);
      }
    }
  }

  lemma StaysDelivered(s: Sys, a: Action, job: Job)
    requires Enabled(s, a) && Delivered(s, job)
    ensures Delivered(Apply(s, a), job)
  {
    var r :| r in s.replies && r.job == job && r.reply.Response? && 200 <= r.reply.status <= 299;
    assert r in Apply(s, a).replies;
  }

  lemma AckingStep(s: Sys, a: Action, job: Job)
    requires Safe(s) && Enabled(s, a) && job in Apply(s, a).acking
    ensures Delivered(Apply(s, a), job) || job in Apply(s, a).dlq
  {
    if job !in s.acking {
      assert HandlerSafe(s, s.agents[a.agent].handlers[a.hid]);
    }
    if Delivered(s, job) {
      StaysDelivered(s, a, job);
    }
  }

  /** A forward that goes on to an ack got a reply with a status in 200..299. */
  lemma AcksOnly2xx(cfg: AgentConfig, k: nat, x: Input)
    ensures Next(cfg, Forwarding(k), x) == AckingDelivered <==>
              x.reply.Response? && 200 <= x.reply.status <= 299
  {
  }

  lemma HandlerStep(s: Sys, a: Action, g: nat, h: nat)
    requires Safe(s) && Enabled(s, a) && HasHandler(Apply(s, a), g, h)
    ensures HandlerSafe(Apply(s, a), Apply(s, a).agents[g].handlers[h])
  {
    if HasHandler(s, g, h) {
      var hd := s.agents[g].handlers[h];
      assert HandlerSafe(s, hd);
      if hd.pc.AckingDelivered? {
        StaysDelivered(s, a, hd.job);
      }
      if a.TakeStep? && a.agent == g && a.hid == h && hd.pc.Forwarding? {
        AcksOnly2xx(s.agents[g].cfg, hd.pc.attempt, a.input);
        assert Answered(hd.job, a.input.reply) in Apply(s, a).replies;
      }
    }
  }

  /**
   * At-least-once, over every run of any number of agents, with crashes at any step, redelivery at
   * any time, late and lost acks and failed calls: no published job leaves the queue before it was
   * answered with a 2xx or stored in the dead-letter queue, and no ack is issued before that.
   */
  lemma {:induction false} NoJobIsLost(acts: seq<Action>)
    requires IsRun(acts)
    ensures Safe(Exec(acts))
  {
    if acts != [] {
      NoJobIsLost(acts[..|acts| - 1]);
      SafeStep(Exec(acts[..|acts| - 1]), acts[|acts| - 1]);
    }
  }

  /** An ack that reaches the server takes its job, and no other, out of the queue when it arrives. */
  lemma AckedJobLeaves(s: Sys, g: nat, h: nat, x: Input)
    requires Enabled(s, TakeStep(g, h, x, true))
    requires s.agents[g].handlers[h].pc.AckingDelivered? || s.agents[g].handlers[h].pc.AckingStored?
    ensures var job, s1 := s.agents[g].handlers[h].job, Apply(s, TakeStep(g, h, x, true));
            Enabled(s1, AckArrives(job)) && Apply(s1, AckArrives(job)).queue == s.queue - {job}
  {
  }

  // -------------------------------------------------------------- slots, counters, drain

  predicate HoldsSlot(h: Handler) {
    h.pc != Released
  }

  predicate IsUnsettled(h: Handler) {
    Handles(h.pc)
  }

  /** Nothing a late handler can do but give its message back. */
  predicate OnlyNaks(pc: Pc) {
    pc.Started? || pc.NakingLater? || pc.Naking? || pc == Settled(CountedNak) || pc.Released?
  }

  ghost predicate HandlerInBounds(ag: AgentState, h: Handler) {
    && (h.pc.Forwarding? ==> 1 <= h.pc.attempt <= Limit(ag.cfg))
    && (h.late ==> ag.shuttingDown && OnlyNaks(h.pc))
  }

  ghost predicate Conserved(ag: AgentState) {
    && ag.cap == (if ag.cfg.maxInFlight >= 1 then ag.cfg.maxInFlight else 1) && ag.slots <= ag.cap
    && ag.slots == Count(ag.handlers, HoldsSlot) + Bit(ag.loop.Fetching?)
    && ag.waiting == |ag.handlers| && (ag.loop == Fetching(false) ==> ag.drained)
    && ag.received == ag.acked + ag.nacked + ag.lostAcks + Count(ag.handlers, IsUnsettled)
    && forall h :: h in ag.handlers ==> HandlerInBounds(ag, ag.handlers[h])
  }

  ghost predicate AllConserved(s: Sys) {
    forall g :: g in s.agents ==> Conserved(s.agents[g])
  }

  /** Replacing or adding one handler changes both counts by that handler alone. */
  lemma PutHandler(ag: AgentState, h: nat, v: Handler)
    ensures var m := ag.handlers[h := v];
            && Count(m, HoldsSlot) == Count(ag.handlers, HoldsSlot)
                 - Bit(h in ag.handlers && HoldsSlot(ag.handlers[h])) + Bit(HoldsSlot(v))
            && Count(m, IsUnsettled) == Count(ag.handlers, IsUnsettled)
                 - Bit(h in ag.handlers && IsUnsettled(ag.handlers[h])) + Bit(IsUnsettled(v))
            && |m| == |ag.handlers| + Bit(h !in ag.handlers)
  {
    CountPut(ag.handlers, h, v, HoldsSlot);
    CountPut(ag.handlers, h, v, IsUnsettled);
  }

  lemma DropHandler(ag: AgentState, h: nat)
    requires h in ag.handlers
    ensures var m := ag.handlers - {h};
            && Count(m, HoldsSlot) == Count(ag.handlers, HoldsSlot) - Bit(HoldsSlot(ag.handlers[h]))
            && Count(m, IsUnsettled) == Count(ag.handlers, IsUnsettled) - Bit(IsUnsettled(ag.handlers[h]))
            && |m| == |ag.handlers| - 1
  {
    CountDrop(ag.handlers, h, HoldsSlot);
    CountDrop(ag.handlers, h, IsUnsettled);
    var m := ag.handlers - {h};
    assert m.Keys == ag.handlers.Keys - {h};
    assert |m| == |m.Keys|;
  }

  lemma NextInBounds(ag: AgentState, h: Handler, x: Input)
    requires HandlerInBounds(ag, h) && Handles(h.pc) && x.shuttingDown == ag.shuttingDown
    ensures HandlerInBounds(ag, h.(pc := Next(ag.cfg, h.pc, x)))
  {
  }

  lemma TakeStepConserves(s: Sys, a: Action)
    requires Enabled(s, a) && a.TakeStep? && Conserved(s.agents[a.agent])
    ensures Conserved(ApplyToAgent(s, a))
  {
    var ag := s.agents[a.agent];
    var h := ag.handlers[a.hid];
    assert HandlerInBounds(ag, h);
    NextInBounds(ag, h, a.input);
    MoveConserves(ag, a.hid, Next(ag.cfg, h.pc, a.input));
  }

  /** A handler that moves on keeps its slot, and is counted when it settles. */
  lemma MoveConserves(ag: AgentState, h: nat, pc: Pc)
    requires Conserved(ag) && h in ag.handlers && Handles(ag.handlers[h].pc) && pc != Released
    requires HandlerInBounds(ag, ag.handlers[h].(pc := pc))
    ensures Conserved(MoveHandler(ag, h, pc))
  {
    var ag' := MoveHandler(ag, h, pc);
    PutHandler(ag, h, ag.handlers[h].(pc := pc));
    forall k | k in ag'.handlers ensures HandlerInBounds(ag', ag'.handlers[k]) {
      assert k != h ==> HandlerInBounds(ag, ag.handlers[k]);
    }
    assert pc.Settled? ==> pc.end.CountedAck? || pc.end.LostAck? || pc.end.CountedNak?;
  }

  lemma FetchConserves(s: Sys, a: Action)
    requires Enabled(s, a) && a.Fetch? && Conserved(s.agents[a.agent])
    ensures Conserved(ApplyToAgent(s, a))
  {
    var ag := s.agents[a.agent];
    PutHandler(ag, a.hid, Handler(a.job, Started, ag.shuttingDown));
  }

  lemma LeaveConserves(s: Sys, a: Action)
    requires Enabled(s, a) && (a.Release? || a.SignOff?) && Conserved(s.agents[a.agent])
    ensures Conserved(ApplyToAgent(s, a))
  {
    var ag := s.agents[a.agent];
    var h := ag.handlers[a.hid];
    if a.Release? {
      assert HandlerInBounds(ag, h);
      PutHandler(ag, a.hid, h.(pc := Released));
    } else {
      DropHandler(ag, a.hid);
    }
  }

  lemma AgentStepConserves(s: Sys, a: Action)
    requires Enabled(s, a) && !a.Publish? && !a.AckArrives? && !a.AckDropped? && !a.Join? && !a.Crash?
    requires Conserved(s.agents[a.agent])
    ensures Conserved(ApplyToAgent(s, a))
  {
    match a {
      case TakeStep(_, _, _, _) => TakeStepConserves(s, a);
      case Fetch(_, _, _) => FetchConserves(s, a);
      case Release(_, _) => LeaveConserves(s, a);
      case SignOff(_, _) => LeaveConserves(s, a);
      case _ => LoopConserves(s, a);
    }
  }

  /** The other steps leave the handlers alone. */
  lemma LoopConserves(s: Sys, a: Action)
    requires Enabled(s, a) && !a.Publish? && !a.AckArrives? && !a.AckDropped? && !a.Join? && !a.Crash?
    requires !a.TakeStep? && !a.Fetch? && !a.Release? && !a.SignOff?
    requires Conserved(s.agents[a.agent])
    ensures Conserved(ApplyToAgent(s, a))
  {
    var ag, ag' := s.agents[a.agent], ApplyToAgent(s, a);
    assert ag'.handlers == ag.handlers;
    forall h | h in ag'.handlers ensures HandlerInBounds(ag', ag'.handlers[h]) {
      assert HandlerInBounds(ag, ag.handlers[h]);
    }
  }

  lemma NewAgentConserved(cfg: AgentConfig)
    ensures Conserved(NewAgent(cfg))
  {
    CountAtMost(NewAgent(cfg).handlers, HoldsSlot);
    CountAtMost(NewAgent(cfg).handlers, IsUnsettled);
  }

  lemma OtherStepConserves(s: Sys, a: Action)
    requires Enabled(s, a) && AllConserved(s)
    requires !a.Publish? && !a.AckArrives? && !a.AckDropped? && !a.Crash? && !a.Join?
    ensures AllConserved(Apply(s, a))
  {
    AgentStepConserves(s, a);
    assert Apply(s, a).agents == s.agents[a.agent := ApplyToAgent(s, a)];
  }

  lemma SystemStepConserves(s: Sys, a: Action)
    requires Enabled(s, a) && AllConserved(s)
    ensures AllConserved(Apply(s, a))
  {
    match a {
      case Publish(_) =>
      case AckArrives(_) =>
      case AckDropped(_) =>
      case Crash(_) =>
      case Join(_, cfg) => NewAgentConserved(cfg);
      case _ => OtherStepConserves(s, a);
    }
  }

  /**
   * On every interleaving of every agent's fetch loop and handlers: the slots in use are those of
   * unreleased handlers plus the one the loop fetches with, never more than configured; every
   * received message is counted once or still being handled; the wait group counts the handlers.
   */
  lemma {:induction false} SlotsAndCountersHold(acts: seq<Action>)
    requires IsRun(acts)
    ensures AllConserved(Exec(acts))
  {
    if acts != [] {
      var init, last := acts[..|acts| - 1], acts[|acts| - 1];
      var s := Exec(init);
      SlotsAndCountersHold(init);
      SystemStepConserves(s, last);
    }
  }

  /**
   * When the wait group is down to zero, every message received so far is settled and counted, and
   * no slot is with a handler.
   */
  lemma ZeroMeansSettled(acts: seq<Action>, g: nat)
    requires IsRun(acts) && g in Exec(acts).agents && Exec(acts).agents[g].waiting == 0
    ensures var ag := Exec(acts).agents[g];
            && ag.handlers == map[] && ag.received == ag.acked + ag.nacked + ag.lostAcks
            && ag.slots == Bit(ag.loop.Fetching?)
  {
    SlotsAndCountersHold(acts);
    var ag := Exec(acts).agents[g];
    assert |ag.handlers| == 0;
    assert ag.handlers == map[];
    CountAtMost(ag.handlers, HoldsSlot);
    CountAtMost(ag.handlers, IsUnsettled);
  }

  /** One step that starts a handler of the agent. */
  ghost predicate Starts(a: Action, g: nat) {
    a.Fetch? && a.agent == g
  }

  /** The agent is in play the whole time: it neither crashes nor joins anew. */
  predicate Spares(a: Action, g: nat) {
    !(a.Crash? && a.agent == g) && !(a.Join? && a.agent == g)
  }

  /** A continuation of a state. */
  ghost predicate Continues(s: Sys, more: seq<Action>)
    decreases |more|, 0
  {
    more != [] ==>
      var init := more[..|more| - 1];
      Continues(s, init) && Enabled(Later(s, init), more[|more| - 1])
  }

  ghost function Later(s: Sys, more: seq<Action>): Sys
    requires Continues(s, more)
    decreases |more|, 1
  {
    if more == [] then s else Apply(Later(s, more[..|more| - 1]), more[|more| - 1])
  }

  /** From here on, however the system goes on, the agent starts no handler. */
  ghost predicate NeverStartsAgain(s: Sys, g: nat) {
    forall more: seq<Action> :: Continues(s, more) && (forall a :: a in more ==> Spares(a, g)) ==>
      forall a :: a in more ==> !Starts(a, g)
  }

  /** The loop has ended, or the subscription is drained and no fetch from before is still open. */
  predicate Closed(ag: AgentState) {
    ag.loop == Stopped || (ag.drained && ag.loop != Fetching(true))
  }

  lemma ClosedStep(s: Sys, g: nat, a: Action)
    requires g in s.agents && Closed(s.agents[g]) && Enabled(s, a) && Spares(a, g)
    ensures g in Apply(s, a).agents && Closed(Apply(s, a).agents[g]) && !Starts(a, g)
  {
  }

  lemma {:induction false} ClosedStays(s: Sys, g: nat, more: seq<Action>)
    requires Continues(s, more) && g in s.agents && Closed(s.agents[g])
    requires forall a :: a in more ==> Spares(a, g)
    ensures g in Later(s, more).agents && Closed(Later(s, more).agents[g])
    ensures forall a :: a in more ==> !Starts(a, g)
  {
    if more != [] {
      var init, last := more[..|more| - 1], more[|more| - 1];
      assert more == init + [last];
      assert last in more;
      ClosedStays(s, g, init);
      ClosedStep(Later(s, init), g, last);
    }
  }

  /** A job nobody has published yet. */
  lemma {:induction false} NewJob(jobs: set<Job>) returns (job: Job)
    ensures job !in jobs
  {
    var top := MaxId(jobs);
    job := Job(top + 1, true);
  }

  lemma {:induction false} MaxId(jobs: set<Job>) returns (top: int)
    ensures forall j :: j in jobs ==> j.id <= top
  {
    if jobs == {} {
      top := 0;
    } else {
      var one := Inhabited(jobs);
      var rest := MaxId(jobs - {one});
      top := if rest > one.id then rest else one.id;
      forall j | j in jobs ensures j.id <= top {
        assert j == one || j in jobs - {one};
      }
    }
  }

  lemma ContinueOne(s: Sys, more: seq<Action>, a: Action)
    requires Continues(s, more) && Enabled(Later(s, more), a)
    ensures Continues(s, more + [a]) && Later(s, more + [a]) == Apply(Later(s, more), a)
  {
    assert (more + [a])[..|more|] == more;
  }

  /** A continuation that ends by starting a handler. */
  lemma StartsAgain(s: Sys, g: nat, more: seq<Action>, a: Action)
    requires Continues(s, more + [a]) && Starts(a, g) && forall b :: b in more ==> Spares(b, g)
    ensures !NeverStartsAgain(s, g)
  {
    var all := more + [a];
    assert a in all;
    assert forall b :: b in all ==> Spares(b, g);
  }

  /** A job is published, and then the actions of the loop lead to a handler for it. */
  lemma OpenFetchCanStart(s: Sys, g: nat, job: Job)
    requires g in s.agents && s.agents[g].loop == Fetching(true) && s.agents[g].handlers == map[] && job !in s.published
    ensures !NeverStartsAgain(s, g)
  {
    var publish, fetch := Publish(job), Fetch(g, 0, job);
    ContinueOne(s, [], publish);
    assert [] + [publish] == [publish];
    ContinueOne(s, [publish], fetch);
    StartsAgain(s, g, [publish], fetch);
  }

  lemma IdleLoopCanStart(s: Sys, g: nat, job: Job)
    requires g in s.agents && s.agents[g].loop == Idle && !s.agents[g].drained && s.agents[g].handlers == map[]
    requires s.agents[g].slots < s.agents[g].cap && job !in s.published
    ensures !NeverStartsAgain(s, g)
  {
    var publish, acquire, fetch := Publish(job), Acquire(g), Fetch(g, 0, job);
    ContinueOne(s, [], publish);
    assert [] + [publish] == [publish];
    ContinueOne(s, [publish], acquire);
    assert [publish] + [acquire] == [publish, acquire];
    ContinueOne(s, [publish, acquire], fetch);
    StartsAgain(s, g, [publish, acquire], fetch);
  }

  /**
   * "Drained, so no handler runs" holds of an agent whose wait group is at zero exactly when its
   * fetch loop has ended, or the drain has gone through and no fetch from before it is open: such a
   * fetch can start one more handler.
   */
  lemma DrainedIff(acts: seq<Action>, g: nat)
    requires IsRun(acts) && g in Exec(acts).agents && Exec(acts).agents[g].waiting == 0
    ensures NeverStartsAgain(Exec(acts), g) <==> Closed(Exec(acts).agents[g])
  {
    var s := Exec(acts);
    ZeroMeansSettled(acts, g);
    SlotsAndCountersHold(acts);
    if Closed(s.agents[g]) {
      forall more: seq<Action> | Continues(s, more) && (forall a :: a in more ==> Spares(a, g))
        ensures forall a :: a in more ==> !Starts(a, g)
      {
        ClosedStays(s, g, more);
      }
    } else {
      var job := NewJob(s.published);
      if s.agents[g].loop == Idle {
        IdleLoopCanStart(s, g, job);
      } else {
        OpenFetchCanStart(s, g, job);
      }
    }
  }

  lemma RunOneMore(acts: seq<Action>, a: Action)
    requires IsRun(acts) && Enabled(Exec(acts), a)
    ensures IsRun(acts + [a]) && Exec(acts + [a]) == Apply(Exec(acts), a)
  {
    assert (acts + [a])[..|acts|] == acts;
  }

  /** Such a fetch is real: a run has it open with the subscription drained and the wait group at zero. */
  lemma OpenAfterDrain(cfg: AgentConfig) returns (acts: seq<Action>)
    ensures IsRun(acts) && 0 in Exec(acts).agents
    ensures var ag := Exec(acts).agents[0];
            ag.waiting == 0 && ag.shuttingDown && ag.drained && !Closed(ag)
  {
    acts := OneFetching(cfg);
    RunOneMore(acts, Cancel(0));
    acts := acts + [Cancel(0)];
    RunOneMore(acts, FlagShutdown(0));
    acts := acts + [FlagShutdown(0)];
    RunOneMore(acts, Drain(0));
    acts := acts + [Drain(0)];
  }

  lemma OneFetching(cfg: AgentConfig) returns (acts: seq<Action>)
    ensures IsRun(acts) && Exec(acts).agents == map[0 := NewAgent(cfg).(loop := Fetching(true), slots := 1)]
  {
    RunOneMore([], Join(0, cfg));
    RunOneMore([] + [Join(0, cfg)], Acquire(0));
    acts := [] + [Join(0, cfg)] + [Acquire(0)];
  }
}
