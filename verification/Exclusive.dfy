/**
 * The delivery system with time and leases: a queued job is handed out again only when its lease has
 * run out or was given back, and every running handler renews its lease once an interval. Whether a
 * job is ever with two handlers at once is then a matter of the interval alone.
 */
module Exclusive {
  import opened Handling
  import opened Delivery
  import Lease

  datatype Who = Who(agent: nat, hid: nat)

  /** `deadline` holds the leases the server keeps; `next` is when a handler's next heartbeat is due. */
  datatype Timed = Timed(base: Sys, now: int, deadline: map<Job, int>, next: map<Who, int>)

  datatype Move = Do(act: Action) | Pass(d: nat) | Beat(who: Who)

  const BEGIN: Timed := Timed(EMPTY, 0, map[], map[])

  predicate Unsettled(s: Sys, w: Who) {
    HasHandler(s, w.agent, w.hid) && Handles(s.agents[w.agent].handlers[w.hid].pc)
  }

  function JobOf(s: Sys, w: Who): Job
    requires HasHandler(s, w.agent, w.hid)
  {
    s.agents[w.agent].handlers[w.hid].job
  }

  /** The handler has started its heartbeat. */
  predicate Beats(s: Sys, w: Who) {
    && Unsettled(s, w)
    && var h := s.agents[w.agent].handlers[w.hid];
       h.job.valid && !h.late && !h.pc.Started? && !h.pc.Validating?
  }

  /** No lease on the job is running. */
  predicate Free(t: Timed, job: Job) {
    job in t.deadline ==> t.deadline[job] <= t.now
  }

  /**
   * What decides about time: the consumer's ack wait, and how long after getting its message a
   * handler may take to start its heartbeat.
   */
  datatype Timing = Timing(ackWait: int, delay: nat)

  function Interval(cfg: AgentConfig, timing: Timing): int {
    Lease.Effective(cfg.heartbeatInterval, timing.ackWait)
  }

  /** Every heartbeat, the first one included, comes before the lease it renews has run out. */
  predicate LeavesRoom(cfg: AgentConfig, timing: Timing) {
    Interval(cfg, timing) + timing.delay < timing.ackWait
  }

  /**
   * All agents are configured alike. A heartbeat may come early but time does not pass it when it is
   * due: an interval after the one before, or after the start. A handler without one settles by then.
   */
  ghost predicate CanMove(cfg: AgentConfig, t: Timed, x: Move) {
    match x
    case Do(a) => Enabled(t.base, a) && (a.Join? ==> a.cfg == cfg) && (a.Fetch? ==> Free(t, a.job))
    case Pass(d) => forall w :: w in t.next && Unsettled(t.base, w) ==> t.now + d <= t.next[w]
    case Beat(v) => v in t.next && t.now <= t.next[v] && Beats(t.base, v)
  }

  /** The step gives the message back, which ends its lease. */
  predicate GivesBack(s: Sys, a: Action) {
    && a.TakeStep? && HasHandler(s, a.agent, a.hid) && a.input.ok
    && var pc := s.agents[a.agent].handlers[a.hid].pc;
       pc.NakingLater? || pc.Naking?
  }

  function Acted(cfg: AgentConfig, timing: Timing, t: Timed, a: Action): Timed
    requires Enabled(t.base, a)
  {
    var after := t.(base := Delivery.Apply(t.base, a));
    if a.Fetch? then
      after.(deadline := t.deadline[a.job := t.now + timing.ackWait],
             next := t.next[Who(a.agent, a.hid) := t.now + timing.delay + Interval(cfg, timing)])
    else if GivesBack(t.base, a) then
      after.(deadline := t.deadline - {JobOf(t.base, Who(a.agent, a.hid))})
    else after
  }

  ghost function Moved(cfg: AgentConfig, timing: Timing, t: Timed, x: Move): Timed
    requires CanMove(cfg, t, x)
  {
    match x
    case Do(a) => Acted(cfg, timing, t, a)
    case Pass(d) => t.(now := t.now + d)
    case Beat(v) =>
      t.(deadline := t.deadline[JobOf(t.base, v) := t.now + timing.ackWait],
          next := t.next[v := t.now + Interval(cfg, timing)])
  }

  ghost predicate IsTimedRun(cfg: AgentConfig, timing: Timing, moves: seq<Move>)
    decreases |moves|, 0
  {
    moves != [] ==>
      var init := moves[..|moves| - 1];
      IsTimedRun(cfg, timing, init) && CanMove(cfg, TimedExec(cfg, timing, init), moves[|moves| - 1])
  }

  ghost function TimedExec(cfg: AgentConfig, timing: Timing, moves: seq<Move>): Timed
    requires IsTimedRun(cfg, timing, moves)
    decreases |moves|, 1
  {
    if moves == [] then BEGIN
    else Moved(cfg, timing, TimedExec(cfg, timing, moves[..|moves| - 1]), moves[|moves| - 1])
  }

  // -------------------------------------------------------------- a timed run is a run

  ghost function Untimed(moves: seq<Move>): seq<Action> {
    if moves == [] then []
    else
      var last := moves[|moves| - 1];
      Untimed(moves[..|moves| - 1]) + if last.Do? then [last.act] else []
  }

  /** Leases only narrow what can happen: without its time, a timed run is a run of the delivery system. */
  lemma {:induction false} TimedRunIsRun(cfg: AgentConfig, timing: Timing, moves: seq<Move>)
    requires IsTimedRun(cfg, timing, moves)
    ensures IsRun(Untimed(moves)) && Exec(Untimed(moves)) == TimedExec(cfg, timing, moves).base
  {
    if moves != [] {
      var init, last := moves[..|moves| - 1], moves[|moves| - 1];
      TimedRunIsRun(cfg, timing, init);
      if last.Do? {
        assert (Untimed(init) + [last.act])[..|Untimed(init)|] == Untimed(init);
      } else {
        assert Untimed(init) + [] == Untimed(init);
      }
    }
  }

  // -------------------------------------------------------------- one handler at a time

  ghost predicate SameHandler(s: Sys, v: Who, w: Who) {
    Unsettled(s, v) && Unsettled(s, w) && JobOf(s, v) == JobOf(s, w) ==> v == w
  }

  /** No job is with two unsettled handlers, of one agent or of two. */
  ghost predicate OneHandlerEach(s: Sys) {
    forall v, w :: SameHandler(s, v, w)
  }

  /** Every unsettled handler's next heartbeat comes before its lease runs out. */
  ghost predicate InTime(t: Timed, w: Who) {
    Unsettled(t.base, w) ==>
      && w in t.next && JobOf(t.base, w) in t.deadline
      && t.now <= t.next[w] < t.deadline[JobOf(t.base, w)]
  }

  ghost predicate AllInTime(t: Timed) {
    OneHandlerEach(t.base) && forall w :: InTime(t, w)
  }

  /** An unsettled handler was one before, of the same job, or has just been started. */
  lemma WhereFrom(s: Sys, a: Action, w: Who)
    requires Enabled(s, a) && Unsettled(Delivery.Apply(s, a), w)
    ensures (Unsettled(s, w) && JobOf(Delivery.Apply(s, a), w) == JobOf(s, w)
        && !(a.Fetch? && w == Who(a.agent, a.hid)))
            || (a.Fetch? && w == Who(a.agent, a.hid) && JobOf(Delivery.Apply(s, a), w) == a.job)
  {
  }

  /** A handler that gives its message back is settled by that. */
  lemma GivingBackSettles(s: Sys, a: Action)
    requires Enabled(s, a) && GivesBack(s, a)
    ensures !Unsettled(Delivery.Apply(s, a), Who(a.agent, a.hid)) && Unsettled(s, Who(a.agent, a.hid))
  {
  }

  lemma FreeMeansUnhandled(t: Timed, job: Job, w: Who)
    requires AllInTime(t) && Free(t, job) && Unsettled(t.base, w)
    ensures JobOf(t.base, w) != job
  {
    assert InTime(t, w);
  }

  lemma OneHandlerStep(t: Timed, a: Action)
    requires AllInTime(t) && Enabled(t.base, a) && (a.Fetch? ==> Free(t, a.job))
    ensures OneHandlerEach(Delivery.Apply(t.base, a))
  {
    var s' := Delivery.Apply(t.base, a);
    forall v, w ensures SameHandler(s', v, w) {
      if Unsettled(s', v) && Unsettled(s', w) {
        WhereFrom(t.base, a, v);
        WhereFrom(t.base, a, w);
        assert SameHandler(t.base, v, w);
        if Unsettled(t.base, v) && a.Fetch? {
          FreeMeansUnhandled(t, a.job, v);
        }
        if Unsettled(t.base, w) && a.Fetch? {
          FreeMeansUnhandled(t, a.job, w);
        }
      }
    }
  }

  lemma ActionInTime(cfg: AgentConfig, timing: Timing, t: Timed, a: Action, w: Who)
    requires AllInTime(t) && CanMove(cfg, t, Do(a)) && LeavesRoom(cfg, timing)
    ensures InTime(Acted(cfg, timing, t, a), w)
  {
    var s' := Delivery.Apply(t.base, a);
    if Unsettled(s', w) {
      WhereFrom(t.base, a, w);
      assert InTime(t, w);
      if a.Fetch? {
        if Unsettled(t.base, w) {
          FreeMeansUnhandled(t, a.job, w);
        }
      } else if GivesBack(t.base, a) {
        GivingBackSettles(t.base, a);
        assert SameHandler(t.base, w, Who(a.agent, a.hid));
      }
    }
  }

  lemma MoveInTime(cfg: AgentConfig, timing: Timing, t: Timed, x: Move)
    requires AllInTime(t) && CanMove(cfg, t, x) && LeavesRoom(cfg, timing)
    ensures AllInTime(Moved(cfg, timing, t, x))
  {
    var t' := Moved(cfg, timing, t, x);
    match x {
      case Do(a) =>
        OneHandlerStep(t, a);
        forall w ensures InTime(t', w) {
          ActionInTime(cfg, timing, t, a, w);
        }
      case Pass(_) =>
        forall w ensures InTime(t', w) {
          assert InTime(t, w);
        }
      case Beat(v) =>
        forall w ensures InTime(t', w) {
          assert InTime(t, w) && SameHandler(t.base, v, w);
        }
    }
  }

  lemma {:induction false} OneHandlerOverRuns(cfg: AgentConfig, timing: Timing, moves: seq<Move>)
    requires LeavesRoom(cfg, timing) && IsTimedRun(cfg, timing, moves)
    ensures AllInTime(TimedExec(cfg, timing, moves))
  {
    if moves != [] {
      var init := moves[..|moves| - 1];
      OneHandlerOverRuns(cfg, timing, init);
      MoveInTime(cfg, timing, TimedExec(cfg, timing, init), moves[|moves| - 1]);
    }
  }

  // -------------------------------------------------------------- when the interval is too long

  lemma MoveOn(cfg: AgentConfig, timing: Timing, moves: seq<Move>, t: Timed, x: Move)
    returns (more: seq<Move>, t': Timed)
    requires IsTimedRun(cfg, timing, moves) && TimedExec(cfg, timing, moves) == t && CanMove(cfg, t, x)
    ensures IsTimedRun(cfg, timing, more) && TimedExec(cfg, timing, more) == t' == Moved(cfg, timing, t, x)
  {
    more, t' := moves + [x], Moved(cfg, timing, t, x);
    assert more[..|moves|] == moves;
  }

  const ONE: Job := Job(1, true)

  /** An agent joins and takes a slot. */
  lemma Pull(cfg: AgentConfig, timing: Timing, moves: seq<Move>, t: Timed, g: nat) returns (more: seq<Move>, t': Timed)
    requires IsTimedRun(cfg, timing, moves) && TimedExec(cfg, timing, moves) == t && g !in t.base.agents
    ensures IsTimedRun(cfg, timing, more) && TimedExec(cfg, timing, more) == t'
    ensures t' == t.(base := t.base.(agents := t.base.agents[g := NewAgent(cfg).(loop := Fetching(true), slots := 1)]))
  {
    JoinAndAcquire(cfg, t.base, g);
    var m1, t1 := MoveOn(cfg, timing, moves, t, Do(Join(g, cfg)));
    more, t' := MoveOn(cfg, timing, m1, t1, Do(Acquire(g)));
  }

  lemma JoinAndAcquire(cfg: AgentConfig, s: Sys, g: nat)
    requires g !in s.agents
    ensures var s1 := Delivery.Apply(s, Join(g, cfg));
            && Enabled(s1, Acquire(g))
            && Delivery.Apply(s1, Acquire(g)) ==
                 s.(agents := s.agents[g := NewAgent(cfg).(loop := Fetching(true), slots := 1)])
  {
    var ready := NewAgent(cfg).(loop := Fetching(true), slots := 1);
    assert s.agents[g := NewAgent(cfg)][g := ready] == s.agents[g := ready];
  }

  /** What an agent that takes the job changes. */
  ghost predicate Took(cfg: AgentConfig, timing: Timing, t: Timed, t': Timed, g: nat) {
    && Unsettled(t'.base, Who(g, 0)) && JobOf(t'.base, Who(g, 0)) == ONE
    && t'.base.queue == t.base.queue && t'.base.agents.Keys == t.base.agents.Keys
    && (forall f :: f in t.base.agents && f != g ==> t'.base.agents[f] == t.base.agents[f])
    && t'.now == t.now && t'.deadline == t.deadline[ONE := t.now + timing.ackWait]
    && t'.next == t.next[Who(g, 0) := t.now + timing.delay + Interval(cfg, timing)]
  }

  lemma TakeGives(cfg: AgentConfig, timing: Timing, t: Timed, g: nat)
    requires g in t.base.agents && t.base.agents[g] == NewAgent(cfg).(loop := Fetching(true), slots := 1)
    requires ONE in t.base.queue && Free(t, ONE)
    ensures CanMove(cfg, t, Do(Fetch(g, 0, ONE)))
    ensures Took(cfg, timing, t, Moved(cfg, timing, t, Do(Fetch(g, 0, ONE))), g)
  {
    FetchHands(t.base, g, NewAgent(cfg).(loop := Fetching(true), slots := 1));
  }

  /** It then gets the job, if its lease has run out. */
  lemma Take(cfg: AgentConfig, timing: Timing, moves: seq<Move>, t: Timed, g: nat) returns (more: seq<Move>, t': Timed)
    requires IsTimedRun(cfg, timing, moves) && TimedExec(cfg, timing, moves) == t
    requires g in t.base.agents && t.base.agents[g] == NewAgent(cfg).(loop := Fetching(true), slots := 1)
    requires ONE in t.base.queue && Free(t, ONE)
    ensures IsTimedRun(cfg, timing, more) && TimedExec(cfg, timing, more) == t' && Took(cfg, timing, t, t', g)
  {
    TakeGives(cfg, timing, t, g);
    more, t' := MoveOn(cfg, timing, moves, t, Do(Fetch(g, 0, ONE)));
  }

  lemma FetchHands(s: Sys, g: nat, ag: AgentState)
    requires g in s.agents && s.agents[g] == ag && ag.loop == Fetching(true) && ag.handlers == map[] && ONE in s.queue
    ensures Enabled(s, Fetch(g, 0, ONE))
    ensures var s' := Delivery.Apply(s, Fetch(g, 0, ONE));
            && Unsettled(s', Who(g, 0)) && JobOf(s', Who(g, 0)) == ONE
            && s'.queue == s.queue && s'.agents.Keys == s.agents.Keys
            && forall f :: f in s.agents && f != g ==> s'.agents[f] == s.agents[f]
  {
  }

  /** When a heartbeat may come only after the lease has run out, two agents can have the same job. */
  lemma TwoHandlers(cfg: AgentConfig, timing: Timing) returns (moves: seq<Move>)
    requires timing.ackWait > 0 && !LeavesRoom(cfg, timing)
    ensures IsTimedRun(cfg, timing, moves) && !OneHandlerEach(TimedExec(cfg, timing, moves).base)
  {
    var m1, t1 := MoveOn(cfg, timing, [], BEGIN, Do(Publish(ONE)));
    var m2, t2 := Pull(cfg, timing, m1, t1, 0);
    var m3, t3 := Pull(cfg, timing, m2, t2, 1);
    var m4, t4 := Take(cfg, timing, m3, t3, 0);
    var m5, t5 := MoveOn(cfg, timing, m4, t4, Pass(timing.ackWait));
    var t6: Timed;
    moves, t6 := Take(cfg, timing, m5, t5, 1);
    assert Unsettled(t6.base, Who(0, 0));
    assert !SameHandler(t6.base, Who(0, 0), Who(1, 0));
  }

  ghost predicate AlwaysOneHandler(cfg: AgentConfig, timing: Timing) {
    forall moves: seq<Move> :: IsTimedRun(cfg, timing, moves) ==> OneHandlerEach(TimedExec(cfg, timing, moves).base)
  }

  /**
   * Over all timed runs of any number of agents, no job is ever with two handlers at once exactly
   * when the interval the agents end up with, and the time it takes to start a heartbeat, fit
   * together into the ack wait.
   */
  lemma OneHandlerIff(cfg: AgentConfig, timing: Timing)
    requires timing.ackWait > 0
    ensures AlwaysOneHandler(cfg, timing) <==>
              Lease.Effective(cfg.heartbeatInterval, timing.ackWait) + timing.delay < timing.ackWait
  {
    if LeavesRoom(cfg, timing) {
      forall moves: seq<Move> | IsTimedRun(cfg, timing, moves)
        ensures OneHandlerEach(TimedExec(cfg, timing, moves).base)
      {
        OneHandlerOverRuns(cfg, timing, moves);
      }
    } else {
      var moves := TwoHandlers(cfg, timing);
    }
  }

  /**
   * With heartbeats that start at once, that is when the ack wait leaves the smallest, or the
   * default, interval room.
   */
  lemma OneHandlerAtOnceIff(cfg: AgentConfig, ackWait: int)
    requires ackWait > 0
    ensures AlwaysOneHandler(cfg, Timing(ackWait, 0)) <==>
              if cfg.heartbeatInterval <= 0 then ackWait > 5 * Lease.SECOND else ackWait > Lease.SECOND
  {
    Lease.EffectiveBelowAckWaitIff(cfg.heartbeatInterval, ackWait);
    OneHandlerIff(cfg, Timing(ackWait, 0));
  }
}
