/** What handling one message does: the calls it makes, in order, as a function of the answers it gets. */
module Handling {
  datatype AgentConfig = AgentConfig(httpTimeout: int, maxInFlight: int, heartbeatInterval: int,
                                     maxDeliver: int, retryDelay: int)

  /** What a forward attempt came back with, and how long it took. */
  datatype Reply = Response(status: int, took: int) | NetworkError(took: int)

  function StatusOf(r: Reply): int {
    if r.Response? then r.status else 0
  }

  /** Section 15.3 of RFC 9110. */
  predicate IsSuccess(r: Reply) {
    r.Response? && 200 <= r.status < 300
  }

  /** Section 15.5 of RFC 9110. */
  predicate IsNonRetryable(status: int) {
    400 <= status < 500
  }

  predicate IsDecisive(r: Reply) {
    IsSuccess(r) || IsNonRetryable(StatusOf(r))
  }

  function Limit(cfg: AgentConfig): nat {
    if cfg.maxDeliver <= 0 then 1 else cfg.maxDeliver
  }

  /** How the calls that settle a message are answered. */
  datatype Answers = Answers(dlqOk: bool, ackOk: bool, nakLaterOk: bool, nakOk: bool)

  /** A call the handler makes. */
  datatype Event =
    | Forwarded(reply: Reply)
    | DeadLettered(ok: bool)
    | Acked(ok: bool)
    | NakedLater(ok: bool)
    | Naked(ok: bool)

  /** The number of the last attempt, counting on from `k`. */
  function LastAttempt(cfg: AgentConfig, replies: nat -> Reply, k: nat): (n: nat)
    ensures k <= n
    decreases Limit(cfg) - k
  {
    if k >= Limit(cfg) || IsDecisive(replies(k)) then k else LastAttempt(cfg, replies, k + 1)
  }

  /**
   * Attempts are numbered from 1. The handler stops at the earliest reply with a status in 200..299
   * or 400..499, or after as many attempts as are configured, at least one, and at nothing else.
   */
  lemma {:induction false} LastAttemptIff(cfg: AgentConfig, replies: nat -> Reply, k: nat, n: nat)
    requires 1 <= k <= (if cfg.maxDeliver >= 1 then cfg.maxDeliver else 1)
    ensures n == LastAttempt(cfg, replies, k) <==>
              && k <= n <= (if cfg.maxDeliver >= 1 then cfg.maxDeliver else 1)
              && (n == (if cfg.maxDeliver >= 1 then cfg.maxDeliver else 1)
                  || (replies(n).Response? && (200 <= replies(n).status <= 299 || 400 <= replies(n).status <= 499)))
              && forall j: nat :: k <= j < n && replies(j).Response? ==>
                   !(200 <= replies(j).status <= 299) && !(400 <= replies(j).status <= 499)
    decreases Limit(cfg) - k
  {
    if k < Limit(cfg) && !IsDecisive(replies(k)) {
      LastAttemptIff(cfg, replies, k + 1, n);
    }
  }

  function Forwards(replies: nat -> Reply, n: nat): seq<Event> {
    if n == 0 then [] else Forwards(replies, n - 1) + [Forwarded(replies(n))]
  }

  function NakEvents(cfg: AgentConfig, a: Answers): seq<Event> {
    if cfg.retryDelay > 0 then
      if a.nakLaterOk then [NakedLater(true)] else [NakedLater(false), Naked(a.nakOk)]
    else [Naked(a.nakOk)]
  }

  function DeadLetter(cfg: AgentConfig, a: Answers): seq<Event> {
    if a.dlqOk then [DeadLettered(true), Acked(a.ackOk)] else [DeadLettered(false)] + NakEvents(cfg, a)
  }

  /** How a forwarded message ends. */
  function Ending(cfg: AgentConfig, success: bool, a: Answers): seq<Event> {
    if success then [Acked(a.ackOk)] else DeadLetter(cfg, a)
  }

  /** Everything a handler does. */
  function Handle(cfg: AgentConfig, shuttingDown: bool, valid: bool, replies: nat -> Reply, a: Answers): seq<Event> {
    if shuttingDown then NakEvents(cfg, a)
    else if !valid then DeadLetter(cfg, a)
    else
      var n := LastAttempt(cfg, replies, 1);
      Forwards(replies, n) + Ending(cfg, IsSuccess(replies(n)), a)
  }

  // -------------------------------------------------------------- counters

  datatype Counters = Counters(acked: nat, nacked: nat, dlq: nat, failures: nat)

  /** An ack whose call failed is counted only after invalid input. */
  function Counted(cfg: AgentConfig, shuttingDown: bool, valid: bool, replies: nat -> Reply, a: Answers,
                   c: Counters): Counters {
    if shuttingDown then c.(nacked := c.nacked + 1)
    else if !valid then
      if a.dlqOk then c.(dlq := c.dlq + 1, acked := c.acked + 1) else c.(nacked := c.nacked + 1)
    else
      var n := LastAttempt(cfg, replies, 1);
      var acked := if a.ackOk then c.acked + 1 else c.acked;
      if IsSuccess(replies(n)) then c.(failures := c.failures + (n - 1), acked := acked)
      else
        var f := c.(failures := c.failures + n);
        if a.dlqOk then f.(dlq := c.dlq + 1, acked := acked) else f.(nacked := c.nacked + 1)
  }

  function CountEvents(events: seq<Event>, p: Event -> bool): nat {
    if events == [] then 0
    else CountEvents(events[..|events| - 1], p) + if p(events[|events| - 1]) then 1 else 0
  }

  predicate IsForward(e: Event) { e.Forwarded? }
  predicate IsFailure(e: Event) {
    e.Forwarded? && !(e.reply.Response? && 200 <= e.reply.status <= 299)
  }
  predicate IsAck(e: Event) { e.Acked? }
  predicate IsStored(e: Event) { e == DeadLettered(true) }
  predicate IsFinalNak(e: Event) { e.Naked? || e == NakedLater(true) }

  /**
   * Giving a message back: with a retry delay it is given back with that delay, and plainly only if
   * that call fails; without one, plainly.
   */
  lemma NakOrder(cfg: AgentConfig, a: Answers)
    ensures var e := NakEvents(cfg, a);
            && (cfg.retryDelay > 0 && a.nakLaterOk ==> e == [NakedLater(true)])
            && (cfg.retryDelay > 0 && !a.nakLaterOk ==> e == [NakedLater(false), Naked(a.nakOk)])
            && (cfg.retryDelay <= 0 ==> e == [Naked(a.nakOk)])
  {
  }

  /** A dead letter comes first; the ack follows only if it was stored, and otherwise the message is given back. */
  lemma DeadLetterOrder(cfg: AgentConfig, a: Answers)
    ensures var e := DeadLetter(cfg, a);
            if a.dlqOk then e == [DeadLettered(true), Acked(a.ackOk)]
            else e[0] == DeadLettered(false) && e[1..] == NakEvents(cfg, a)
  {
  }

  /**
   * What a handler does with a message, in order: nothing but giving it back once shutdown is
   * flagged; a dead letter for invalid input; and otherwise as many forwards as it takes, with the
   * replies they got, and then an ack if the last reply is a 2xx, or else a dead letter.
   */
  lemma HandleOrder(cfg: AgentConfig, shuttingDown: bool, valid: bool, replies: nat -> Reply, a: Answers)
    ensures var e := Handle(cfg, shuttingDown, valid, replies, a);
            var n := LastAttempt(cfg, replies, 1);
            && (shuttingDown ==> e == NakEvents(cfg, a))
            && (!shuttingDown && !valid ==> e == DeadLetter(cfg, a))
            && (!shuttingDown && valid ==>
                  && |e| > n && (forall k: nat :: k < n ==> e[k] == Forwarded(replies(k + 1)))
                  && e[n..] == if replies(n).Response? && 200 <= replies(n).status <= 299 then [Acked(a.ackOk)]
                               else DeadLetter(cfg, a))
  {
    var n := LastAttempt(cfg, replies, 1);
    ForwardsAre(replies, n);
    var end := Ending(cfg, IsSuccess(replies(n)), a);
    assert (Forwards(replies, n) + end)[n..] == end;
  }

  lemma {:induction false} CountAppend(s: seq<Event>, t: seq<Event>, p: Event -> bool)
    ensures CountEvents(s + t, p) == CountEvents(s, p) + CountEvents(t, p)
  {
    if t == [] {
      assert s + t == s;
    } else {
      var last := |t| - 1;
      CountAppend(s, t[..last], p);
      assert (s + t)[..|s + t| - 1] == s + t[..last];
    }
  }

  lemma CountOneMore(s: seq<Event>, e: Event, p: Event -> bool)
    ensures CountEvents(s + [e], p) == CountEvents(s, p) + if p(e) then 1 else 0
  {
    assert (s + [e])[..|s + [e]| - 1] == s;
  }

  /** The forward phase makes one call an attempt, and all but a final success are failures. */
  lemma {:induction false} ForwardsCount(replies: nat -> Reply, n: nat)
    requires forall j: nat :: 1 <= j < n ==> !IsSuccess(replies(j))
    ensures var e := Forwards(replies, n);
            && CountEvents(e, IsForward) == n
            && CountEvents(e, IsFailure) == (if n > 0 && IsSuccess(replies(n)) then n - 1 else n)
            && CountEvents(e, IsAck) == CountEvents(e, IsStored) == CountEvents(e, IsFinalNak) == 0
  {
    if n > 0 {
      var init, e := Forwards(replies, n - 1), Forwarded(replies(n));
      ForwardsCount(replies, n - 1);
      CountOneMore(init, e, IsForward);
      CountOneMore(init, e, IsFailure);
      CountOneMore(init, e, IsAck);
      CountOneMore(init, e, IsStored);
      CountOneMore(init, e, IsFinalNak);
    }
  }

  lemma TailCounts(cfg: AgentConfig, a: Answers)
    ensures var e := DeadLetter(cfg, a);
            && CountEvents(e, IsForward) == CountEvents(e, IsFailure) == 0
            && CountEvents(e, IsAck) == CountEvents(e, IsStored) == (if a.dlqOk then 1 else 0)
            && CountEvents(e, IsFinalNak) == (if a.dlqOk then 0 else 1)
    ensures var e := NakEvents(cfg, a);
            && CountEvents(e, IsForward) == CountEvents(e, IsFailure) == CountEvents(e, IsAck)
                == CountEvents(e, IsStored) == 0
            && CountEvents(e, IsFinalNak) == 1
  {
    CountAppend([DeadLettered(false)], NakEvents(cfg, a), IsForward);
    CountAppend([DeadLettered(false)], NakEvents(cfg, a), IsFailure);
    CountAppend([DeadLettered(false)], NakEvents(cfg, a), IsAck);
    CountAppend([DeadLettered(false)], NakEvents(cfg, a), IsStored);
    CountAppend([DeadLettered(false)], NakEvents(cfg, a), IsFinalNak);
  }

  lemma EndingCounts(cfg: AgentConfig, success: bool, a: Answers)
    ensures var e := Ending(cfg, success, a);
            && CountEvents(e, IsForward) == CountEvents(e, IsFailure) == 0
            && CountEvents(e, IsAck) == (if success || a.dlqOk then 1 else 0)
            && CountEvents(e, IsStored) == (if !success && a.dlqOk then 1 else 0)
            && CountEvents(e, IsFinalNak) == 1 - CountEvents(e, IsAck)
  {
    TailCounts(cfg, a);
    if success {
      assert CountEvents([], IsForward) == CountEvents([], IsFailure) == CountEvents([], IsAck) == 0;
      assert CountEvents([], IsStored) == CountEvents([], IsFinalNak) == 0;
      assert [Acked(a.ackOk)][..0] == [];
    }
  }

  lemma ForwardedCounts(cfg: AgentConfig, replies: nat -> Reply, a: Answers)
    ensures var n := LastAttempt(cfg, replies, 1);
            var e := Forwards(replies, n) + Ending(cfg, IsSuccess(replies(n)), a);
            var acks := if IsSuccess(replies(n)) || a.dlqOk then 1 else 0;
            && CountEvents(e, IsForward) == n
            && CountEvents(e, IsFailure) == (if IsSuccess(replies(n)) then n - 1 else n)
            && CountEvents(e, IsAck) == acks
            && CountEvents(e, IsStored) == (if !IsSuccess(replies(n)) && a.dlqOk then 1 else 0)
            && CountEvents(e, IsFinalNak) == 1 - acks
  {
    var n := LastAttempt(cfg, replies, 1);
    var end := Ending(cfg, IsSuccess(replies(n)), a);
    LastAttemptIff(cfg, replies, 1, n);
    ForwardsCount(replies, n);
    EndingCounts(cfg, IsSuccess(replies(n)), a);
    CountAppend(Forwards(replies, n), end, IsForward);
    CountAppend(Forwards(replies, n), end, IsFailure);
    CountAppend(Forwards(replies, n), end, IsAck);
    CountAppend(Forwards(replies, n), end, IsStored);
    CountAppend(Forwards(replies, n), end, IsFinalNak);
  }

  /**
   * Every handler settles its message once: it acks it, after a 2xx reply or after storing it in
   * the dead-letter queue, or else it gives it back; and it forwards exactly as often as it should.
   */
  lemma SettlesOnce(cfg: AgentConfig, shuttingDown: bool, valid: bool, replies: nat -> Reply, a: Answers)
    ensures var e := Handle(cfg, shuttingDown, valid, replies, a);
            var n := LastAttempt(cfg, replies, 1);
            var forwards := !shuttingDown && valid;
            var delivered := forwards && replies(n).Response? && 200 <= replies(n).status <= 299;
            var stored := !shuttingDown && !delivered && a.dlqOk;
            && CountEvents(e, IsForward) == (if forwards then n else 0)
            && CountEvents(e, IsAck) == (if delivered || stored then 1 else 0)
            && CountEvents(e, IsStored) == (if stored then 1 else 0)
            && CountEvents(e, IsFinalNak) == 1 - CountEvents(e, IsAck)
  {
    TailCounts(cfg, a);
    ForwardedCounts(cfg, replies, a);
  }

  /**
   * The counters say what happened: failed attempts, stored messages, settled ones; only a failed
   * ack after a valid message goes uncounted.
   */
  lemma CountersAgree(cfg: AgentConfig, shuttingDown: bool, valid: bool, replies: nat -> Reply, a: Answers, c: Counters)
    ensures var e := Handle(cfg, shuttingDown, valid, replies, a);
            var c' := Counted(cfg, shuttingDown, valid, replies, a, c);
            && c'.failures - c.failures == CountEvents(e, IsFailure)
            && c'.dlq - c.dlq == CountEvents(e, IsStored)
            && c'.nacked - c.nacked == CountEvents(e, IsFinalNak)
            && c'.acked - c.acked == (if a.ackOk || (!shuttingDown && !valid) then CountEvents(e, IsAck) else 0)
  {
    TailCounts(cfg, a);
    ForwardedCounts(cfg, replies, a);
  }

  /** An ack comes right after what justifies it: a 2xx reply or a stored dead letter. */
  lemma AcksAreEarned(cfg: AgentConfig, shuttingDown: bool, valid: bool, replies: nat -> Reply, a: Answers, i: nat)
    requires i < |Handle(cfg, shuttingDown, valid, replies, a)|
    requires Handle(cfg, shuttingDown, valid, replies, a)[i].Acked?
    ensures i > 0
    ensures var before := Handle(cfg, shuttingDown, valid, replies, a)[i - 1];
            || before == DeadLettered(true)
            || (before.Forwarded? && before.reply.Response? && 200 <= before.reply.status <= 299)
  {
    if !shuttingDown && valid {
      var n := LastAttempt(cfg, replies, 1);
      ForwardsAre(replies, n);
      assert Forwards(replies, n)[n - 1] == Forwarded(replies(n));
    }
  }

  lemma {:induction false} ForwardsAre(replies: nat -> Reply, n: nat)
    ensures |Forwards(replies, n)| == n
    ensures forall k :: 0 <= k < n ==> Forwards(replies, n)[k] == Forwarded(replies(k + 1))
  {
    if n > 0 {
      ForwardsAre(replies, n - 1);
    }
  }

  // -------------------------------------------------------------- time

  function Pause(cfg: AgentConfig): nat {
    if cfg.retryDelay > 0 then cfg.retryDelay else 0
  }

  /** Time from the first forward call to the end of the n-th. */
  function ForwardTime(cfg: AgentConfig, replies: nat -> Reply, n: nat): int {
    if n == 0 then 0
    else if n == 1 then replies(1).took
    else ForwardTime(cfg, replies, n - 1) + Pause(cfg) + replies(n).took
  }

  /** What the attempts took, without the pauses. */
  function Took(replies: nat -> Reply, n: nat): int {
    if n == 0 then 0 else Took(replies, n - 1) + replies(n).took
  }

  /** Between any two attempts lies one pause, of the configured length if that is positive. */
  lemma {:induction false} ForwardTimeIs(cfg: AgentConfig, replies: nat -> Reply, n: nat)
    requires n >= 1
    ensures ForwardTime(cfg, replies, n) ==
              Took(replies, n) + (n - 1) * if cfg.retryDelay > 0 then cfg.retryDelay else 0
  {
    if n > 1 {
      ForwardTimeIs(cfg, replies, n - 1);
      OneMoreTimes(n - 2, if cfg.retryDelay > 0 then cfg.retryDelay else 0);
    } else {
      assert Took(replies, 0) == 0;
    }
  }

  lemma OneMoreTimes(n: nat, x: int)
    ensures (n + 1) * x == n * x + x
  {
  }

  /** With a client timeout, the forward phase is bounded by its attempts and the pauses between them. */
  lemma {:induction false} ForwardTimeBound(cfg: AgentConfig, replies: nat -> Reply, n: nat)
    requires cfg.httpTimeout > 0 && n >= 1
    requires forall k: nat :: 1 <= k <= n ==> replies(k).took <= cfg.httpTimeout
    ensures ForwardTime(cfg, replies, n) <=
              n * cfg.httpTimeout + (n - 1) * if cfg.retryDelay > 0 then cfg.retryDelay else 0
  {
    if n > 1 {
      ForwardTimeBound(cfg, replies, n - 1);
      OneMoreTimes(n - 1, cfg.httpTimeout);
      OneMoreTimes(n - 2, Pause(cfg));
    }
  }
}
