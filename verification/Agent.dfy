/** The agent object: its heartbeat interval, its shutdown flag and its counters, changed in place. */
module Agents {
  import opened Common
  import opened Handling
  import Lease

  class Agent {
    const cfg: AgentConfig
    const slots: nat
    var heartbeatInterval: int
    var shuttingDown: bool
    var acked: nat
    var nacked: nat
    var dlq: nat
    var forwardFailures: nat

    ghost function Counts(): Counters
      reads this
    {
      Counters(acked, nacked, dlq, forwardFailures)
    }

    constructor (cfg: AgentConfig)
      ensures this.cfg == cfg && !shuttingDown && Counts() == Counters(0, 0, 0, 0)
      ensures slots >= 1 && (cfg.maxInFlight >= 1 ==> slots == cfg.maxInFlight)
      ensures heartbeatInterval == cfg.heartbeatInterval
    {
      this.cfg := cfg;
      slots := if cfg.maxInFlight <= 0 then 1 else cfg.maxInFlight;
      heartbeatInterval := cfg.heartbeatInterval;
      shuttingDown := false;
      acked, nacked, dlq, forwardFailures := 0, 0, 0, 0;
    }

    /** Binding to the consumer; `ackWait` is None when the consumer's settings could not be read. */
    method Subscribe(bound: bool, ackWait: Option<int>) returns (ok: bool)
      modifies this`heartbeatInterval
      ensures ok == bound
      ensures heartbeatInterval ==
                if bound && ackWait.Some? then Lease.Adjusted(old(heartbeatInterval), ackWait.value)
                else old(heartbeatInterval)
    {
      if !bound {
        return false;
      }
      if ackWait.Some? {
        var wait := ackWait.value;
        if wait > 0 && heartbeatInterval >= wait {
          var adjusted := wait / 3;
          if adjusted < Lease.SECOND {
            adjusted := Lease.SECOND;
          }
          heartbeatInterval := adjusted;
        }
      }
      return true;
    }

    /** The heartbeat goroutine of a handler that runs for `span`: one call an interval until it is stopped. */
    method Heartbeat(start: int, span: nat, ackWait: int, inProgress: nat -> bool) returns (lease: Lease.Status)
      ensures var used := Lease.Clamped(heartbeatInterval);
              used > 0 && lease == Lease.AfterBeats(start, used, ackWait, inProgress, Lease.BeatsIn(span, used))
    {
      var interval := heartbeatInterval;
      if interval <= 0 {
        interval := 5 * Lease.SECOND;
      }
      if interval < Lease.SECOND {
        interval := Lease.SECOND;
      }
      lease := Lease.Held(start + ackWait);
      var beats := 0;
      var next := start + interval;
      while next <= start + span
        invariant next == start + (beats + 1) * interval && beats * interval <= span
        invariant lease == Lease.AfterBeats(start, interval, ackWait, inProgress, beats)
        decreases start + span - next
      {
        beats := beats + 1;
        Lease.Distribute(beats, 1, interval);
        lease := Lease.Beat(lease, next, inProgress(beats), ackWait);
        next := next + interval;
      }
      Lease.BeatsAre(span, interval, beats);
    }

    method Nak(a: Answers) returns (events: seq<Event>)
      ensures events == NakEvents(cfg, a)
    {
      events := [];
      if cfg.retryDelay > 0 {
        events := events + [NakedLater(a.nakLaterOk)];
        if a.nakLaterOk {
          return;
        }
      }
      events := events + [Naked(a.nakOk)];
    }

    /** Input that is not JSON goes to the dead-letter queue; its ack is counted whether or not the call succeeds. */
    method RejectInvalid(a: Answers) returns (events: seq<Event>)
      modifies this`acked, this`nacked, this`dlq
      ensures events == DeadLetter(cfg, a)
      ensures Counts() == if a.dlqOk then old(Counts()).(dlq := old(dlq) + 1, acked := old(acked) + 1)
                          else old(Counts()).(nacked := old(nacked) + 1)
    {
      events := [DeadLettered(a.dlqOk)];
      if !a.dlqOk {
        var naks := Nak(a);
        events := events + naks;
        nacked := nacked + 1;
        return;
      }
      dlq := dlq + 1;
      events := events + [Acked(a.ackOk)];
      acked := acked + 1;
    }

    method AckDelivered(a: Answers) returns (events: seq<Event>)
      modifies this`acked
      ensures events == [Acked(a.ackOk)]
      ensures acked == if a.ackOk then old(acked) + 1 else old(acked)
    {
      events := [Acked(a.ackOk)];
      if !a.ackOk {
        return;
      }
      acked := acked + 1;
    }

    /** A message that could not be delivered: dead-letter queue first, handed back if that fails. */
    method GiveUp(a: Answers) returns (events: seq<Event>)
      modifies this`acked, this`nacked, this`dlq
      ensures events == DeadLetter(cfg, a)
      ensures Counts() ==
                if !a.dlqOk then old(Counts()).(nacked := old(nacked) + 1)
                else old(Counts()).(dlq := old(dlq) + 1, acked := old(acked) + if a.ackOk then 1 else 0)
    {
      events := [DeadLettered(a.dlqOk)];
      if !a.dlqOk {
        var naks := Nak(a);
        events := events + naks;
        nacked := nacked + 1;
        return;
      }
      dlq := dlq + 1;
      var ack := AckDelivered(a);
      events := events + ack;
    }

    /** The retry loop: forward until the reply is decisive or the attempts are used up. */
    method ForwardWithRetries(replies: nat -> Reply) returns (events: seq<Event>, delivered: bool, ghost elapsed: int)
      modifies this`forwardFailures
      ensures var n := LastAttempt(cfg, replies, 1);
              && events == Forwards(replies, n) && delivered == IsSuccess(replies(n))
              && elapsed == ForwardTime(cfg, replies, n)
              && forwardFailures == old(forwardFailures) + if delivered then n - 1 else n
    {
      var maxAttempts := cfg.maxDeliver;
      if maxAttempts <= 0 {
        maxAttempts := 1;
      }
      events, elapsed := [], 0;
      var attempt := 1;
      while attempt <= maxAttempts
        invariant 1 <= attempt <= maxAttempts == Limit(cfg)
        invariant LastAttempt(cfg, replies, 1) == LastAttempt(cfg, replies, attempt)
        invariant events == Forwards(replies, attempt - 1)
        invariant elapsed == if attempt == 1 then 0 else ForwardTime(cfg, replies, attempt - 1) + Pause(cfg)
        invariant forwardFailures == old(forwardFailures) + attempt - 1
        decreases maxAttempts - attempt
      {
        var reply := replies(attempt);
        events := events + [Forwarded(reply)];
        elapsed := elapsed + reply.took;
        if reply.Response? && reply.status >= 200 && reply.status < 300 {
          return events, true, elapsed;
        }
        forwardFailures := forwardFailures + 1;
        if IsNonRetryable(StatusOf(reply)) {
          return events, false, elapsed;
        }
        if attempt >= maxAttempts {
          return events, false, elapsed;
        }
        if cfg.retryDelay > 0 {
          elapsed := elapsed + cfg.retryDelay;
        }
        attempt := attempt + 1;
      }
    }

    /** Handling one message: the calls made, the counters, and how long forwarding took. */
    method ProcessMessage(valid: bool, replies: nat -> Reply, a: Answers)
      returns (events: seq<Event>, ghost elapsed: int)
      modifies this`acked, this`nacked, this`dlq, this`forwardFailures
      ensures events == Handle(cfg, shuttingDown, valid, replies, a)
      ensures Counts() == Counted(cfg, shuttingDown, valid, replies, a, old(Counts()))
      ensures !shuttingDown && valid ==> elapsed == ForwardTime(cfg, replies, LastAttempt(cfg, replies, 1))
    {
      elapsed := 0;
      if shuttingDown {
        events := Nak(a);
        nacked := nacked + 1;
        return;
      }
      if !valid {
        events := RejectInvalid(a);
        return;
      }
      var delivered: bool;
      var end: seq<Event>;
      events, delivered, elapsed := ForwardWithRetries(replies);
      if delivered {
        end := AckDelivered(a);
      } else {
        end := GiveUp(a);
      }
      events := events + end;
    }
  }
}
