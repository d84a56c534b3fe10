/**
 * Keeping a message: the heartbeat interval after both adjustments, and the lease it renews.
 * Durations are in nanoseconds.
 */
module Lease {
  const SECOND: int := 1_000_000_000

  /** The adjustment on subscribing: an interval not below the consumer's ack wait becomes a third of it. */
  function Adjusted(interval: int, ackWait: int): int {
    if ackWait > 0 && interval >= ackWait then
      var third := ackWait / 3;
      if third < SECOND then SECOND else third
    else interval
  }

  /** The adjustment on starting a heartbeat: a default for none, and never below a second. */
  function Clamped(interval: int): int {
    var chosen := if interval <= 0 then 5 * SECOND else interval;
    if chosen < SECOND then SECOND else chosen
  }

  function Effective(interval: int, ackWait: int): int {
    Clamped(Adjusted(interval, ackWait))
  }

  /**
   * When the consumer's ack wait could be read, the interval in use is below it exactly when the
   * ack wait is above a second, or above five seconds if no interval was configured.
   */
  lemma EffectiveBelowAckWaitIff(interval: int, ackWait: int)
    ensures Effective(interval, ackWait) < ackWait <==>
              if interval <= 0 then ackWait > 5 * SECOND else ackWait > SECOND
    ensures Effective(interval, ackWait) >= SECOND
  {
  }

  /**
   * The interval in use. One below the consumer's ack wait is kept, but not below a second; one that
   * is not is replaced by a third of the ack wait, but not below a second; none at all becomes five.
   */
  lemma EffectiveIs(interval: int, ackWait: int)
    requires ackWait > 0
    ensures interval <= 0 ==> Effective(interval, ackWait) == 5_000_000_000
    ensures 0 < interval < ackWait ==>
              Effective(interval, ackWait) == if interval < 1_000_000_000 then 1_000_000_000 else interval
    ensures interval >= ackWait ==>
              var used := Effective(interval, ackWait);
              if ackWait < 3_000_000_000 then used == 1_000_000_000
              else 3 * used <= ackWait < 3 * used + 3
  {
  }

  /** On subscribing only an interval that is not below the ack wait is changed. */
  lemma AdjustedIs(interval: int, ackWait: int)
    ensures ackWait <= 0 || interval < ackWait ==> Adjusted(interval, ackWait) == interval
    ensures ackWait > 0 && interval >= ackWait ==>
              var used := Adjusted(interval, ackWait);
              if ackWait < 3_000_000_000 then used == 1_000_000_000
              else 3 * used <= ackWait < 3 * used + 3
  {
  }

  // -------------------------------------------------------------- the lease

  datatype Status = Held(deadline: int) | Lost

  /** A heartbeat at time `t`: it renews the lease if its call succeeds, and comes too late for one that has run out. */
  function Beat(s: Status, t: int, ok: bool, ackWait: int): Status {
    if s == Lost || t >= s.deadline then Lost
    else if ok then Held(t + ackWait)
    else s
  }

  /** The lease after `k` heartbeats of a handler that got its message at `start`; `ok(i)` is the answer to the i-th. */
  ghost function AfterBeats(start: int, interval: int, ackWait: int, ok: nat -> bool, k: nat): Status {
    if k == 0 then Held(start + ackWait)
    else Beat(AfterBeats(start, interval, ackWait, ok, k - 1), start + k * interval, ok(k), ackWait)
  }

  /** How many heartbeats happen by the time the handler has run for `span`. */
  function BeatsIn(span: nat, interval: int): nat
    requires interval > 0
  {
    span / interval
  }

  /** The handler still owns its message when it has run for `span`. */
  ghost predicate OwnedAfter(start: int, interval: int, ackWait: int, ok: nat -> bool, span: nat)
    requires interval > 0
  {
    var s := AfterBeats(start, interval, ackWait, ok, BeatsIn(span, interval));
    s != Lost && start + span < s.deadline
  }

  /** One of the last `misses` + 1 heartbeats up to the k-th succeeded. */
  ghost predicate AnsweredLately(ok: nat -> bool, misses: nat, k: nat) {
    exists i: nat :: k - misses <= i <= k && ok(i)
  }

  /** Among any `misses` + 1 heartbeats in a row, one succeeds. */
  ghost predicate Answered(ok: nat -> bool, misses: nat) {
    forall k: nat :: k > misses ==> AnsweredLately(ok, misses, k)
  }

  /** The last heartbeat up to `k` that succeeded; 0 stands for the delivery itself. */
  ghost function LastAnswered(ok: nat -> bool, k: nat): nat {
    if k == 0 || ok(k) then k else LastAnswered(ok, k - 1)
  }

  lemma {:induction false} LastAnsweredIsRecent(ok: nat -> bool, misses: nat, k: nat)
    requires Answered(ok, misses)
    ensures k - misses <= LastAnswered(ok, k) <= k
  {
    if k > misses {
      assert AnsweredLately(ok, misses, k);
      var i: nat :| k - misses <= i <= k && ok(i);
      LastAnsweredAfter(ok, i, k);
    } else {
      LastAnsweredAfter(ok, 0, k);
    }
  }

  lemma {:induction false} LastAnsweredAfter(ok: nat -> bool, i: nat, k: nat)
    requires i <= k && (i == 0 || ok(i))
    ensures i <= LastAnswered(ok, k) <= k
    decreases k
  {
    if i < k && !ok(k) {
      LastAnsweredAfter(ok, i, k - 1);
    }
  }

  lemma Scale(a: int, b: int, c: int)
    requires a <= b && c >= 0
    ensures a * c <= b * c
  {
  }

  lemma Distribute(a: int, b: int, c: int)
    ensures (a + b) * c == a * c + b * c
  {
  }

  lemma BeatsBound(span: nat, interval: int)
    requires interval > 0
    ensures BeatsIn(span, interval) * interval <= span < (BeatsIn(span, interval) + 1) * interval
  {
  }

  lemma BeatsAre(span: nat, interval: int, beats: nat)
    requires interval > 0 && beats * interval <= span < (beats + 1) * interval
    ensures beats == BeatsIn(span, interval)
  {
    BeatsBound(span, interval);
    if beats < BeatsIn(span, interval) {
      Scale(beats + 1, BeatsIn(span, interval), interval);
    } else if beats > BeatsIn(span, interval) {
      Scale(BeatsIn(span, interval) + 1, beats, interval);
    }
  }

  /** A time within `misses` + 1 intervals of the last answered heartbeat is before the deadline. */
  lemma WithinReach(last: nat, k: nat, misses: nat, interval: int, ackWait: int)
    requires interval > 0 && (misses + 1) * interval < ackWait && k <= last + misses
    ensures (k + 1) * interval < last * interval + ackWait
  {
    Scale(k + 1, last + (misses + 1), interval);
    Distribute(last, misses + 1, interval);
  }

  /** While misses stay short enough, the deadline is an ack wait after the last answered heartbeat. */
  lemma {:induction false} DeadlineIs(start: int, interval: int, ackWait: int, ok: nat -> bool, misses: nat, k: nat)
    requires interval > 0 && (misses + 1) * interval < ackWait && Answered(ok, misses)
    ensures AfterBeats(start, interval, ackWait, ok, k) == Held(start + LastAnswered(ok, k) * interval + ackWait)
  {
    if k > 0 {
      DeadlineIs(start, interval, ackWait, ok, misses, k - 1);
      LastAnsweredIsRecent(ok, misses, k - 1);
      WithinReach(LastAnswered(ok, k - 1), k - 1, misses, interval, ackWait);
    }
  }

  /**
   * With an interval that leaves room for the missed heartbeats, a handler keeps its message for
   * any handling time: with none missed, it is enough that the interval is below the ack wait.
   */
  lemma OwnedForever(start: int, interval: int, ackWait: int, ok: nat -> bool, misses: nat, span: nat)
    requires interval > 0 && (misses + 1) * interval < ackWait && Answered(ok, misses)
    ensures OwnedAfter(start, interval, ackWait, ok, span)
  {
    var k := BeatsIn(span, interval);
    DeadlineIs(start, interval, ackWait, ok, misses, k);
    LastAnsweredIsRecent(ok, misses, k);
    WithinReach(LastAnswered(ok, k), k, misses, interval, ackWait);
    BeatsBound(span, interval);
  }

  function Always(k: nat): bool {
    true
  }

  ghost predicate OwnedUnmissed(start: int, interval: int, ackWait: int, span: nat)
    requires interval > 0
  {
    OwnedAfter(start, interval, ackWait, Always, span)
  }

  /**
   * With every heartbeat answered, ownership lasts for every handling time exactly when the
   * interval is below the ack wait.
   */
  lemma OwnedForeverIff(start: int, interval: int, ackWait: int)
    requires interval > 0 && ackWait > 0
    ensures (forall span: nat :: OwnedUnmissed(start, interval, ackWait, span)) <==> interval < ackWait
  {
    if interval < ackWait {
      forall k: nat | k > 0 ensures AnsweredLately(Always, 0, k) {
        assert Always(k);
      }
      forall span: nat ensures OwnedUnmissed(start, interval, ackWait, span) {
        OwnedForever(start, interval, ackWait, Always, 0, span);
      }
    } else {
      NoBeatBefore(interval, ackWait);
      assert AfterBeats(start, interval, ackWait, Always, 0) == Held(start + ackWait);
      assert interval == ackWait ==> AfterBeats(start, interval, ackWait, Always, 1) == Lost;
      assert !OwnedUnmissed(start, interval, ackWait, ackWait);
    }
  }

  lemma NoBeatBefore(interval: int, ackWait: int)
    requires interval >= ackWait > 0
    ensures BeatsIn(ackWait, interval) == if interval == ackWait then 1 else 0
  {
  }

  /**
   * The interval the agent ends up with keeps a message for any handling time and any number of
   * retries exactly when the ack wait leaves the smallest or default interval room.
   */
  lemma AgentKeepsMessageIff(start: int, interval: int, ackWait: int)
    requires ackWait > 0
    ensures var used := Effective(interval, ackWait);
            used > 0 && ((forall span: nat :: OwnedUnmissed(start, used, ackWait, span)) <==>
                           if interval <= 0 then ackWait > 5 * SECOND else ackWait > SECOND)
  {
    EffectiveBelowAckWaitIff(interval, ackWait);
    OwnedForeverIff(start, Effective(interval, ackWait), ackWait);
  }

  /**
   * An interval that had to be adjusted also survives any isolated failed heartbeat, if the ack
   * wait is above three seconds.
   */
  lemma AdjustedSurvivesIsolatedFailures(start: int, interval: int, ackWait: int, ok: nat -> bool, span: nat)
    requires ackWait >= 3 * SECOND && interval >= ackWait && Answered(ok, 1)
    ensures var used := Effective(interval, ackWait);
            used > 0 && OwnedAfter(start, used, ackWait, ok, span)
  {
    OwnedForever(start, Effective(interval, ackWait), ackWait, ok, 1, span);
  }
}
