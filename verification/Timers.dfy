/**
 * A start-of-condition timer read at ticks, as the autoscaler keeps two of: armed by a tick, kept
 * while ticks allow it, cleared otherwise and whenever it fires. What its value means in terms of
 * the ticks alone.
 */
module Timers {
  import opened Common

  /** `need` is how long the condition must have held for this tick to fire. */
  datatype Tick = Tick(now: int, arm: bool, keep: bool, fire: bool, need: int)

  ghost function Step(since: Option<int>, t: Tick): Option<int> {
    if t.fire || !t.keep then None
    else if since.Some? then since
    else if t.arm then Some(t.now)
    else None
  }

  ghost function Timer(ticks: seq<Tick>): Option<int> {
    if ticks == [] then None else Step(Timer(ticks[..|ticks| - 1]), ticks[|ticks| - 1])
  }

  ghost predicate Monotone(ticks: seq<Tick>) {
    forall i, j :: 0 <= i <= j < |ticks| ==> ticks[i].now <= ticks[j].now
  }

  /** Armed at `s`, kept at every tick of [s, e), and no firing at any of them. */
  ghost predicate Window(ticks: seq<Tick>, s: nat, e: nat) {
    && s < e <= |ticks| && ticks[s].arm
    && forall j :: s <= j < e ==> ticks[j].keep && !ticks[j].fire
  }

  /** A running timer was started by the first tick of a window that reaches to the present. */
  lemma {:induction false} RunningMeansWindow(ticks: seq<Tick>) returns (s: nat)
    requires Timer(ticks).Some?
    ensures Window(ticks, s, |ticks|) && ticks[s].now == Timer(ticks).value
  {
    var init := ticks[..|ticks| - 1];
    if Timer(init).Some? {
      s := RunningMeansWindow(init);
      forall j | s <= j < |ticks| ensures ticks[j].keep && !ticks[j].fire {
        assert j < |init| ==> init[j] == ticks[j];
      }
    } else {
      s := |init|;
    }
  }

  /** A window that reaches to the present keeps the timer running since no later than its start. */
  lemma {:induction false} WindowMeansRunning(ticks: seq<Tick>, s: nat)
    requires Monotone(ticks) && Window(ticks, s, |ticks|)
    ensures Timer(ticks).Some? && Timer(ticks).value <= ticks[s].now
  {
    var init := ticks[..|ticks| - 1];
    if s < |init| {
      assert Window(init, s, |init|);
      WindowMeansRunning(init, s);
    } else if Timer(init).Some? {
      var s0 := RunningMeansWindow(init);
      assert ticks[s0].now <= ticks[s].now;
    }
  }

  /** What the firings needed in all. */
  ghost function Owed(ticks: seq<Tick>): int {
    if ticks == [] then 0
    else
      var last := ticks[|ticks| - 1];
      Owed(ticks[..|ticks| - 1]) + if last.fire then last.need else 0
  }

  ghost function Times(k: nat, d: int): int {
    if k == 0 then 0 else Times(k - 1, d) + d
  }

  lemma {:induction false} TimesIsProduct(k: nat, d: int)
    ensures Times(k, d) == k * d
  {
    if k > 0 {
      TimesIsProduct(k - 1, d);
      assert k * d == (k - 1) * d + d;
    }
  }

  ghost predicate Fires(ticks: seq<Tick>) {
    exists i :: 0 <= i < |ticks| && ticks[i].fire
  }

  /** Tick `i` ends a window as long as it needs in which no earlier tick fired. */
  ghost predicate EarnedBy(ticks: seq<Tick>, s: nat, i: nat) {
    && s <= i < |ticks| && ticks[i].now - ticks[s].now >= ticks[i].need
    && forall j :: s <= j < i ==> !ticks[j].fire
  }

  ghost predicate Earned(ticks: seq<Tick>, i: nat) {
    exists s: nat :: EarnedBy(ticks, s, i)
  }

  ghost predicate AllEarned(ticks: seq<Tick>) {
    forall i: nat :: i < |ticks| && ticks[i].fire ==> Earned(ticks, i)
  }

  lemma AllEarnedBefore(ticks: seq<Tick>)
    requires ticks != [] && AllEarned(ticks)
    ensures AllEarned(ticks[..|ticks| - 1])
  {
    var init := ticks[..|ticks| - 1];
    forall i: nat | i < |init| && init[i].fire ensures Earned(init, i) {
      assert ticks[i].fire && Earned(ticks, i);
      var s: nat :| EarnedBy(ticks, s, i);
      assert EarnedBy(init, s, i);
    }
  }

  lemma {:induction false} NothingOwed(ticks: seq<Tick>)
    requires !Fires(ticks)
    ensures Owed(ticks) == 0
  {
    if ticks != [] {
      var n := |ticks| - 1;
      assert forall i :: 0 <= i < n ==> ticks[..n][i] == ticks[i];
      NothingOwed(ticks[..n]);
    }
  }

  lemma FiresBefore(ticks: seq<Tick>)
    requires Fires(ticks) && !ticks[|ticks| - 1].fire
    ensures Fires(ticks[..|ticks| - 1])
  {
    var i :| 0 <= i < |ticks| && ticks[i].fire;
    assert ticks[..|ticks| - 1][i].fire;
  }

  /** If every firing is earned by a window of its own, the ticks span all that the firings needed. */
  lemma {:induction false} FiringsTakeTime(ticks: seq<Tick>) returns (last: nat)
    requires Monotone(ticks) && Fires(ticks) && AllEarned(ticks)
    ensures last < |ticks| && ticks[last].fire
    ensures forall j :: last < j < |ticks| ==> !ticks[j].fire
    ensures ticks[last].now - ticks[0].now >= Owed(ticks)
  {
    var n := |ticks| - 1;
    var init := ticks[..n];
    AllEarnedBefore(ticks);
    if !ticks[n].fire {
      FiresBefore(ticks);
      last := FiringsTakeTime(init);
      forall j | last < j < |ticks| ensures !ticks[j].fire {
        assert j < n ==> init[j] == ticks[j];
      }
    } else {
      last := n;
      assert Earned(ticks, n);
      var s: nat :| EarnedBy(ticks, s, n);
      if Fires(init) {
        var previous := FiringsTakeTime(init);
        NextFiring(ticks, previous, s);
      } else {
        NothingOwed(init);
      }
    }
  }

  /** The last firing's window starts after the firing before it. */
  lemma NextFiring(ticks: seq<Tick>, previous: nat, s: nat)
    requires ticks != [] && Monotone(ticks) && previous < |ticks| - 1 && ticks[previous].fire
    requires EarnedBy(ticks, s, |ticks| - 1)
    ensures ticks[|ticks| - 1].now >= ticks[previous].now + ticks[|ticks| - 1].need
  {
    assert previous < s;
  }
}
