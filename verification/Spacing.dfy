/**
 * How far apart scale events are: in the sequential schedule, where every launched operation ends
 * before the next tick, and over all runs.
 */
module Spacing {
  import opened Common
  import opened Counting
  import opened Nodes
  import opened Scaling
  import opened Reconciliation
  import opened Operations
  import opened Interleaving
  import opened Reaching
  import opened Stall
  import Triggers

  /** Events in order, any two at least `gap` apart. */
  ghost predicate Spaced(events: seq<int>, gap: int) {
    forall i, j :: 0 <= i < j < |events| ==> events[i] <= events[j] && events[j] - events[i] >= gap
  }

  // -------------------------------------------------------------- one round

  /** The clock within a round, in the order its operations take. */
  predicate RoundInOrder(r: Round) {
    if r.downFirst then r.tick.now <= r.downAt <= r.downDone <= r.upAt
    else r.tick.now <= r.upAt <= r.downAt <= r.downDone
  }

  function RoundEnd(r: Round): int {
    if r.downFirst then r.upAt else r.downDone
  }

  /** The clock from one round to the next. */
  ghost predicate InOrder(rounds: seq<Round>) {
    && (forall i :: 0 <= i < |rounds| ==> RoundInOrder(rounds[i]))
    && (forall i, j :: 0 <= i < j < |rounds| ==> RoundEnd(rounds[i]) <= rounds[j].tick.now)
  }

  lemma {:induction false} WaitsRecordNothing(cfg: Config, c: Control, waits: seq<Waited>)
    ensures AfterWaits(cfg, c, waits).lastEvent == c.lastEvent
  {
    if waits != [] {
      WaitsRecordNothing(cfg, c, waits[..|waits| - 1]);
    }
  }

  ghost function LastOf(events: seq<int>, initial: Option<int>): Option<int> {
    if events == [] then initial else Some(events[|events| - 1])
  }

  /** The configurations in which a tick launches one way only, or the cooldown asks for nothing. */
  predicate OneWay(cfg: Config) {
    cfg.cooldown <= 0 || cfg.scaleUpThreshold >= 0 || cfg.maxNodes <= cfg.minNodes + 1
  }

  /** A tick records nothing, and launches only when the cooldown has passed. */
  lemma TickRecordsNothing(cfg: Config, c: Control, t: TickInput)
    requires Loaded(cfg)
    ensures var r := MonitorTick(cfg, c, t);
            && r.after.lastEvent == c.lastEvent
            && (r.up != NoLaunch || r.down.Some? ==> CanScale(cfg, c.lastEvent, t.now))
            && (OneWay(cfg) ==> cfg.cooldown <= 0 || r.up == NoLaunch || r.down == None)
  {
    if t.listing.Some? {
      var m := Reconcile(c.nodes, cfg.maxNodes, t.listing.value, t.now);
      if cfg.scaleUpThreshold >= 0 || cfg.maxNodes <= cfg.minNodes + 1 {
        LaunchesOneWay(cfg, m, c.lastEvent, c.upSince, c.downSince, t.pending, t.now);
      }
    }
  }

  lemma UpRecords(cfg: Config, c: Control, launch: UpLaunch, r: Round)
    ensures var up := PlayUp(cfg, c, launch, r);
            && up.after.lastEvent == LastOf(UpEvents(up.outcome, r), c.lastEvent)
            && (up.outcome.Added? ==> launch != NoLaunch)
  {
    ScaleUpIsAllOrNothing(cfg, c, r.created, r.name, r.upAt);
  }

  lemma DownRecords(cfg: Config, c: Control, target: Option<int>, r: Round)
    ensures var down := PlayDown(cfg, c, target, r);
            && down.after.lastEvent == LastOf(DownEvents(down.outcome, r), c.lastEvent)
            && (down.outcome == Destroyed ==> target.Some? && CanScale(cfg, c.lastEvent, r.downAt))
  {
    if target.Some? {
      ScaleDownEffect(cfg, c, target.value, r.downAt, r.destroyOk, r.downDone, r.tick.writeOk);
    }
  }

  /** Events that may follow what was recorded before `now`, ending no later than `end`. */
  ghost predicate Follows(events: seq<int>, last: Option<int>, gap: int, now: int, end: int) {
    && Spaced(events, gap)
    && (forall i :: 0 <= i < |events| ==> now <= events[i] <= end)
    && (last.Some? ==> forall i :: 0 <= i < |events| ==> events[i] - last.value >= gap)
  }

  /** What a round recorded keeps its distance from what was recorded before it. */
  ghost predicate Adds(cfg: Config, last: Option<int>, r: Round, after: Option<int>, more: seq<int>) {
    && after == LastOf(more, last)
    && ((last.Some? ==> last.value <= r.tick.now) ==> Follows(more, last, cfg.cooldown, r.tick.now, RoundEnd(r)))
  }

  /** What a tick launched adds events no closer to the last one, or to each other, than the cooldown. */
  lemma LaunchedKeepDistance(cfg: Config, c: Control, launch: UpLaunch, target: Option<int>, r: Round)
    requires RoundInOrder(r)
    requires launch != NoLaunch || target.Some? ==> CanScale(cfg, c.lastEvent, r.tick.now)
    requires cfg.cooldown <= 0 || launch == NoLaunch || target == None || !r.downFirst
    ensures var (after, events) := PlayLaunched(cfg, c, launch, target, r);
            Adds(cfg, c.lastEvent, r, after.lastEvent, events)
  {
    if r.downFirst {
      DownRecords(cfg, c, target, r);
      UpRecords(cfg, PlayDown(cfg, c, target, r).after, launch, r);
    } else {
      UpRecords(cfg, c, launch, r);
      DownRecords(cfg, PlayUp(cfg, c, launch, r).after, target, r);
    }
  }

  lemma {:induction false} RoundKeepsDistance(cfg: Config, c: Control, r: Round)
    requires Loaded(cfg) && (OneWay(cfg) || !r.downFirst) && RoundInOrder(r)
    ensures var (after, events) := Play(cfg, c, r);
            Adds(cfg, c.lastEvent, r, after.lastEvent, events)
  {
    var t := MonitorTick(cfg, c, r.tick);
    TickRecordsNothing(cfg, c, r.tick);
    LaunchedKeepDistance(cfg, t.after, t.up, t.down, r);
    WaitsRecordNothing(cfg, PlayLaunched(cfg, t.after, t.up, t.down, r).0, r.waits);
  }

  // -------------------------------------------------------------- any number of rounds

  lemma JoinFollows(events: seq<int>, more: seq<int>, first: Option<int>, gap: int, start: int, now: int, end: int)
    requires Follows(events, first, gap, start, now) && Follows(more, LastOf(events, first), gap, now, end)
    requires start <= now <= end
    requires first.Some? ==> first.value <= start
    ensures Follows(events + more, first, gap, start, end)
  {
    var all, last := events + more, |events| - 1;
    forall i, j | 0 <= i < j < |all| ensures all[i] <= all[j] && all[j] - all[i] >= gap {
      if i < |events| <= j {
        assert all[j] == more[j - |events|];
        assert i < last ==> events[i] <= events[last];
      } else if |events| <= i {
        assert more[i - |events|] <= more[j - |events|];
      }
    }
    forall j | |events| <= j < |all| && first.Some? ensures all[j] - first.value >= gap {
      assert all[j] == more[j - |events|];
      if events != [] {
        assert events[last] >= start;
      }
    }
  }

  /** What is known of the events of a schedule, round by round. */
  ghost predicate Recorded(cfg: Config, first: Option<int>, rounds: seq<Round>, last: Option<int>, events: seq<int>)
    decreases |rounds|, 0
  {
    if rounds == [] then last == first && events == []
    else exists before: Option<int>, k: nat :: RecordedLast(cfg, first, rounds, before, k, last, events)
  }

  /** The first `k` events come from the rounds before the last one. */
  ghost predicate RecordedLast(cfg: Config, first: Option<int>, rounds: seq<Round>, before: Option<int>, k: nat,
                               last: Option<int>, events: seq<int>)
    requires rounds != []
    decreases |rounds| - 1, 1
  {
    && k <= |events|
    && Recorded(cfg, first, rounds[..|rounds| - 1], before, events[..k])
    && Adds(cfg, before, rounds[|rounds| - 1], last, events[k..])
  }

  lemma {:induction false} PlayedIsRecorded(cfg: Config, c: Control, rounds: seq<Round>)
    requires Loaded(cfg) && InOrder(rounds)
    requires OneWay(cfg) || forall i :: 0 <= i < |rounds| ==> !rounds[i].downFirst
    ensures var (after, events) := PlayAll(cfg, c, rounds);
            Recorded(cfg, c.lastEvent, rounds, after.lastEvent, events)
  {
    if rounds != [] {
      var n := |rounds| - 1;
      var (before, earlier) := PlayAll(cfg, c, rounds[..n]);
      var (after, events) := PlayAll(cfg, c, rounds);
      assert forall i :: 0 <= i < n ==> rounds[..n][i] == rounds[i];
      PlayedIsRecorded(cfg, c, rounds[..n]);
      PlayedAdds(cfg, before, rounds[n], after, earlier, events);
      assert RecordedLast(cfg, c.lastEvent, rounds, before.lastEvent, |earlier|, after.lastEvent, events);
    }
  }

  lemma PlayedAdds(cfg: Config, before: Control, r: Round, after: Control, earlier: seq<int>, events: seq<int>)
    requires Loaded(cfg) && RoundInOrder(r) && (OneWay(cfg) || !r.downFirst)
    requires var (next, more) := Play(cfg, before, r); after == next && events == earlier + more
    ensures |earlier| <= |events| && events[..|earlier|] == earlier
    ensures Adds(cfg, before.lastEvent, r, after.lastEvent, events[|earlier|..])
  {
    RoundKeepsDistance(cfg, before, r);
    assert events[|earlier|..] == Play(cfg, before, r).1;
  }

  lemma LastRound(cfg: Config, first: Option<int>, rounds: seq<Round>, last: Option<int>, events: seq<int>)
    returns (before: Option<int>, k: nat)
    requires rounds != [] && Recorded(cfg, first, rounds, last, events)
    ensures k <= |events| && Recorded(cfg, first, rounds[..|rounds| - 1], before, events[..k])
    ensures Adds(cfg, before, rounds[|rounds| - 1], last, events[k..])
    ensures |rounds| == 1 ==> before == first && events[..k] == []
  {
    before, k :| RecordedLast(cfg, first, rounds, before, k, last, events);
    if |rounds| == 1 {
      assert rounds[..0] == [];
      NothingRecorded(cfg, first, before, events[..k]);
    }
  }

  lemma NothingRecorded(cfg: Config, first: Option<int>, last: Option<int>, events: seq<int>)
    requires Recorded(cfg, first, [], last, events)
    ensures last == first && events == []
  {
  }

  lemma RoundsInTime(rounds: seq<Round>, n: nat)
    requires InOrder(rounds) && n < |rounds|
    ensures rounds[0].tick.now <= rounds[n].tick.now <= RoundEnd(rounds[n])
    ensures n > 0 ==> rounds[0].tick.now <= RoundEnd(rounds[n - 1]) <= rounds[n].tick.now
  {
    assert RoundInOrder(rounds[0]);
    if n > 1 {
      assert RoundEnd(rounds[0]) <= rounds[n - 1].tick.now && RoundInOrder(rounds[n - 1]);
    }
  }

  /** One more round after events that were spaced so far. */
  lemma NextRoundSpaced(cfg: Config, first: Option<int>, earlier: seq<int>, start: int, end: int,
                        before: Option<int>, r: Round, last: Option<int>, more: seq<int>)
    requires start <= end <= r.tick.now <= RoundEnd(r) && (first.Some? ==> first.value <= start)
    requires before == LastOf(earlier, first) && Follows(earlier, first, cfg.cooldown, start, end)
    requires Adds(cfg, before, r, last, more)
    ensures last == LastOf(earlier + more, first)
    ensures Follows(earlier + more, first, cfg.cooldown, start, RoundEnd(r))
  {
    WithinUntil(earlier, first, cfg.cooldown, start, end, r.tick.now);
    JoinFollows(earlier, more, first, cfg.cooldown, start, r.tick.now, RoundEnd(r));
  }

  lemma {:induction false} RecordedAreSpaced(cfg: Config, first: Option<int>, rounds: seq<Round>, last: Option<int>,
                                             events: seq<int>)
    requires InOrder(rounds) && rounds != [] && Recorded(cfg, first, rounds, last, events)
    requires first.Some? ==> first.value <= rounds[0].tick.now
    ensures last == LastOf(events, first)
    ensures Follows(events, first, cfg.cooldown, rounds[0].tick.now, RoundEnd(rounds[|rounds| - 1]))
  {
    var n := |rounds| - 1;
    var before, k := LastRound(cfg, first, rounds, last, events);
    var start := rounds[0].tick.now;
    RoundsInTime(rounds, n);
    if n == 0 {
      NextRoundSpaced(cfg, first, events[..k], start, start, before, rounds[n], last, events[k..]);
    } else {
      var init := rounds[..n];
      PrefixInOrder(rounds, n);
      RecordedAreSpaced(cfg, first, init, before, events[..k]);
      NextRoundSpaced(cfg, first, events[..k], start, RoundEnd(init[n - 1]), before, rounds[n], last, events[k..]);
    }
    assert events == events[..k] + events[k..];
  }

  lemma PrefixInOrder(rounds: seq<Round>, n: nat)
    requires InOrder(rounds) && 0 < n < |rounds|
    ensures InOrder(rounds[..n]) && rounds[..n][0] == rounds[0] && rounds[..n][n - 1] == rounds[n - 1]
  {
  }

  /**
   * In the sequential schedule any two recorded scale events are at least the cooldown apart, if no
   * tick launches both ways or the ScaleUp of such a tick always goes first.
   */
  lemma {:induction false} EventsAreSpaced(cfg: Config, c: Control, rounds: seq<Round>)
    requires Loaded(cfg) && InOrder(rounds) && rounds != []
    requires OneWay(cfg) || forall i :: 0 <= i < |rounds| ==> !rounds[i].downFirst
    requires c.lastEvent.Some? ==> c.lastEvent.value <= rounds[0].tick.now
    ensures var (after, events) := PlayAll(cfg, c, rounds);
            && after.lastEvent == LastOf(events, c.lastEvent)
            && Follows(events, c.lastEvent, cfg.cooldown, rounds[0].tick.now, RoundEnd(rounds[|rounds| - 1]))
  {
    var (after, events) := PlayAll(cfg, c, rounds);
    PlayedIsRecorded(cfg, c, rounds);
    RecordedAreSpaced(cfg, c.lastEvent, rounds, after.lastEvent, events);
  }

  lemma WithinUntil(events: seq<int>, last: Option<int>, gap: int, now: int, end: int, later: int)
    requires Follows(events, last, gap, now, end) && now <= end <= later
    requires last.Some? ==> last.value <= now
    ensures Follows(events, last, gap, now, later)
    ensures LastOf(events, last).Some? ==> LastOf(events, last).value <= later
  {
  }

  // -------------------------------------------------------------- rounds whose listing failed

  lemma NothingLaunched(cfg: Config, c: Control, r: Round)
    ensures PlayLaunched(cfg, c, NoLaunch, None, r) == (c, [])
  {
    var none: seq<int> := [];
    assert none + none == none;
  }

  lemma UnlistedRound(cfg: Config, c: Control, r: Round)
    requires r.tick.listing == None
    ensures Play(cfg, c, r) == (AfterWaits(cfg, c, r.waits), [])
  {
    FailedListingStops(cfg, c, r.tick);
    NothingLaunched(cfg, c, r);
  }

  /** The events of each round. */
  ghost function ByRound(cfg: Config, c: Control, rounds: seq<Round>): seq<seq<int>> {
    if rounds == [] then []
    else
      var init := rounds[..|rounds| - 1];
      ByRound(cfg, c, init) + [Play(cfg, PlayAll(cfg, c, init).0, rounds[|rounds| - 1]).1]
  }

  ghost function Flatten(parts: seq<seq<int>>): seq<int> {
    if parts == [] then [] else Flatten(parts[..|parts| - 1]) + parts[|parts| - 1]
  }

  /** Events listed round by round, none of them from a round whose listing failed. */
  ghost predicate PartsOf(rounds: seq<Round>, parts: seq<seq<int>>, events: seq<int>) {
    && |parts| == |rounds| && Flatten(parts) == events
    && forall i :: 0 <= i < |rounds| && rounds[i].tick.listing == None ==> parts[i] == []
  }

  lemma NextPart(rounds: seq<Round>, parts: seq<seq<int>>, earlier: seq<int>, more: seq<int>)
    requires rounds != [] && PartsOf(rounds[..|rounds| - 1], parts, earlier)
    requires rounds[|rounds| - 1].tick.listing == None ==> more == []
    ensures PartsOf(rounds, parts + [more], earlier + more)
  {
    var n := |rounds| - 1;
    assert (parts + [more])[..|parts|] == parts;
    forall i | 0 <= i < |rounds| && rounds[i].tick.listing == None ensures (parts + [more])[i] == [] {
      assert i < n ==> rounds[..n][i] == rounds[i];
    }
  }

  /** The events of a schedule are those of its rounds, in order, and a round whose listing failed has none. */
  lemma {:induction false} EventsNeedListings(cfg: Config, c: Control, rounds: seq<Round>,
                                              parts: seq<seq<int>>, events: seq<int>)
    requires parts == ByRound(cfg, c, rounds) && events == PlayAll(cfg, c, rounds).1
    ensures PartsOf(rounds, parts, events)
  {
    if rounds != [] {
      var n := |rounds| - 1;
      var (before, earlier) := PlayAll(cfg, c, rounds[..n]);
      var more := Play(cfg, before, rounds[n]).1;
      EventsNeedListings(cfg, c, rounds[..n], ByRound(cfg, c, rounds[..n]), earlier);
      UnlistedRecordsNothing(cfg, before, rounds[n], more);
      NextPart(rounds, ByRound(cfg, c, rounds[..n]), earlier, more);
    }
  }

  lemma UnlistedRecordsNothing(cfg: Config, c: Control, r: Round, more: seq<int>)
    requires more == Play(cfg, c, r).1
    ensures r.tick.listing == None ==> more == []
  {
    if r.tick.listing == None {
      UnlistedRound(cfg, c, r);
    }
  }

  /** The waiters of the rounds, one round after the other. */
  ghost function AfterAllWaits(cfg: Config, c: Control, rounds: seq<Round>): Control {
    if rounds == [] then c
    else AfterWaits(cfg, AfterAllWaits(cfg, c, rounds[..|rounds| - 1]), rounds[|rounds| - 1].waits)
  }

  /** While listings fail, waiters are all that changes anything: no timer moves and nothing is launched or recorded. */
  lemma {:induction false} UnlistedSchedule(cfg: Config, c: Control, rounds: seq<Round>, after: Control)
    requires forall i :: 0 <= i < |rounds| ==> rounds[i].tick.listing == None
    requires after == AfterAllWaits(cfg, c, rounds)
    ensures PlayAll(cfg, c, rounds) == (after, [])
  {
    if rounds != [] {
      var n := |rounds| - 1;
      var before := AfterAllWaits(cfg, c, rounds[..n]);
      assert forall i :: 0 <= i < n ==> rounds[..n][i] == rounds[i];
      UnlistedSchedule(cfg, c, rounds[..n], before);
      OneMoreUnlisted(cfg, c, rounds, before, after);
    }
  }

  lemma OneMoreUnlisted(cfg: Config, c: Control, rounds: seq<Round>, before: Control, after: Control)
    requires rounds != [] && rounds[|rounds| - 1].tick.listing == None
    requires PlayAll(cfg, c, rounds[..|rounds| - 1]) == (before, [])
    requires after == AfterWaits(cfg, before, rounds[|rounds| - 1].waits)
    ensures PlayAll(cfg, c, rounds) == (after, [])
  {
    UnlistedRound(cfg, before, rounds[|rounds| - 1]);
    var none: seq<int> := [];
    assert none + none == none;
  }

  // -------------------------------------------------------------- a tick that launches both ways

  /** Nothing tracked, no timer running, no event recorded. */
  const INITIAL: Control := Control(map[], None, None, None, multiset{})

  /** The first round adopts n nodes and arms the timers. */
  function FirstRound(cfg: Config, n: nat): Round {
    Round(TickInput(Some(Listing(n, "running")), Triggers.FirstPending(cfg, n), 0, true),
          true, None, "", 0, 0, true, 0, [])
  }

  /** The second launches both ways; the ScaleDown is through before the ScaleUp begins. */
  function SecondRound(cfg: Config, n: nat): Round {
    var late := Triggers.LongEnough(cfg, n);
    Round(TickInput(Some(Listing(n, "running")), 0, late, true), true, Some(n + 1), "", late, late, true, late, [])
  }

  lemma FirstRoundArms(cfg: Config, n: nat)
    requires Loaded(cfg) && cfg.scaleUpThreshold < 0 && cfg.minNodes < n < cfg.maxNodes
    ensures var (c, events) := Play(cfg, INITIAL, FirstRound(cfg, n));
            && events == [] && c.nodes == Adoptees(n) && c.lastEvent == None && c.upSince == Some(0)
            && c.downSince == if IdleRequired(cfg, n) <= 0 then None else Some(0)
  {
    StartupAdopts(cfg, n);
    AdopteesRead(cfg, n, Triggers.FirstPending(cfg, n), 0);
    Triggers.FirstDecisions(cfg, n);
  }

  /** The tick of the second round. */
  lemma SecondTick(cfg: Config, n: nat, c: Control)
    requires Loaded(cfg) && cfg.scaleUpThreshold < 0 && cfg.minNodes < n < cfg.maxNodes
    requires c.nodes == Adoptees(n) && c.lastEvent == None && c.upSince == Some(0)
    requires c.downSince == if IdleRequired(cfg, n) <= 0 then None else Some(0)
    ensures var t := MonitorTick(cfg, c, SecondRound(cfg, n).tick);
            && t.up == ScaleOut && t.down == Some(n) && t.after.nodes == Adoptees(n) && t.after.lastEvent == None
  {
    var late := Triggers.LongEnough(cfg, n);
    PassKeepsAdoptees(cfg.maxNodes, n, late);
    AdopteesRead(cfg, n, 0, late);
  }

  /** The ScaleDown goes through. */
  lemma DownRecordsFirst(cfg: Config, n: nat, c: Control)
    requires Loaded(cfg) && cfg.minNodes < n <= cfg.maxNodes && c.nodes == Adoptees(n) && c.lastEvent == None
    ensures var down := PlayDown(cfg, c, Some(n), SecondRound(cfg, n));
            down.outcome == Destroyed && down.after.nodes == Adoptees(n) - {n as int}
  {
    var r := SecondRound(cfg, n);
    AdopteesCount(n);
    ScaleDownEffect(cfg, c, n, r.downAt, true, r.downDone, true);
  }

  lemma OneLess(n: nat)
    requires n > 0
    ensures var left := Adoptees(n) - {n as int};
            |left| == n - 1 && ActiveCount(left) == n - 1 && n + 1 !in left
  {
    AdopteesCount(n);
    CountDrop(Adoptees(n), n as int, IsActive);
    var left := Adoptees(n) - {n as int};
    assert left.Keys == UpTo(n) - {n as int};
    RemainderSize(UpTo(n), {n as int});
    UpToSize(n);
    assert |left| == |left.Keys|;
  }

  /** Both operations succeed at the same time. */
  lemma BothRecord(cfg: Config, n: nat, c: Control)
    requires Loaded(cfg) && cfg.minNodes < n < cfg.maxNodes && c.nodes == Adoptees(n) && c.lastEvent == None
    ensures var late := Triggers.LongEnough(cfg, n);
            PlayLaunched(cfg, c, ScaleOut, Some(n), SecondRound(cfg, n)).1 == [late, late]
  {
    var r := SecondRound(cfg, n);
    DownRecordsFirst(cfg, n, c);
    OneLess(n);
    ScaleUpIsAllOrNothing(cfg, PlayDown(cfg, c, Some(n), r).after, r.created, r.name, r.upAt);
  }

  lemma SecondRoundRecordsTwice(cfg: Config, n: nat, c: Control)
    requires Loaded(cfg) && cfg.scaleUpThreshold < 0 && cfg.minNodes < n < cfg.maxNodes
    requires c.nodes == Adoptees(n) && c.lastEvent == None && c.upSince == Some(0)
    requires c.downSince == if IdleRequired(cfg, n) <= 0 then None else Some(0)
    ensures var late := Triggers.LongEnough(cfg, n);
            Play(cfg, c, SecondRound(cfg, n)).1 == [late, late]
  {
    SecondTick(cfg, n, c);
    BothRecord(cfg, n, MonitorTick(cfg, c, SecondRound(cfg, n).tick).after);
  }

  lemma PlayTwo(cfg: Config, c: Control, first: Round, second: Round, between: Control, events: seq<int>)
    requires Play(cfg, c, first) == (between, []) && Play(cfg, between, second).1 == events
    ensures PlayAll(cfg, c, [first, second]).1 == events
  {
    assert [first, second][..1] == [first] && [first][..0] == [];
    assert PlayAll(cfg, c, []) == (c, []);
    assert PlayAll(cfg, c, [first]).1 == [] + [];
    assert [] + events == events;
  }

  lemma BothRoundsRecordTwice(cfg: Config, n: nat, c: Control, first: Round, second: Round, late: int)
    requires Loaded(cfg) && cfg.scaleUpThreshold < 0 && cfg.minNodes < n < cfg.maxNodes
    requires first == FirstRound(cfg, n) && second == SecondRound(cfg, n) && late == Triggers.LongEnough(cfg, n)
    requires c == Play(cfg, INITIAL, first).0
    ensures Play(cfg, INITIAL, first) == (c, []) && Play(cfg, c, second).1 == [late, late]
  {
    FirstRoundArms(cfg, n);
    SecondRoundRecordsTwice(cfg, n, c);
  }

  lemma TwoInOrder(first: Round, second: Round)
    requires RoundInOrder(first) && RoundInOrder(second) && RoundEnd(first) <= second.tick.now
    ensures InOrder([first, second])
  {
  }

  lemma TogetherIsNotSpaced(events: seq<int>, late: int, gap: int)
    requires events == [late, late] && gap > 0
    ensures !Spaced(events, gap)
  {
    assert events[1] - events[0] == 0;
  }

  lemma DoubleLaunchTogether(cfg: Config, first: Round, second: Round, c: Control)
    requires Loaded(cfg) && !OneWay(cfg) && c == Play(cfg, INITIAL, first).0
    requires first == FirstRound(cfg, cfg.minNodes + 1) && second == SecondRound(cfg, cfg.minNodes + 1)
    ensures InOrder([first, second]) && !Spaced(PlayAll(cfg, INITIAL, [first, second]).1, cfg.cooldown)
  {
    var late := Triggers.LongEnough(cfg, cfg.minNodes + 1);
    BothRoundsRecordTwice(cfg, cfg.minNodes + 1, c, first, second, late);
    PlayTwo(cfg, INITIAL, first, second, c, [late, late]);
    TwoInOrder(first, second);
    TogetherIsNotSpaced(PlayAll(cfg, INITIAL, [first, second]).1, late, cfg.cooldown);
  }

  ghost predicate AlwaysSpaced(cfg: Config) {
    forall rounds: seq<Round> :: InOrder(rounds) ==> Spaced(PlayAll(cfg, INITIAL, rounds).1, cfg.cooldown)
  }

  /**
   * Every sequential schedule keeps its scale events the cooldown apart exactly when there is no
   * cooldown to keep or no tick can launch both ways: a ScaleUp makes no cooldown check of its own.
   */
  lemma SpacedIff(cfg: Config)
    requires Loaded(cfg)
    ensures AlwaysSpaced(cfg) <==>
              cfg.cooldown <= 0 || cfg.scaleUpThreshold >= 0 || cfg.maxNodes <= cfg.minNodes + 1
  {
    if OneWay(cfg) {
      forall rounds: seq<Round> | InOrder(rounds) ensures Spaced(PlayAll(cfg, INITIAL, rounds).1, cfg.cooldown) {
        if rounds != [] {
          EventsAreSpaced(cfg, INITIAL, rounds);
        }
      }
    } else {
      var first, second := FirstRound(cfg, cfg.minNodes + 1), SecondRound(cfg, cfg.minNodes + 1);
      DoubleLaunchTogether(cfg, first, second, Play(cfg, INITIAL, first).0);
    }
  }

  // -------------------------------------------------------------- over all runs

  /** A ScaleUp has tracked node 1 and is about to record its event. */
  lemma FirstTracked(cfg: Config) returns (s: Sys)
    requires Loaded(cfg)
    ensures Reachable(cfg, s) && s.mon.Waiting? && s.clock == 0 && s.used == {1}
    ensures s.nodes == map[1 := Fresh("", 0)] && s.tasks == map[0 := UpRecord(1)]
    ensures s.lastEvent == None && s.events == [] && s.upSince == None
  {
    var s0 := ColdCreate(cfg);
    s := TaskGoesOn(cfg, s0, 0, Answer(true, 0, ""), Some(AddNode(1, "")), UpRecord(1));
    assert s0.tasks[0 := UpRecord(1)] == map[0 := UpRecord(1)];
    assert s.nodes == map[1 := Fresh("", 0)];
  }

  /** Its node comes up, as a listing says. */
  lemma FirstUp(cfg: Config) returns (s: Sys)
    requires Loaded(cfg)
    ensures Reachable(cfg, s) && s.mon.Waiting? && s.clock == 0 && s.used == {1}
    ensures s.nodes == Adoptees(1) && s.tasks == map[0 := UpRecord(1)] && s.lastEvent == None && s.events == []
  {
    var s0 := FirstTracked(cfg);
    assert UpTo(1) == {1};
    ListingIds(1, "running");
    PassAdopts(s0.nodes, cfg.maxNodes, 1, "running", 0);
    assert Reconcile(s0.nodes, cfg.maxNodes, Listing(1, "running"), 0) == Adoptees(1);
    AdopteesRead(cfg, 1, 1, 0);
    s := TickReached(cfg, s0, Listing(1, "running"), 1, 2, 3);
  }

  /** And then it drops out of the listing, which makes the next tick start over. */
  lemma FirstForgotten(cfg: Config) returns (s: Sys)
    requires Loaded(cfg)
    ensures Reachable(cfg, s) && s.mon.Waiting? && s.clock == 0 && s.used == {1} && s.nodes == map[]
    ensures Stand(s, UpStart) && s.lastEvent == None && s.events == []
  {
    var s1 := FirstUp(cfg);
    Triggers.NobodyLeft(cfg, 1, 0);
    Triggers.NobodyRead(cfg, 1, 0);
    s := TickReached(cfg, s1, [], 1, 2, 3);
  }

  lemma SecondCreated(cfg: Config) returns (s: Sys)
    requires Loaded(cfg)
    ensures Reachable(cfg, s) && s.mon.Waiting? && s.clock == 0 && s.nodes == map[]
    ensures Stand(s, UpTrack(2)) && s.lastEvent == None && s.events == []
  {
    var s0 := FirstForgotten(cfg);
    NobodyActive(s0.nodes);
    var s1 := TaskGoesOn(cfg, s0, 2, Answer(true, 0, ""), None, UpCreate);
    s := TaskCreates(cfg, s1, 2, 2);
  }

  lemma SecondTracked(cfg: Config) returns (s: Sys)
    requires Loaded(cfg)
    ensures Reachable(cfg, s) && s.clock == 0 && Stand(s, UpRecord(2)) && s.events == []
  {
    var s0 := SecondCreated(cfg);
    s := TaskGoesOn(cfg, s0, 2, Answer(true, 0, ""), Some(AddNode(2, "")), UpRecord(2));
  }

  lemma NobodyActive(m: NodeMap)
    requires m == map[]
    ensures ActiveCount(m) == 0
  {
    CountAtMost(m, IsActive);
  }

  /** The first ScaleUp is about to record, and the second stands at `t`. */
  ghost predicate Stand(s: Sys, t: Task) {
    0 in s.tasks && s.tasks[0] == UpRecord(1) && 2 in s.tasks && s.tasks[2] == t
  }

  /** The second ScaleUp, launched because no event is recorded yet, is through before the first records its own. */
  lemma TwoEventsAtOnce(cfg: Config) returns (s: Sys)
    requires Loaded(cfg)
    ensures Reachable(cfg, s) && s.events == [0, 0]
  {
    var yes := Answer(true, 0, "");
    var s3 := SecondTracked(cfg);
    var s4 := TaskGoesOn(cfg, s3, 2, yes, None, WaitPoll(2));
    s := TaskGoesOn(cfg, s4, 0, yes, None, WaitPoll(1));
  }

  lemma ReachableEventsInOrder(cfg: Config, s: Sys)
    requires Reachable(cfg, s)
    ensures forall i, j :: 0 <= i <= j < |s.events| ==> s.events[i] <= s.events[j]
  {
    Triggers.ReachableHistory(cfg, s);
  }

  /**
   * "Each scale event is blocked until the cooldown has passed" holds of every run exactly when there
   * is no cooldown: checking and recording are apart, and ScaleUp does not check at all.
   */
  lemma CooldownGateIff(cfg: Config)
    requires Loaded(cfg)
    ensures (forall s: Sys :: Reachable(cfg, s) ==> Spaced(s.events, cfg.cooldown)) <==> cfg.cooldown <= 0
  {
    if cfg.cooldown <= 0 {
      forall s: Sys | Reachable(cfg, s) ensures Spaced(s.events, cfg.cooldown) {
        ReachableEventsInOrder(cfg, s);
      }
    } else {
      var s := TwoEventsAtOnce(cfg);
      TogetherIsNotSpaced(s.events, 0, cfg.cooldown);
    }
  }
}
