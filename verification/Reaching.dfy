/**
 * Building runs of the transition system: whole passes, ticks and goroutines as single stretches,
 * and a fleet of adopted nodes to start from.
 */
module Reaching {
  import opened Common
  import opened Counting
  import opened Nodes
  import opened Scaling
  import opened Reconciliation
  import opened Interleaving
  import opened Solo

  /** States some run ends in. */
  ghost predicate Reachable(cfg: Config, s: Sys) {
    exists acts: seq<Action> :: EndsIn(cfg, acts, s)
  }

  ghost predicate EndsIn(cfg: Config, acts: seq<Action>, s: Sys) {
    IsRun(cfg, acts) && Exec(cfg, acts) == s
  }

  lemma StartIsReachable(cfg: Config)
    ensures Reachable(cfg, START)
  {
    assert EndsIn(cfg, [], START);
  }

  lemma StepIsReachable(cfg: Config, s: Sys, a: Action)
    requires Reachable(cfg, s) && Enabled(cfg, s, a)
    ensures Reachable(cfg, Apply(cfg, s, a))
  {
    var acts :| EndsIn(cfg, acts, s);
    assert (acts + [a])[..|acts|] == acts;
    assert EndsIn(cfg, acts + [a], Apply(cfg, s, a));
  }

  // -------------------------------------------------------------- passes and ticks

  lemma {:induction false} MergeReached(cfg: Config, s: Sys)
    requires Reachable(cfg, s) && s.mon.Merging?
    ensures Reachable(cfg, MergeAll(cfg, s))
    decreases |s.mon.rest|, StepsInEntry(s.mon.stage)
  {
    if s.mon.rest != [] {
      StepIsReachable(cfg, s, Merge(Differs(s)));
      MergeReached(cfg, Apply(cfg, s, Merge(Differs(s))));
    }
  }

  lemma {:induction false} SweepReached(cfg: Config, s: Sys, order: seq<int>)
    requires Reachable(cfg, s) && s.mon.Sweeping? && Visits(order, s.mon.todo)
    ensures Reachable(cfg, SweepAll(cfg, s, order))
    decreases |order|
  {
    if order != [] {
      StepIsReachable(cfg, s, Sweep(order[0]));
      SweepReached(cfg, Apply(cfg, s, Sweep(order[0])), order[1..]);
    }
  }

  lemma {:induction false} SomeOrder(todo: set<int>) returns (order: seq<int>)
    ensures Visits(order, todo)
    decreases todo
  {
    if todo == {} {
      order := [];
    } else {
      var first := Inhabited(todo);
      var rest := SomeOrder(todo - {first});
      order := [first] + rest;
      assert order[1..] == rest;
    }
  }

  /** A pass without interference, from any reachable state. */
  lemma PassReached(cfg: Config, s: Sys, listing: seq<CloudNode>) returns (s': Sys)
    requires Reachable(cfg, s) && s.mon.Waiting? && Ids(listing) <= s.used
    ensures Reachable(cfg, s')
    ensures s' == s.(nodes := Reconcile(s.nodes, cfg.maxNodes, listing, s.clock), mon := Evaluating)
  {
    var s1 := Apply(cfg, s, List(listing));
    StepIsReachable(cfg, s, List(listing));
    MergeReached(cfg, s1);
    var s2 := MergeAll(cfg, s1);
    StepIsReachable(cfg, s2, MergeDone);
    var s3 := Apply(cfg, s2, MergeDone);
    var order := SomeOrder(s2.nodes.Keys);
    SweepReached(cfg, s3, order);
    var s4 := SweepAll(cfg, s3, order);
    StepIsReachable(cfg, s4, SweepDone);
    s' := Apply(cfg, s4, SweepDone);
    PassIs(cfg, s, listing, order);
    assert s' == Pass(cfg, s, listing, order);
  }

  /** A whole tick without interference. */
  lemma TickReached(cfg: Config, s: Sys, listing: seq<CloudNode>, pending: int, up: nat, down: nat) returns (s': Sys)
    requires Reachable(cfg, s) && s.mon.Waiting? && Ids(listing) <= s.used
    requires up !in s.tasks && down !in s.tasks && up != down
    ensures Reachable(cfg, s')
    ensures s' == ApplyEvaluate(cfg, s.(nodes := Reconcile(s.nodes, cfg.maxNodes, listing, s.clock), mon := Evaluating),
                                pending, up, down)
  {
    var s1 := PassReached(cfg, s, listing);
    StepIsReachable(cfg, s1, Evaluate(pending, up, down));
    s' := Apply(cfg, s1, Evaluate(pending, up, down));
  }

  // -------------------------------------------------------------- goroutines

  lemma OnlyStartCreates(cfg: Config, s: Sys, t: Task, a: Answer)
    ensures var next := TaskEffect(cfg, s, t, a).next;
            next.Some? ==> next.value != UpStart && (next.value == UpCreate ==> t == UpStart)
  {
  }

  /** A goroutine that creates nothing, left alone from any reachable state. */
  lemma {:induction false} RunAloneReached(cfg: Config, s: Sys, tid: nat, a: Task -> Answer)
    requires Reachable(cfg, s) && tid in s.tasks && s.tasks[tid] != UpStart && s.tasks[tid] != UpCreate
    ensures Reachable(cfg, RunAlone(cfg, s, tid, a))
    decreases Left(s.tasks[tid])
  {
    var t := s.tasks[tid];
    var e := TaskEffect(cfg, s, t, a(t));
    StepIsReachable(cfg, s, Run(tid, a(t)));
    LeftFalls(cfg, s, t, a(t));
    OnlyStartCreates(cfg, s, t, a(t));
    if e.next.Some? && !e.next.value.WaitPoll? {
      RunAloneReached(cfg, ApplyEffect(cfg, s, tid, e), tid, a);
    }
  }

  /** One step of a goroutine that goes on, with no cloud call that creates or destroys. */
  lemma TaskGoesOn(cfg: Config, s: Sys, tid: nat, a: Answer, op: Option<NodeOp>, next: Task) returns (s': Sys)
    requires Reachable(cfg, s) && tid in s.tasks && s.tasks[tid] != UpCreate
    requires var e := TaskEffect(cfg, s, s.tasks[tid], a);
             e == Effect(op, Some(next), None, None, None, e.record, e.check)
    ensures Enabled(cfg, s, Run(tid, a)) && Reachable(cfg, s') && s' == Apply(cfg, s, Run(tid, a))
    ensures s'.nodes == Perform(cfg, s, op) && s'.tasks == s.tasks[tid := next]
    ensures s'.mon == s.mon && s'.clock == s.clock && s'.used == s.used && s'.live == s.live
    ensures s'.upSince == s.upSince && s'.downSince == s.downSince
    ensures var records := TaskEffect(cfg, s, s.tasks[tid], a).record;
            && s'.lastEvent == (if records then Some(s.clock) else s.lastEvent)
            && s'.events == s.events + if records then [s.clock] else []
  {
    StepIsReachable(cfg, s, Run(tid, a));
    s' := Apply(cfg, s, Run(tid, a));
    assert (s.live + {}) - {} == s.live && s.used + {} == s.used && s.events + [] == s.events;
  }

  /** A goroutine gets its instance. */
  lemma TaskCreates(cfg: Config, s: Sys, tid: nat, id: int) returns (s': Sys)
    requires Reachable(cfg, s) && tid in s.tasks && s.tasks[tid] == UpCreate && id !in s.used
    ensures Reachable(cfg, s')
    ensures s'.nodes == s.nodes && s'.tasks == s.tasks[tid := UpTrack(id)] && s'.mon == s.mon && s'.clock == s.clock
    ensures s'.lastEvent == s.lastEvent && s'.events == s.events
  {
    StepIsReachable(cfg, s, Run(tid, Answer(true, id, "")));
    s' := Apply(cfg, s, Run(tid, Answer(true, id, "")));
  }

  // -------------------------------------------------------------- adopted fleets

  /** The ids 1..n. */
  function UpTo(n: nat): (ids: set<int>)
    ensures forall id :: id in ids <==> 1 <= id <= n
  {
    if n == 0 then {} else UpTo(n - 1) + {n as int}
  }

  lemma {:induction false} UpToSize(n: nat)
    ensures |UpTo(n)| == n
  {
    if n > 0 {
      UpToSize(n - 1);
    }
  }

  /** Instances 1..n with the given status, without an address. */
  function Listing(n: nat, status: string): seq<CloudNode> {
    if n == 0 then [] else Listing(n - 1, status) + [CloudNode(n, "", "", status)]
  }

  lemma {:induction false} ListingIds(n: nat, status: string)
    ensures Ids(Listing(n, status)) == UpTo(n)
  {
    if n > 0 {
      ListingIds(n - 1, status);
      IdsOfInit(Listing(n, status));
    }
  }

  /** What a pass over that listing leaves for one of its ids. */
  function Adopted(m: NodeMap, id: int, status: string, now: int): NodeInfo {
    Observed(if id in m then m[id] else Fresh("", now), CloudNode(id, "", "", status), now)
  }

  ghost predicate AdoptsUpTo(m: NodeMap, k: nat, status: string, now: int, r: NodeMap) {
    && r.Keys == m.Keys + UpTo(k)
    && forall id :: id in r ==> r[id] == if id <= k then Adopted(m, id, status, now) else m[id]
  }

  /** A table of such ids that lacks one of them is below the cap. */
  lemma RoomForOne(before: NodeMap, n: nat, k: nat)
    requires before.Keys <= UpTo(n) && 1 <= k <= n && k as int !in before
    ensures |before| < n
  {
    Subset(before.Keys, UpTo(n) - {k as int});
    RemainderSize(UpTo(n), {k as int});
    UpToSize(n);
    assert |before| == |before.Keys|;
  }

  lemma AdoptedKeys(m: NodeMap, n: nat, k: nat, status: string, now: int, r: NodeMap)
    requires AdoptsUpTo(m, k, status, now, r) && m.Keys <= UpTo(n) && k <= n
    ensures r.Keys <= UpTo(n)
  {
  }

  lemma AdoptNext(m: NodeMap, cap: int, k: nat, status: string, now: int, before: NodeMap)
    requires k > 0 && AdoptsUpTo(m, k - 1, status, now, before)
    requires k as int !in before ==> |before| < cap
    requires forall id :: id in m ==> 1 <= id
    ensures AdoptsUpTo(m, k, status, now, MergeOne(before, cap, CloudNode(k, "", "", status), now))
  {
    var r := MergeOne(before, cap, CloudNode(k, "", "", status), now);
    assert r.Keys == before.Keys + {k as int};
    assert UpTo(k) == UpTo(k - 1) + {k as int};
    assert k as int in before ==> before[k] == m[k];
    forall id | id in r ensures r[id] == if id <= k then Adopted(m, id, status, now) else m[id] {
      if id != k {
        assert r[id] == before[id];
      }
    }
  }

  lemma MergeOneMore(m: NodeMap, cap: int, listing: seq<CloudNode>, cn: CloudNode, now: int)
    ensures Reconciliation.Merge(m, cap, listing + [cn], now)
            == MergeOne(Reconciliation.Merge(m, cap, listing, now), cap, cn, now)
  {
    assert (listing + [cn])[..|listing|] == listing;
  }

  lemma AdoptOne(m: NodeMap, cap: int, n: nat, k: nat, status: string, now: int, before: NodeMap, r: NodeMap)
    requires m.Keys <= UpTo(n) && n <= cap && 0 < k <= n
    requires AdoptsUpTo(m, k - 1, status, now, before)
    requires r == MergeOne(before, cap, CloudNode(k, "", "", status), now)
    ensures AdoptsUpTo(m, k, status, now, r)
  {
    if k as int !in before {
      AdoptedKeys(m, n, k - 1, status, now, before);
      RoomForOne(before, n, k);
    }
    AdoptNext(m, cap, k, status, now, before);
  }

  lemma {:induction false} MergeAdopts(m: NodeMap, cap: int, n: nat, k: nat, status: string, now: int, r: NodeMap)
    requires m.Keys <= UpTo(n) && n <= cap && k <= n
    requires r == Reconciliation.Merge(m, cap, Listing(k, status), now)
    ensures AdoptsUpTo(m, k, status, now, r)
  {
    if k == 0 {
      assert UpTo(0) == {};
    } else {
      var before := Reconciliation.Merge(m, cap, Listing(k - 1, status), now);
      MergeAdopts(m, cap, n, k - 1, status, now, before);
      MergeOneMore(m, cap, Listing(k - 1, status), CloudNode(k, "", "", status), now);
      AdoptOne(m, cap, n, k, status, now, before, r);
    }
  }

  /** A pass over instances 1..n, when nothing else is tracked and the cap allows n, tracks exactly those. */
  lemma PassAdopts(m: NodeMap, cap: int, n: nat, status: string, now: int)
    requires m.Keys <= UpTo(n) && n <= cap
    ensures Reconcile(m, cap, Listing(n, status), now) == map id | id in UpTo(n) :: Adopted(m, id, status, now)
  {
    var r := Reconciliation.Merge(m, cap, Listing(n, status), now);
    MergeAdopts(m, cap, n, n, status, now, r);
    ListingIds(n, status);
    SweepKeepsAdopted(m, n, status, now, r);
  }

  lemma SweepKeepsAdopted(m: NodeMap, n: nat, status: string, now: int, r: NodeMap)
    requires m.Keys <= UpTo(n) && AdoptsUpTo(m, n, status, now, r)
    ensures Reconciliation.Sweep(r, UpTo(n)) == map id | id in UpTo(n) :: Adopted(m, id, status, now)
  {
    AdoptedKeys(m, n, n, status, now, r);
  }

  /** Instances appear until there are n. */
  lemma {:induction false} AppearReached(cfg: Config, s: Sys, k: nat, n: nat) returns (s': Sys)
    requires Reachable(cfg, s) && k <= n && s.used == UpTo(k)
    ensures Reachable(cfg, s') && s' == s.(live := s.live + (UpTo(n) - UpTo(k)), used := UpTo(n))
    decreases n - k
  {
    if k == n {
      s' := s;
      assert s.live + (UpTo(n) - UpTo(k)) == s.live;
    } else {
      var id: int := k + 1;
      StepIsReachable(cfg, s, Appear(id));
      var s1 := Apply(cfg, s, Appear(id));
      assert UpTo(k) + {id} == UpTo(k + 1);
      s' := AppearReached(cfg, s1, k + 1, n);
      assert s1.live + (UpTo(n) - UpTo(k + 1)) == s.live + (UpTo(n) - UpTo(k));
    }
  }

  /** Nodes 1..n, all ready since time 0. */
  function Adoptees(n: nat): NodeMap {
    map id | id in UpTo(n) :: NodeInfo("", "", Ready, 0, Some(0), false)
  }

  lemma AdopteesCount(n: nat)
    ensures var m := Adoptees(n);
            ActiveCount(m) == ReadyCount(m) == |m| == n && !InProgress(m) && ReadyIds(m) == m.Keys
    ensures n > 0 ==> Top(Adoptees(n).Keys) == n
  {
    var m := Adoptees(n);
    UpToSize(n);
    AllReadyCounts(m);
    assert m.Keys == UpTo(n);
    assert |m| == |m.Keys|;
    if n > 0 {
      assert n in m.Keys;
      assert Top(m.Keys) in m.Keys;
    }
  }

  /** What a tick over that fleet reads while no scale event was recorded. */
  lemma AdopteesRead(cfg: Config, n: nat, pending: int, now: int)
    requires n > 0
    ensures Read(cfg, Adoptees(n), None, pending, now) == Reading(now, pending, n, n, true, false, n)
  {
    AdopteesCount(n);
  }

  /** A pass over n running instances changes nothing once they are adopted. */
  lemma PassKeepsAdoptees(cap: int, n: nat, now: int)
    requires n <= cap
    ensures Reconcile(Adoptees(n), cap, Listing(n, "running"), now) == Adoptees(n)
  {
    PassAdopts(Adoptees(n), cap, n, "running", now);
  }

  /** The state after the startup pass over n running instances. */
  function Started(n: nat): Sys {
    START.(nodes := Adoptees(n), live := UpTo(n), used := UpTo(n))
  }

  lemma StartedReached(cfg: Config, n: nat)
    requires n <= cfg.maxNodes
    ensures Reachable(cfg, Started(n))
  {
    StartIsReachable(cfg);
    assert UpTo(0) == {};
    var s1 := AppearReached(cfg, START, 0, n);
    assert {} + (UpTo(n) - UpTo(0)) == UpTo(n);
    ListingIds(n, "running");
    StartupAdopts(cfg, n);
    var s2 := PassReached(cfg, s1, Listing(n, "running"));
    StepIsReachable(cfg, s2, Skip);
  }

  lemma StartupAdopts(cfg: Config, n: nat)
    requires n <= cfg.maxNodes
    ensures Reconcile(map[], cfg.maxNodes, Listing(n, "running"), 0) == Adoptees(n)
  {
    PassAdopts(map[], cfg.maxNodes, n, "running", 0);
  }

  /** A tick over an adopted fleet. */
  lemma TickOverAdoptees(cfg: Config, s: Sys, n: nat, pending: int, up: nat, down: nat) returns (s': Sys)
    requires Reachable(cfg, s) && s.mon.Waiting? && s.nodes == Adoptees(n) && UpTo(n) <= s.used && n <= cfg.maxNodes
    requires up !in s.tasks && down !in s.tasks && up != down
    ensures Reachable(cfg, s') && s' == ApplyEvaluate(cfg, s.(mon := Evaluating), pending, up, down)
  {
    ListingIds(n, "running");
    PassKeepsAdoptees(cfg.maxNodes, n, s.clock);
    s' := TickReached(cfg, s, Listing(n, "running"), pending, up, down);
  }
}
