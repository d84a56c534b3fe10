/**
 * Merging the node table with a cloud listing: the two loops as functions on the table, what they
 * compute in closed form, and how many passes they need to settle.
 */
module Reconciliation {
  import opened Common
  import opened Counting
  import opened Nodes

  /** The cloud provider's view of one managed node. */
  datatype CloudNode = CloudNode(id: int, name: string, ipv4: string, status: string)

  predicate IsRunning(status: string) {
    status == "running"
  }

  // -------------------------------------------------------------- the two loops

  function Addressed(n: NodeInfo, cn: CloudNode): NodeInfo {
    if cn.ipv4 != "" then n.(ipv4 := cn.ipv4) else n
  }

  function Promoted(n: NodeInfo, cn: CloudNode, now: int): NodeInfo {
    if IsRunning(cn.status) && n.state == Provisioning then Enter(n, Ready, now) else n
  }

  /** A tracked node after its listing entry was taken into account. */
  function Observed(n: NodeInfo, cn: CloudNode, now: int): NodeInfo {
    Promoted(Addressed(n, cn), cn, now)
  }

  function MergeOne(m: NodeMap, cap: int, cn: CloudNode, now: int): NodeMap {
    if cn.id in m then m[cn.id := Observed(m[cn.id], cn, now)]
    else if |m| >= cap then m
    else m[cn.id := Observed(Fresh(cn.name, now), cn, now)]
  }

  /** Copying the address and then promoting is observing, and neither undoes the other. */
  lemma ObserveInTwo(m: NodeMap, cn: CloudNode, now: int, addressed: NodeMap, after: NodeMap)
    requires cn.id in m && addressed == m[cn.id := Addressed(m[cn.id], cn)]
    requires after == addressed[cn.id := Promoted(addressed[cn.id], cn, now)]
    ensures after == m[cn.id := Observed(m[cn.id], cn, now)]
    ensures after[cn.id] != m[cn.id] <==> addressed[cn.id] != m[cn.id] || after[cn.id] != addressed[cn.id]
  {
  }

  /** Adding and then observing is one merge step. */
  lemma AddThenObserve(m: NodeMap, cap: int, cn: CloudNode, now: int, added: NodeMap)
    requires cn.id !in m && Try(m, cap, AddNode(cn.id, cn.name), now) == Some(added)
    ensures cn.id in added
    ensures added[cn.id := Observed(added[cn.id], cn, now)] == MergeOne(m, cap, cn, now)
  {
    assert added == m[cn.id := Fresh(cn.name, now)];
    assert added[cn.id := Observed(added[cn.id], cn, now)] == m[cn.id := Observed(added[cn.id], cn, now)];
  }

  /** The first loop, over the listing in order. */
  function Merge(m: NodeMap, cap: int, listing: seq<CloudNode>, now: int): NodeMap {
    if listing == [] then m
    else MergeOne(Merge(m, cap, listing[..|listing| - 1], now), cap, listing[|listing| - 1], now)
  }

  function Ids(listing: seq<CloudNode>): set<int> {
    set cn | cn in listing :: cn.id
  }

  /** The second loop: unlisted nodes go, unless they are still provisioning. */
  function Sweep(m: NodeMap, seen: set<int>): NodeMap {
    map id | id in m && (id in seen || m[id].state == Provisioning) :: m[id]
  }

  /** The table after the second loop has visited every node but those in `todo`. */
  ghost function SweptExcept(m: NodeMap, seen: set<int>, todo: set<int>): NodeMap {
    map id | id in m && (id in todo || id in seen || m[id].state == Provisioning) :: m[id]
  }

  lemma SweepNext(m: NodeMap, seen: set<int>, todo: set<int>, id: int)
    requires id in todo && id in m
    ensures var stale := id !in seen && m[id].state != Provisioning;
            && (!stale ==> SweptExcept(m, seen, todo - {id}) == SweptExcept(m, seen, todo))
            && (stale ==>
                  && SweptExcept(m, seen, todo - {id}) == SweptExcept(m, seen, todo) - {id}
                  && SweptExcept(m, seen, todo - {id}) != m)
  {
    if id !in seen && m[id].state != Provisioning {
      assert id !in SweptExcept(m, seen, todo - {id});
    }
  }

  function Reconcile(m: NodeMap, cap: int, listing: seq<CloudNode>, now: int): NodeMap {
    Sweep(Merge(m, cap, listing, now), Ids(listing))
  }

  // -------------------------------------------------------------- the closed form

  predicate Distinct(listing: seq<CloudNode>) {
    forall i, j :: 0 <= i < j < |listing| ==> listing[i].id != listing[j].id
  }

  /** The listed ids that are not known yet, in listing order. */
  function NewIds(known: set<int>, listing: seq<CloudNode>): seq<int> {
    if listing == [] then []
    else
      var last := listing[|listing| - 1].id;
      NewIds(known, listing[..|listing| - 1]) + if last in known then [] else [last]
  }

  function Min(a: int, b: int): int {
    if a <= b then a else b
  }

  function Room(m: NodeMap, cap: int): nat {
    if |m| >= cap then 0 else cap - |m|
  }

  function Elements(s: seq<int>): set<int> {
    set x | x in s
  }

  /** The earliest listed new ids, as many as the cap leaves room for. */
  function Admitted(m: NodeMap, cap: int, listing: seq<CloudNode>): set<int> {
    var news := NewIds(m.Keys, listing);
    Elements(news[..Min(Room(m, cap), |news|)])
  }

  function Find(listing: seq<CloudNode>, id: int): CloudNode
    requires id in Ids(listing)
  {
    var last := |listing| - 1;
    if listing[last].id == id then listing[last] else Find(listing[..last], id)
  }

  /** The entry a pass leaves for an id: what it was (or a fresh one) plus what was observed. */
  function Entry(m: NodeMap, listing: seq<CloudNode>, id: int, now: int): NodeInfo
    requires id in m || id in Ids(listing)
  {
    if id in Ids(listing) then
      var cn := Find(listing, id);
      Observed(if id in m then m[id] else Fresh(cn.name, now), cn, now)
    else
      m[id]
  }

  /** Tracked nodes the cloud no longer lists and that a pass removes. */
  function Stale(m: NodeMap, listing: seq<CloudNode>): set<int> {
    set id | id in m && id !in Ids(listing) && m[id].state != Provisioning
  }

  /** The table a pass should leave, stated without loops. */
  function Expected(m: NodeMap, cap: int, listing: seq<CloudNode>, now: int): NodeMap {
    var admitted := Admitted(m, cap, listing);
    AdmittedAreListed(m, cap, listing);
    map id | id in m.Keys + admitted && id !in Stale(m, listing) :: Entry(m, listing, id, now)
  }

  lemma ElementsOfAppend(s: seq<int>, x: int)
    ensures Elements(s + [x]) == Elements(s) + {x}
  {
  }

  lemma {:induction false} DistinctSize(s: seq<int>)
    requires forall i, j :: 0 <= i < j < |s| ==> s[i] != s[j]
    ensures |Elements(s)| == |s|
  {
    if s != [] {
      var init, last := s[..|s| - 1], s[|s| - 1];
      assert s == init + [last];
      DistinctSize(init);
      ElementsOfAppend(init, last);
      assert last !in init;
    }
  }

  lemma IdsOfInit(listing: seq<CloudNode>)
    requires listing != []
    ensures var last := |listing| - 1;
            Ids(listing) == Ids(listing[..last]) + {listing[last].id}
    ensures Distinct(listing) ==>
              Distinct(listing[..|listing| - 1]) && listing[|listing| - 1].id !in Ids(listing[..|listing| - 1])
  {
    var last := |listing| - 1;
    assert listing == listing[..last] + [listing[last]];
  }

  lemma {:induction false} NewIdsAre(known: set<int>, listing: seq<CloudNode>)
    ensures Elements(NewIds(known, listing)) == Ids(listing) - known
  {
    if listing != [] {
      var init, last := listing[..|listing| - 1], listing[|listing| - 1].id;
      NewIdsAre(known, init);
      IdsOfInit(listing);
      ElementsOfAppend(NewIds(known, init), last);
      assert NewIds(known, init) + [] == NewIds(known, init);
    }
  }

  lemma {:induction false} NewIdsAreDistinct(known: set<int>, listing: seq<CloudNode>)
    requires Distinct(listing)
    ensures forall i, j :: 0 <= i < j < |NewIds(known, listing)| ==>
        NewIds(known, listing)[i] != NewIds(known, listing)[j]
    ensures |NewIds(known, listing)| == |Ids(listing) - known|
  {
    NewIdsAre(known, listing);
    if listing != [] {
      var init, last := listing[..|listing| - 1], listing[|listing| - 1].id;
      var news := NewIds(known, init);
      NewIdsAreDistinct(known, init);
      NewIdsAre(known, init);
      IdsOfInit(listing);
      forall i | 0 <= i < |news| ensures news[i] != last {
        assert news[i] in Elements(news);
      }
    }
    DistinctSize(NewIds(known, listing));
  }

  lemma AdmittedAreListed(m: NodeMap, cap: int, listing: seq<CloudNode>)
    ensures Admitted(m, cap, listing) <= Ids(listing) - m.Keys
  {
    NewIdsAre(m.Keys, listing);
    var news := NewIds(m.Keys, listing);
    forall x | x in Admitted(m, cap, listing) ensures x in Elements(news) {
    }
  }

  /** How many are admitted: all new ids, or exactly the room there is. */
  lemma AdmittedSize(m: NodeMap, cap: int, listing: seq<CloudNode>)
    requires Distinct(listing)
    ensures |Admitted(m, cap, listing)| == Min(Room(m, cap), |Ids(listing) - m.Keys|)
  {
    NewIdsAreDistinct(m.Keys, listing);
    var news := NewIds(m.Keys, listing);
    DistinctSize(news[..Min(Room(m, cap), |news|)]);
  }

  lemma {:induction false} MergeSize(m: NodeMap, cap: int, listing: seq<CloudNode>, now: int)
    requires Distinct(listing)
    requires Merge(m, cap, listing, now).Keys == m.Keys + Admitted(m, cap, listing)
    ensures |Merge(m, cap, listing, now)| == |m| + Min(Room(m, cap), |NewIds(m.Keys, listing)|)
  {
    AdmittedAreListed(m, cap, listing);
    AdmittedSize(m, cap, listing);
    NewIdsAreDistinct(m.Keys, listing);
    var merged := Merge(m, cap, listing, now);
    assert |merged| == |merged.Keys|;
  }

  /** Entries other than the last listed one do not depend on the last listing element. */
  lemma EntryOfInit(m: NodeMap, listing: seq<CloudNode>, id: int, now: int)
    requires listing != [] && id != listing[|listing| - 1].id
    requires id in m || id in Ids(listing)
    ensures id in m || id in Ids(listing[..|listing| - 1])
    ensures Entry(m, listing, id, now) == Entry(m, listing[..|listing| - 1], id, now)
  {
    IdsOfInit(listing);
  }

  ghost predicate MergeIsExpected(m: NodeMap, cap: int, listing: seq<CloudNode>, now: int) {
    var merged := Merge(m, cap, listing, now);
    && merged.Keys == m.Keys + Admitted(m, cap, listing)
    && forall id :: id in merged ==> (id in m || id in Ids(listing)) && merged[id] == Entry(m, listing, id, now)
  }

  lemma {:induction false} MergeIs(m: NodeMap, cap: int, listing: seq<CloudNode>, now: int)
    requires Distinct(listing)
    ensures MergeIsExpected(m, cap, listing, now)
  {
    if listing != [] {
      IdsOfInit(listing);
      MergeIs(m, cap, listing[..|listing| - 1], now);
      MergeNext(m, cap, listing, now);
    }
  }

  /** The cap test of a merge step, in terms of the room there was before the pass. */
  lemma RoomLeft(m: NodeMap, cap: int, before: NodeMap, news: nat)
    requires |before| == |m| + Min(Room(m, cap), news)
    ensures |before| >= cap <==> news >= Room(m, cap)
  {
  }

  /** One merge step adds the listed id exactly when it is new and fewer than `Room` new ids came before. */
  lemma MergeOneKeys(m: NodeMap, cap: int, before: NodeMap, cn: CloudNode, now: int, admitted: set<int>, room: bool)
    requires before.Keys == m.Keys + admitted && cn.id !in admitted
    requires room == (|before| < cap)
    ensures MergeOne(before, cap, cn, now).Keys == m.Keys + (admitted + if cn.id !in m && room then {cn.id} else {})
  {
  }

  lemma {:induction false} MergeNextKeys(m: NodeMap, cap: int, listing: seq<CloudNode>, now: int)
    requires Distinct(listing) && listing != []
    requires Distinct(listing[..|listing| - 1])
    requires MergeIsExpected(m, cap, listing[..|listing| - 1], now)
    ensures Merge(m, cap, listing, now).Keys == m.Keys + Admitted(m, cap, listing)
  {
    var init, cn := listing[..|listing| - 1], listing[|listing| - 1];
    var before := Merge(m, cap, init, now);
    IdsOfInit(listing);
    MergeSize(m, cap, init, now);
    AdmittedAreListed(m, cap, init);
    RoomLeft(m, cap, before, |NewIds(m.Keys, init)|);
    MergeOneKeys(m, cap, before, cn, now, Admitted(m, cap, init), |NewIds(m.Keys, init)| < Room(m, cap));
    AdmittedNext(m, cap, listing);
  }

  lemma {:induction false} MergeNext(m: NodeMap, cap: int, listing: seq<CloudNode>, now: int)
    requires Distinct(listing) && listing != []
    requires Distinct(listing[..|listing| - 1])
    requires MergeIsExpected(m, cap, listing[..|listing| - 1], now)
    ensures MergeIsExpected(m, cap, listing, now)
  {
    var init, cn := listing[..|listing| - 1], listing[|listing| - 1];
    var before := Merge(m, cap, init, now);
    var merged := Merge(m, cap, listing, now);
    MergeNextKeys(m, cap, listing, now);
    IdsOfInit(listing);
    AdmittedAreListed(m, cap, init);
    assert merged == MergeOne(before, cap, cn, now);
    forall id | id in merged
      ensures (id in m || id in Ids(listing)) && merged[id] == Entry(m, listing, id, now)
    {
      MergeNextEntry(m, cap, listing, now, before, id);
    }
  }

  lemma MergeNextEntry(m: NodeMap, cap: int, listing: seq<CloudNode>, now: int, before: NodeMap, id: int)
    requires listing != [] && id in MergeOne(before, cap, listing[|listing| - 1], now)
    requires var init, last := listing[..|listing| - 1], listing[|listing| - 1].id;
             && (last in before ==> last in m)
             && Ids(listing) == Ids(init) + {last} && last !in Ids(init)
             && (id in before ==> (id in m || id in Ids(init)) && before[id] == Entry(m, init, id, now))
             && (last in m ==> last in before)
    ensures (id in m || id in Ids(listing))
    ensures MergeOne(before, cap, listing[|listing| - 1], now)[id] == Entry(m, listing, id, now)
  {
    var cn := listing[|listing| - 1];
    if id == cn.id {
      assert Find(listing, id) == cn;
    } else {
      assert id in before;
      EntryOfInit(m, listing, id, now);
    }
  }

  /** One more listing entry admits at most itself, if it is new and there is room. */
  lemma AdmittedNext(m: NodeMap, cap: int, listing: seq<CloudNode>)
    requires listing != []
    ensures var init, id := listing[..|listing| - 1], listing[|listing| - 1].id;
            Admitted(m, cap, listing) ==
              Admitted(m, cap, init)
              + if id !in m && |NewIds(m.Keys, init)| < Room(m, cap) then {id} else {}
  {
    var init, id := listing[..|listing| - 1], listing[|listing| - 1].id;
    var room, news := Room(m, cap), NewIds(m.Keys, init);
    if id !in m {
      if |news| < room {
        assert (news + [id])[..Min(room, |news| + 1)] == news + [id];
        assert news[..Min(room, |news|)] == news;
        ElementsOfAppend(news, id);
      } else {
        assert (news + [id])[..room] == news[..room];
      }
    } else {
      assert news + [] == news;
    }
  }

  /**
   * For every table and duplicate-free listing, the loops leave exactly the expected table:
   * listed tracked nodes kept, the earliest new ids admitted while there is room, unlisted nodes
   * removed unless provisioning, addresses copied, running provisioning nodes promoted.
   */
  lemma ReconcileIsExpected(m: NodeMap, cap: int, listing: seq<CloudNode>, now: int)
    requires Distinct(listing)
    ensures Reconcile(m, cap, listing, now) == Expected(m, cap, listing, now)
  {
    MergeIs(m, cap, listing, now);
    AdmittedAreListed(m, cap, listing);
    SweepOfMerged(m, cap, listing, now, Merge(m, cap, listing, now));
  }

  /** From the expected merged table, the sweep takes exactly the stale nodes. */
  lemma SweepOfMerged(m: NodeMap, cap: int, listing: seq<CloudNode>, now: int, merged: NodeMap)
    requires merged.Keys == m.Keys + Admitted(m, cap, listing) && Admitted(m, cap, listing) <= Ids(listing) - m.Keys
    requires forall id :: id in merged ==> (id in m || id in Ids(listing)) && merged[id] == Entry(m, listing, id, now)
    ensures Sweep(merged, Ids(listing)) == Expected(m, cap, listing, now)
  {
    var swept, expected := Sweep(merged, Ids(listing)), Expected(m, cap, listing, now);
    forall id ensures id in swept <==> id in expected {
      assert id in merged && id !in Ids(listing) ==> id in m && merged[id] == m[id];
    }
  }

  // -------------------------------------------------------------- settling

  lemma ObservingTwice(n: NodeInfo, cn: CloudNode, now: int, later: int)
    ensures Observed(Observed(n, cn, now), cn, later) == Observed(n, cn, now)
  {
  }

  lemma NothingAdmittedIff(m: NodeMap, cap: int, listing: seq<CloudNode>)
    requires Distinct(listing)
    ensures Admitted(m, cap, listing) == {} <==> Room(m, cap) == 0 || Ids(listing) <= m.Keys
  {
    AdmittedSize(m, cap, listing);
    AdmittedAreListed(m, cap, listing);
    NothingLeftIff(Ids(listing), m.Keys);
  }

  lemma PassKeys(m: NodeMap, cap: int, listing: seq<CloudNode>, now: int)
    requires Distinct(listing)
    ensures Reconcile(m, cap, listing, now).Keys == (m.Keys + Admitted(m, cap, listing)) - Stale(m, listing)
  {
    ReconcileIsExpected(m, cap, listing, now);
  }

  lemma ListedEntriesSettle(m: NodeMap, cap: int, listing: seq<CloudNode>, now: int, later: int, id: int)
    requires Distinct(listing)
    requires id in Reconcile(m, cap, listing, now)
    ensures Entry(Reconcile(m, cap, listing, now), listing, id, later) == Reconcile(m, cap, listing, now)[id]
  {
    ReconcileIsExpected(m, cap, listing, now);
    if id in Ids(listing) {
      var cn := Find(listing, id);
      ObservingTwice(if id in m then m[id] else Fresh(cn.name, now), cn, now, later);
    }
  }

  lemma PassLeavesNothingStale(m: NodeMap, cap: int, listing: seq<CloudNode>, now: int)
    requires Distinct(listing)
    ensures Stale(Reconcile(m, cap, listing, now), listing) == {}
  {
    ReconcileIsExpected(m, cap, listing, now);
    AdmittedAreListed(m, cap, listing);
  }

  /** After a pass, only the cap can still keep the table from being settled. */
  lemma PassSettlesEntries(m: NodeMap, cap: int, listing: seq<CloudNode>, now: int, later: int)
    requires Distinct(listing)
    ensures var m1 := Reconcile(m, cap, listing, now);
            && Stale(m1, listing) == {}
            && (Reconcile(m1, cap, listing, later) == m1 <==> Admitted(m1, cap, listing) == {})
  {
    var m1 := Reconcile(m, cap, listing, now);
    PassLeavesNothingStale(m, cap, listing, now);
    PassKeys(m1, cap, listing, later);
    AdmittedAreListed(m1, cap, listing);
    if Admitted(m1, cap, listing) == {} {
      ReconcileIsExpected(m1, cap, listing, later);
      forall id | id in m1 ensures Entry(m1, listing, id, later) == m1[id] {
        ListedEntriesSettle(m, cap, listing, now, later, id);
      }
    }
  }

  lemma PassSize(m: NodeMap, cap: int, listing: seq<CloudNode>, now: int)
    requires Distinct(listing)
    ensures |Reconcile(m, cap, listing, now)| == |m| + |Admitted(m, cap, listing)| - |Stale(m, listing)|
  {
    var m1, admitted, stale := Reconcile(m, cap, listing, now), Admitted(m, cap, listing), Stale(m, listing);
    PassKeys(m, cap, listing, now);
    AdmittedAreListed(m, cap, listing);
    DisjointUnionSize(m.Keys, admitted);
    RemainderSize(m.Keys + admitted, stale);
    assert |m1| == |m1.Keys|;
  }

  /** Everything listed is tracked after a pass exactly when every new id was admitted. */
  lemma AllListedTrackedIff(ids: set<int>, known: set<int>, admitted: set<int>, stale: set<int>)
    requires admitted <= ids - known && stale !! ids
    ensures ids <= (known + admitted) - stale <==> |admitted| == |ids - known|
  {
    Subset(admitted, ids - known);
    if ids <= (known + admitted) - stale {
      assert ids - known <= admitted;
      assert admitted == ids - known;
    }
  }

  /** The union fits under the cap exactly when the new ids fit into the room. */
  lemma UnionFitsIff(m: NodeMap, cap: int, ids: set<int>)
    requires |m| <= cap
    ensures |m.Keys + ids| <= cap <==> |ids - m.Keys| <= Room(m, cap)
  {
    DisjointUnionSize(m.Keys, ids - m.Keys);
    assert m.Keys + ids == m.Keys + (ids - m.Keys);
  }

  /**
   * One pass settles the table exactly when everything tracked or listed fits under the cap, or
   * nothing tracked is stale: a stale node keeps its slot during the first loop, so an id that
   * does not fit because of it has to wait for the next pass.
   */
  lemma {:induction false} OnePassIff(m: NodeMap, cap: int, listing: seq<CloudNode>, now: int, later: int)
    requires Distinct(listing) && |m| <= cap
    ensures var m1 := Reconcile(m, cap, listing, now);
            Reconcile(m1, cap, listing, later) == m1
            <==> |m.Keys + Ids(listing)| <= cap || Stale(m, listing) == {}
    ensures |Reconcile(m, cap, listing, now)| <= cap
  {
    PassSettlesEntries(m, cap, listing, now, later);
    NothingAdmittedIff(Reconcile(m, cap, listing, now), cap, listing);
    PassKeys(m, cap, listing, now);
    AdmittedAreListed(m, cap, listing);
    AllListedTrackedIff(Ids(listing), m.Keys, Admitted(m, cap, listing), Stale(m, listing));
    PassSize(m, cap, listing, now);
    AdmittedSize(m, cap, listing);
    UnionFitsIff(m, cap, Ids(listing));
  }

  /** Two passes always settle: a third one, at any later time, changes nothing. */
  lemma {:induction false} TwoPassesSettle(m: NodeMap, cap: int, listing: seq<CloudNode>, t1: int, t2: int, t3: int)
    requires Distinct(listing)
    ensures var m2 := Reconcile(Reconcile(m, cap, listing, t1), cap, listing, t2);
            Reconcile(m2, cap, listing, t3) == m2
  {
    var m1 := Reconcile(m, cap, listing, t1);
    PassSettlesEntries(m, cap, listing, t1, t2);
    if |m1| > cap {
      NothingAdmittedIff(m1, cap, listing);
      PassSettlesEntries(m, cap, listing, t1, t3);
    } else {
      OnePassIff(m1, cap, listing, t2, t3);
    }
  }

  // -------------------------------------------------------------- what a pass leaves, field by field

  lemma {:induction false} FindAt(listing: seq<CloudNode>, i: nat)
    requires Distinct(listing) && i < |listing|
    ensures listing[i].id in Ids(listing) && Find(listing, listing[i].id) == listing[i]
  {
    var last := |listing| - 1;
    if i < last {
      IdsOfInit(listing);
      FindAt(listing[..last], i);
    }
  }

  /**
   * What a pass makes of a listed node that is tracked after it. It is ready exactly if it was, or if
   * it was provisioning or new and is listed as "running"; draining and destroying stay. It has the
   * listed address if there is one, keeps its lock, name and creation time, and is stamped ready now
   * if it became so.
   */
  lemma PassLeavesListed(m: NodeMap, cap: int, listing: seq<CloudNode>, now: int, i: nat)
    requires Distinct(listing) && i < |listing| && listing[i].id in Reconcile(m, cap, listing, now)
    ensures var cn := listing[i];
            var n := Reconcile(m, cap, listing, now)[cn.id];
            if cn.id in m then
              && (n.state == Ready <==>
                    m[cn.id].state == Ready || (m[cn.id].state == Provisioning && cn.status == "running"))
              && (n.state == Provisioning <==> m[cn.id].state == Provisioning && cn.status != "running")
              && (n.state == Draining <==> m[cn.id].state == Draining)
              && (n.state == Destroying <==> m[cn.id].state == Destroying)
              && n.ipv4 == (if cn.ipv4 != "" then cn.ipv4 else m[cn.id].ipv4)
              && n.drainLocked == m[cn.id].drainLocked
              && n.name == m[cn.id].name && n.createdAt == m[cn.id].createdAt
              && n.readyAt == if m[cn.id].state == Provisioning && n.state == Ready then Some(now) else m[cn.id].readyAt
            else
              && n.state == (if cn.status == "running" then Ready else Provisioning)
              && n.ipv4 == cn.ipv4 && n.name == cn.name && !n.drainLocked && n.createdAt == now
              && n.readyAt == if cn.status == "running" then Some(now) else None
  {
    ReconcileIsExpected(m, cap, listing, now);
    FindAt(listing, i);
  }

  /** An unlisted node is tracked after a pass exactly if it was tracked as provisioning, and is as it was. */
  lemma PassLeavesUnlisted(m: NodeMap, cap: int, listing: seq<CloudNode>, now: int, id: int)
    requires Distinct(listing) && forall i :: 0 <= i < |listing| ==> listing[i].id != id
    ensures id in Reconcile(m, cap, listing, now) <==> id in m && m[id].state == Provisioning
    ensures id in Reconcile(m, cap, listing, now) ==> Reconcile(m, cap, listing, now)[id] == m[id]
  {
    ReconcileIsExpected(m, cap, listing, now);
    AdmittedAreListed(m, cap, listing);
  }

  /** The places in the listing, before the i-th, of ids that were not tracked. */
  function NewBefore(m: NodeMap, listing: seq<CloudNode>, i: nat): set<int>
    requires i <= |listing|
  {
    set j | 0 <= j < i && listing[j].id !in m
  }

  lemma {:induction false} NewBeforeSize(m: NodeMap, listing: seq<CloudNode>, i: nat)
    requires i <= |listing|
    ensures |NewBefore(m, listing, i)| == |NewIds(m.Keys, listing[..i])|
  {
    if i > 0 {
      NewBeforeSize(m, listing, i - 1);
      assert listing[..i][..i - 1] == listing[..i - 1];
      assert NewBefore(m, listing, i) ==
               NewBefore(m, listing, i - 1) + if listing[i - 1].id !in m then {i - 1} else {};
    }
  }

  /** A new id comes after the new ids listed before it. */
  lemma {:induction false} NewIdAt(known: set<int>, listing: seq<CloudNode>, i: nat)
    requires i < |listing| && listing[i].id !in known
    ensures var k := |NewIds(known, listing[..i])|;
            k < |NewIds(known, listing)| && NewIds(known, listing)[k] == listing[i].id
  {
    var last := |listing| - 1;
    if i < last {
      NewIdAt(known, listing[..last], i);
      assert listing[..last][..i] == listing[..i];
    }
  }

  lemma AdmittedAt(m: NodeMap, cap: int, listing: seq<CloudNode>, i: nat)
    requires Distinct(listing) && i < |listing| && listing[i].id !in m
    ensures listing[i].id in Admitted(m, cap, listing) <==> |NewIds(m.Keys, listing[..i])| < Room(m, cap)
  {
    var news, k := NewIds(m.Keys, listing), |NewIds(m.Keys, listing[..i])|;
    NewIdAt(m.Keys, listing, i);
    NewIdsAreDistinct(m.Keys, listing);
    AmongFirst(news, k, Min(Room(m, cap), |news|));
  }

  lemma AmongFirst(s: seq<int>, k: nat, n: nat)
    requires k < |s| && n <= |s| && forall i, j :: 0 <= i < j < |s| ==> s[i] != s[j]
    ensures s[k] in Elements(s[..n]) <==> k < n
  {
    if k < n {
      assert s[..n][k] == s[k];
    }
  }

  /**
   * A listed node is tracked after a pass exactly if it was before, or if fewer untracked nodes are
   * listed before it than there was room under the cap when the pass began.
   */
  lemma PassTracksListed(m: NodeMap, cap: int, listing: seq<CloudNode>, now: int, i: nat)
    requires Distinct(listing) && i < |listing|
    ensures listing[i].id in Reconcile(m, cap, listing, now) <==>
              listing[i].id in m || |m| + |NewBefore(m, listing, i)| < cap
  {
    PassKeys(m, cap, listing, now);
    FindAt(listing, i);
    NewBeforeSize(m, listing, i);
    if listing[i].id !in m {
      AdmittedAt(m, cap, listing, i);
    }
  }

  // -------------------------------------------------------------- the changed flag

  /** Some step of the first loop altered the table. */
  ghost predicate MergeTouched(m: NodeMap, cap: int, listing: seq<CloudNode>, now: int) {
    && listing != []
    && var init := listing[..|listing| - 1];
       || MergeTouched(m, cap, init, now)
       || Merge(m, cap, listing, now) != Merge(m, cap, init, now)
  }

  /** The flag the pass computes: some step of either loop altered the table. */
  ghost predicate Touched(m: NodeMap, cap: int, listing: seq<CloudNode>, now: int) {
    var merged := Merge(m, cap, listing, now);
    MergeTouched(m, cap, listing, now) || Sweep(merged, Ids(listing)) != merged
  }

  /** A merge step never undoes what the steps before it did. */
  lemma MergeStepsDoNotCancel(m: NodeMap, cap: int, listing: seq<CloudNode>, now: int)
    requires Distinct(listing) && listing != []
    requires Merge(m, cap, listing, now) == m
    ensures Merge(m, cap, listing[..|listing| - 1], now) == m
  {
    var init, cn := listing[..|listing| - 1], listing[|listing| - 1];
    var before := Merge(m, cap, init, now);
    IdsOfInit(listing);
    MergeIs(m, cap, init, now);
    AdmittedAreListed(m, cap, init);
    assert MergeOne(before, cap, cn, now) == m;
    assert before.Keys == m.Keys;
    assert cn.id in before ==> before[cn.id] == Entry(m, init, cn.id, now) == m[cn.id];
    assert before == m;
  }

  lemma {:induction false} MergeTouchedIff(m: NodeMap, cap: int, listing: seq<CloudNode>, now: int)
    requires Distinct(listing)
    ensures MergeTouched(m, cap, listing, now) <==> Merge(m, cap, listing, now) != m
  {
    if listing != [] {
      var init := listing[..|listing| - 1];
      IdsOfInit(listing);
      MergeTouchedIff(m, cap, init, now);
      if Merge(m, cap, listing, now) == m {
        MergeStepsDoNotCancel(m, cap, listing, now);
      }
    }
  }

  /** For a duplicate-free listing the flag is exact: it is set when the table differs afterwards. */
  lemma TouchedIff(m: NodeMap, cap: int, listing: seq<CloudNode>, now: int)
    requires Distinct(listing)
    ensures Touched(m, cap, listing, now) <==> Reconcile(m, cap, listing, now) != m
  {
    var merged := Merge(m, cap, listing, now);
    MergeTouchedIff(m, cap, listing, now);
    MergeIs(m, cap, listing, now);
    AdmittedAreListed(m, cap, listing);
    var swept := Sweep(merged, Ids(listing));
    if swept == m {
      forall id | id in merged ensures id in swept {
        assert id in m || id in Ids(listing);
      }
      assert swept == merged;
    }
  }
}
