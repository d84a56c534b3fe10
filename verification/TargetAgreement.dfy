/** When the target file agrees with the node table, over operations run one at a time. */
module TargetAgreement {
  import opened Common
  import opened Nodes
  import opened Scaling
  import opened Reconciliation
  import opened Discovery
  import opened Operations

  /** The operations that can touch the table or the file, with every answer from outside. */
  datatype Op =
    | UpOp(created: Option<int>, name: string, now: int)
    | WaitOp(id: int, outcome: WaitOutcome, now: int)
    | DownOp(id: int, now: int, destroyOk: bool, done: int)
    | ReconcileOp(listing: seq<CloudNode>, now: int)
    | LockOp(id: int, locked: bool)

  ghost function Perform(cfg: Config, c: Control, op: Op, writeOk: bool): Control {
    match op
    case UpOp(created, name, now) => ScaleUp(cfg, c, created, name, now).after
    case WaitOp(id, outcome, now) => WaitForNodeReady(cfg, c, id, outcome, now, writeOk)
    case DownOp(id, now, destroyOk, done) => ScaleDown(cfg, c, id, now, destroyOk, done, writeOk).after
    case ReconcileOp(listing, now) => ReconcileControl(cfg, c, listing, now, writeOk)
    case LockOp(id, locked) => c.(nodes := After(c.nodes, cfg.maxNodes, SetDrainLock(id, locked), 0))
  }

  /** The file lists every exporter of every ready node with an address, each once. */
  ghost predicate Agrees(c: Control) {
    c.targets == multiset(Index(c.nodes))
  }

  /**
   * The two operations that forget to rewrite the file: a scale-down whose destroy call failed,
   * and a waiter that gives up on a node which a reconcile has made ready; both only matter when
   * the node was listed in the file.
   */
  ghost predicate Breaks(cfg: Config, c: Control, op: Op) {
    match op
    case DownOp(id, now, destroyOk, done) =>
      !destroyOk && BlockedBy(cfg, c, id, now) == None && Scraped(c.nodes[id])
    case WaitOp(id, outcome, now) =>
      outcome.NeverCameUp? && id in c.nodes && Scraped(c.nodes[id])
    case _ => false
  }

  lemma SetsAsMultisets<T>(a: set<T>, b: set<T>)
    requires multiset(a) == multiset(b)
    ensures a == b
  {
    forall x ensures x in a <==> x in b {
      assert x in a <==> x in multiset(a);
      assert x in b <==> x in multiset(b);
    }
  }

  lemma AgreesIffSameIndex(c: Control, after: Control)
    requires Agrees(c) && after.targets == c.targets
    ensures Agrees(after) <==> Index(after.nodes) == Index(c.nodes)
  {
    if Agrees(after) {
      SetsAsMultisets(Index(after.nodes), Index(c.nodes));
    }
  }

  lemma {:induction false} UntouchedMerge(m: NodeMap, cap: int, listing: seq<CloudNode>, now: int)
    requires !MergeTouched(m, cap, listing, now)
    ensures Merge(m, cap, listing, now) == m
  {
    if listing != [] {
      UntouchedMerge(m, cap, listing[..|listing| - 1], now);
    }
  }

  lemma DownAgreement(cfg: Config, c: Control, op: Op)
    requires Agrees(c) && op.DownOp?
    ensures Agrees(Perform(cfg, c, op, true)) <==> !Breaks(cfg, c, op)
  {
    if op.destroyOk {
      DestroyedAgreement(cfg, c, op);
    } else if Breaks(cfg, c, op) {
      AgreesIffSameIndex(c, Perform(cfg, c, op, true));
      FailedDestroyDiffers(cfg, c, op);
    } else {
      AgreesIffSameIndex(c, Perform(cfg, c, op, true));
      FailedDestroySame(cfg, c, op);
    }
  }

  /** A scale-down that goes through rewrites the file. */
  lemma DestroyedAgreement(cfg: Config, c: Control, op: Op)
    requires Agrees(c) && op.DownOp? && op.destroyOk
    ensures Agrees(Perform(cfg, c, op, true))
  {
    ScaleDownEffect(cfg, c, op.id, op.now, true, op.done, true);
  }

  lemma FailedDestroyDiffers(cfg: Config, c: Control, op: Op)
    requires op.DownOp? && Breaks(cfg, c, op)
    ensures Index(Perform(cfg, c, op, true).nodes) != Index(c.nodes)
  {
    ScaleDownEffect(cfg, c, op.id, op.now, false, op.done, true);
    DifferentIndex(c.nodes, Perform(cfg, c, op, true).nodes, op.id);
  }

  lemma FailedDestroySame(cfg: Config, c: Control, op: Op)
    requires op.DownOp? && !op.destroyOk && !Breaks(cfg, c, op)
    ensures Index(Perform(cfg, c, op, true).nodes) == Index(c.nodes)
  {
    ScaleDownEffect(cfg, c, op.id, op.now, false, op.done, true);
    SameIndex(c.nodes, Perform(cfg, c, op, true).nodes);
  }

  /** A waiter that gives up removes its node; one whose node came up makes it ready, unless it is past that. */
  lemma WaitEffect(cfg: Config, c: Control, id: int, outcome: WaitOutcome, now: int)
    ensures var after := WaitForNodeReady(cfg, c, id, outcome, now, true);
            && (outcome.NeverCameUp? ==> after == c.(nodes := c.nodes - {id}))
            && (outcome.CameUp? && id !in c.nodes ==> after == c)
            && (outcome.CameUp? && id in c.nodes && c.nodes[id].state in {Draining, Destroying} ==>
                  after == c.(nodes := c.nodes[id := c.nodes[id].(ipv4 := outcome.ip)]))
            && (outcome.CameUp? && id in c.nodes && c.nodes[id].state in {Provisioning, Ready} ==>
                  Agrees(after) && id in after.nodes && after.nodes[id].state == Ready
                      && after.nodes[id].ipv4 == outcome.ip)
  {
    if outcome.NeverCameUp? {
      assert After(c.nodes, cfg.maxNodes, TransitionNode(id, Destroying), now) - {id} == c.nodes - {id};
    }
  }

  lemma WaitAgreement(cfg: Config, c: Control, op: Op)
    requires Agrees(c) && op.WaitOp?
    ensures Agrees(Perform(cfg, c, op, true)) <==> !Breaks(cfg, c, op)
  {
    var after := Perform(cfg, c, op, true);
    WaitEffect(cfg, c, op.id, op.outcome, op.now);
    if op.outcome.NeverCameUp? {
      AgreesIffSameIndex(c, after);
      if Breaks(cfg, c, op) {
        DifferentIndex(c.nodes, after.nodes, op.id);
      } else {
        SameIndex(c.nodes, after.nodes);
      }
    } else if op.id in c.nodes && c.nodes[op.id].state in {Draining, Destroying} {
      SameIndex(c.nodes, after.nodes);
    }
  }

  lemma UpAgreement(cfg: Config, c: Control, op: Op)
    requires Agrees(c) && op.UpOp?
    ensures Agrees(Perform(cfg, c, op, true))
  {
    ScaleUpIsAllOrNothing(cfg, c, op.created, op.name, op.now);
    SameIndex(c.nodes, Perform(cfg, c, op, true).nodes);
  }

  lemma LockAgreement(cfg: Config, c: Control, op: Op)
    requires Agrees(c) && op.LockOp?
    ensures Agrees(Perform(cfg, c, op, true))
  {
    SameIndex(c.nodes, Perform(cfg, c, op, true).nodes);
  }

  lemma ReconcileAgreement(cfg: Config, c: Control, op: Op)
    requires Agrees(c) && op.ReconcileOp?
    ensures Agrees(Perform(cfg, c, op, true))
  {
    if !Touched(c.nodes, cfg.maxNodes, op.listing, op.now) {
      UntouchedMerge(c.nodes, cfg.maxNodes, op.listing, op.now);
    }
  }

  /**
   * With working writes, an operation keeps the file in agreement exactly when it is not one of
   * the two that forget it.
   */
  lemma AgreementIff(cfg: Config, c: Control, op: Op)
    requires Agrees(c)
    ensures Agrees(Perform(cfg, c, op, true)) <==> !Breaks(cfg, c, op)
  {
    match op {
      case DownOp(_, _, _, _) => DownAgreement(cfg, c, op);
      case WaitOp(_, _, _) => WaitAgreement(cfg, c, op);
      case UpOp(_, _, _) => UpAgreement(cfg, c, op);
      case LockOp(_, _) => LockAgreement(cfg, c, op);
      case ReconcileOp(_, _) => ReconcileAgreement(cfg, c, op);
    }
  }

  /** Whatever was lost before, a reconcile that changes something and can write restores agreement. */
  lemma ReconcileRestores(cfg: Config, c: Control, listing: seq<CloudNode>, now: int)
    requires Distinct(listing) && Reconcile(c.nodes, cfg.maxNodes, listing, now) != c.nodes
    ensures Agrees(Perform(cfg, c, ReconcileOp(listing, now), true))
  {
    TouchedIff(c.nodes, cfg.maxNodes, listing, now);
  }

  // -------------------------------------------------------------- failed writes

  /** The operation changes what the file should list. */
  ghost predicate Relists(cfg: Config, c: Control, op: Op) {
    match op
    case UpOp(_, _, _) => false
    case LockOp(_, _) => false
    case DownOp(id, now, _, _) => BlockedBy(cfg, c, id, now) == None && Scraped(c.nodes[id])
    case WaitOp(id, outcome, _) =>
      && id in c.nodes
      && if outcome.NeverCameUp? then Scraped(c.nodes[id])
         else
           && c.nodes[id].state in {Provisioning, Ready}
           && (if Scraped(c.nodes[id]) then c.nodes[id].ipv4 != outcome.ip else outcome.ip != "")
    case ReconcileOp(listing, now) => Index(Reconcile(c.nodes, cfg.maxNodes, listing, now)) != Index(c.nodes)
  }

  lemma DownRelists(cfg: Config, c: Control, op: Op)
    requires op.DownOp?
    ensures Index(Perform(cfg, c, op, false).nodes) != Index(c.nodes) <==> Relists(cfg, c, op)
  {
    var after := Perform(cfg, c, op, false).nodes;
    ScaleDownEffect(cfg, c, op.id, op.now, op.destroyOk, op.done, false);
    if Relists(cfg, c, op) {
      DifferentIndex(c.nodes, after, op.id);
    } else {
      SameIndex(c.nodes, after);
    }
  }

  /** The table after a waiter does not depend on its write. */
  lemma WaitNodes(cfg: Config, c: Control, id: int, outcome: WaitOutcome, now: int)
    ensures var after := WaitForNodeReady(cfg, c, id, outcome, now, false).nodes;
            && after == WaitForNodeReady(cfg, c, id, outcome, now, true).nodes
            && after - {id} == c.nodes - {id}
  {
  }

  lemma WaitRelists(cfg: Config, c: Control, op: Op)
    requires op.WaitOp?
    ensures Index(Perform(cfg, c, op, false).nodes) != Index(c.nodes) <==> Relists(cfg, c, op)
  {
    var after := Perform(cfg, c, op, false).nodes;
    WaitEffect(cfg, c, op.id, op.outcome, op.now);
    WaitNodes(cfg, c, op.id, op.outcome, op.now);
    SameElsewhere(c.nodes, after, op.id);
    if Relists(cfg, c, op) {
      if Scraped(c.nodes[op.id]) {
        DifferentIndex(c.nodes, after, op.id);
      } else {
        DifferentIndex(after, c.nodes, op.id);
      }
    } else {
      WaitKeepsName(cfg, c, op.id, op.outcome, op.now);
      SameIndex(c.nodes, after);
    }
  }

  lemma SameElsewhere(m: NodeMap, n: NodeMap, id: int)
    requires m - {id} == n - {id}
    ensures forall k :: k != id ==> (k in m <==> k in n) && (k in m ==> m[k] == n[k])
  {
    forall k | k != id ensures (k in m <==> k in n) && (k in m ==> m[k] == n[k]) {
      assert k in m <==> k in m - {id};
      assert k in n <==> k in n - {id};
    }
  }

  lemma WaitKeepsName(cfg: Config, c: Control, id: int, outcome: WaitOutcome, now: int)
    ensures var after := WaitForNodeReady(cfg, c, id, outcome, now, false).nodes;
            id in after ==> id in c.nodes && after[id].name == c.nodes[id].name
  {
  }

  /** Whether an operation changes what the file should list. */
  lemma RelistsIff(cfg: Config, c: Control, op: Op)
    ensures Index(Perform(cfg, c, op, false).nodes) != Index(c.nodes) <==> Relists(cfg, c, op)
  {
    match op {
      case DownOp(_, _, _, _) => DownRelists(cfg, c, op);
      case WaitOp(_, _, _) => WaitRelists(cfg, c, op);
      case UpOp(created, name, now) =>
        ScaleUpIsAllOrNothing(cfg, c, created, name, now);
        SameIndex(c.nodes, Perform(cfg, c, op, false).nodes);
      case LockOp(_, _) => SameIndex(c.nodes, Perform(cfg, c, op, false).nodes);
      case ReconcileOp(_, _) =>
    }
  }

  lemma FailedWriteKeepsFile(cfg: Config, c: Control, op: Op)
    ensures Perform(cfg, c, op, false).targets == c.targets
  {
  }

  /** A failed write loses agreement exactly when the operation changes what the file should list. */
  lemma AgreementWithoutWriteIff(cfg: Config, c: Control, op: Op)
    requires Agrees(c)
    ensures Agrees(Perform(cfg, c, op, false)) <==> !Relists(cfg, c, op)
  {
    FailedWriteKeepsFile(cfg, c, op);
    RelistsIff(cfg, c, op);
    AgreesIffSameIndex(c, Perform(cfg, c, op, false));
  }

  // -------------------------------------------------------------- whole runs

  /** An operation, and whether its write succeeds if it makes one. */
  datatype Done = Done(op: Op, writeOk: bool)

  ghost function Run(cfg: Config, c: Control, ops: seq<Done>): Control {
    if ops == [] then c
    else
      var last := ops[|ops| - 1];
      Perform(cfg, Run(cfg, c, ops[..|ops| - 1]), last.op, last.writeOk)
  }

  /** The file agrees at the start and after every operation. */
  ghost predicate AlwaysAgrees(cfg: Config, c: Control, ops: seq<Done>) {
    Agrees(Run(cfg, c, ops)) && (ops != [] ==> AlwaysAgrees(cfg, c, ops[..|ops| - 1]))
  }

  ghost predicate Loses(cfg: Config, c: Control, d: Done) {
    if d.writeOk then Breaks(cfg, c, d.op) else Relists(cfg, c, d.op)
  }

  ghost predicate Undisturbed(cfg: Config, c: Control, ops: seq<Done>) {
    ops != [] ==>
      var init := ops[..|ops| - 1];
      Undisturbed(cfg, c, init) && !Loses(cfg, Run(cfg, c, init), ops[|ops| - 1])
  }

  /**
   * Over whole sequential runs the file agrees after every operation exactly when none of the two
   * that forget it happened to a listed node, and no write failed that had something to change.
   */
  lemma {:induction false} AgreementOverRuns(cfg: Config, c: Control, ops: seq<Done>)
    requires Agrees(c)
    ensures AlwaysAgrees(cfg, c, ops) <==> Undisturbed(cfg, c, ops)
  {
    if ops != [] {
      var init, last := ops[..|ops| - 1], ops[|ops| - 1];
      AgreementOverRuns(cfg, c, init);
      if Agrees(Run(cfg, c, init)) {
        if last.writeOk {
          AgreementIff(cfg, Run(cfg, c, init), last.op);
        } else {
          AgreementWithoutWriteIff(cfg, Run(cfg, c, init), last.op);
        }
      }
    }
  }
}
