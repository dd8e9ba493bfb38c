/** The journal check accepts whatever a power loss leaves of a prune. */
module PruneImages {
  import opened SnapshotNames
  import opened Repository
  import opened RetentionPlan
  import opened Journal
  import opened PruneSpec
  import opened PruneSteps
  import opened PruneCrash
  import Listing

  // ----- a marker goes last -----

  predicate ChildOp(op: Op) {
    op.DropFile? || op.DropChild? || op.Sync?
  }

  lemma ChildOpsDrop(tx: string, c: string, node: SnapshotNode)
    ensures forall op :: op in ChildOps(tx, c, node) ==> ChildOp(op)
    ensures DropChild(tx, c) in ChildOps(tx, c, node)
  {
    hide Listing.Of;
    if node.SnapshotDir? { DropFileOpsOnly(tx, c, Listing.Of(node.files.Keys)); }
  }

  lemma {:induction false} ChildrenOpsDrop(tx: string, children: map<string, SnapshotNode>, names: seq<string>)
    ensures forall op :: op in ChildrenOps(tx, children, names) ==> ChildOp(op)
    ensures forall c :: c in names && c in children ==> DropChild(tx, c) in ChildrenOps(tx, children, names)
  {
    hide Listing.Of, ChildOps;
    if names != [] {
      var k := |names| - 1;
      var done, c := ChildrenOps(tx, children, names[..k]), names[k];
      ChildrenOpsDrop(tx, children, names[..k]);
      if c in children {
        var last := ChildOps(tx, c, children[c]);
        ChildOpsDrop(tx, c, children[c]);
        assert ChildrenOps(tx, children, names) == done + last;
      }
    }
  }

  lemma FinishMarker(tx: string, node: Transaction, j: nat, t: string)
    requires j < |FinishOps(tx, node)| && FinishOps(tx, node)[j] == DropMarker(t)
    ensures t == tx && node.Transaction?
    ensures forall c :: c in node.children ==> DropChild(t, c) in FinishOps(tx, node)[..j]
  {
    hide Listing.Of, ChildrenOps;
    var all := ChildrenOps(tx, node.children, Listing.Of(node.children.Keys));
    ChildrenOpsDrop(tx, node.children, Listing.Of(node.children.Keys));
    var ops := FinishOps(tx, node);
    assert j < |all| ==> ChildOp(all[j]);
    assert j == |all|;
    assert ops[..j] == all;
    forall c | c in node.children ensures DropChild(t, c) in ops[..j] {
      assert c in Listing.Of(node.children.Keys);
    }
  }

  /** Before a transaction's marker is removed, every retired snapshot in it was. */
  lemma {:induction false} MarkerLast(retired: map<string, Transaction>, txs: seq<string>, j: nat, t: string)
    requires j < |FinishAllOps(retired, txs)| && FinishAllOps(retired, txs)[j] == DropMarker(t)
    ensures t in retired && retired[t].Transaction?
    ensures forall c :: c in retired[t].children ==> DropChild(t, c) in FinishAllOps(retired, txs)[..j]
  {
    hide FinishOps;
    var k := |txs| - 1;
    var done, all := FinishAllOps(retired, txs[..k]), FinishAllOps(retired, txs);
    if j < |done| {
      MarkerLast(retired, txs[..k], j, t);
      assert all[..j] == done[..j];
    } else {
      var last := FinishOps(txs[k], retired[txs[k]]);
      assert all == done + last;
      FinishMarker(txs[k], retired[txs[k]], j - |done|, t);
      assert all[..j] == done + last[..j - |done|];
    }
  }

  // ----- retired snapshots in an image -----

  /** How one operation changes which snapshots a transaction holds. */
  lemma ChildrenStep(e: Disk, op: Op, t: string, c: string)
    ensures c in ChildrenOf(Apply(e, op), t) ==> c in ChildrenOf(e, t) || op == Retire(c, t)
    ensures op == DropChild(t, c) ==> c !in ChildrenOf(Apply(e, op), t)
  {
  }

  /** A retired snapshot whose removal is durable does not come back. */
  lemma {:induction false} ChildGone(d: Disk, ops: seq<Op>, s: set<nat>, t: string, c: string, i: nat)
    requires i in s && i < |ops| && ops[i] == DropChild(t, c)
    requires forall m :: i < m < |ops| ==> !ops[m].Retire?
    ensures c !in ChildrenOf(Image(d, ops, s), t)
  {
    hide Apply, ChildrenOf;
    var k := |ops| - 1;
    ChildrenStep(Image(d, ops[..k], s), ops[k], t, c);
    if i < k {
      ChildGone(d, ops[..k], s, t, c, i);
    }
  }

  /** A retired snapshot was there before, or the prune moved it there. */
  lemma {:induction false} ChildFrom(d: Disk, ops: seq<Op>, s: set<nat>, t: string, c: string)
    requires c in ChildrenOf(Image(d, ops, s), t)
    ensures c in ChildrenOf(d, t) || Retire(c, t) in ops
  {
    hide Apply, ChildrenOf;
    if ops != [] {
      var k := |ops| - 1;
      ChildrenStep(Image(d, ops[..k], s), ops[k], t, c);
      if c in ChildrenOf(Image(d, ops[..k], s), t) { ChildFrom(d, ops[..k], s, t, c); }
    }
  }

  lemma MoveHasNone(d: Disk, policy: Policy, tx: string, i: nat)
    requires i < |PruneLog(d, policy, tx)|
    ensures PruneLog(d, policy, tx)[i].Retire? ==>
      && i < |MoveOps(Drops(d, policy), tx)|
      && PruneLog(d, policy, tx)[i].tx == tx && PruneLog(d, policy, tx)[i].name in Drops(d, policy)
    ensures PruneLog(d, policy, tx)[i].DropChild? || PruneLog(d, policy, tx)[i].DropMarker? ==>
      i >= |MoveOps(Drops(d, policy), tx)| + |PhaseB(d, policy, tx)|
  {
    hide PruneLog, MoveOps, Drops, Moved, Protected, PhaseB;
    LogShape(d, policy, tx, i);
    if i < |MoveOps(Drops(d, policy), tx)| { MoveOpsAt(Drops(d, policy), tx, i); }
  }

  /** A retired snapshot that an image holds is one the clean-up will remove. */
  lemma ChildPlanned(d: Disk, policy: Policy, tx: string, j: nat, s: set<nat>, t: string, c: string)
    requires CanStart(d, policy, tx) && j <= |PruneLog(d, policy, tx)|
    requires c in ChildrenOf(Image(d, PruneLog(d, policy, tx)[..j], s), t)
    requires t in Moved(d, policy, tx).retired && Moved(d, policy, tx).retired[t].Transaction?
    ensures c in Moved(d, policy, tx).retired[t].children
  {
    hide PruneLog, Ready, Drops, MoveOps, ApplyAll;
    var ops := PruneLog(d, policy, tx)[..j];
    ChildFrom(d, ops, s, t, c);
    DropsPresent(d, policy);
    MoveEffect(d, Drops(d, policy), tx);
    if Retire(c, t) in ops {
      var i :| 0 <= i < j && ops[i] == Retire(c, t);
      MoveHasNone(d, policy, tx, i);
    }
  }

  /** When a marker's removal is durable, so is that of every retired snapshot beside it. */
  lemma MarkerAlone(d: Disk, policy: Policy, tx: string, n: nat, s: set<nat>, j: nat, t: string)
    requires CanStart(d, policy, tx)
    requires n <= |PruneLog(d, policy, tx)| && Durable(PruneLog(d, policy, tx)[..n], s)
    requires j < n && j in s && PruneLog(d, policy, tx)[j] == DropMarker(t)
    ensures ChildrenOf(Image(d, PruneLog(d, policy, tx)[..j], s), t) == map[]
  {
    hide Ready, MoveOps, Drops, Moved, PhaseB, FinishAllOps, PruneLog, Image, ChildrenOf;
    var log, ab := PruneLog(d, policy, tx), |MoveOps(Drops(d, policy), tx)| + |PhaseB(d, policy, tx)|;
    LogPhases(d, policy, tx);
    MoveHasNone(d, policy, tx, j);
    var c := PhaseC(d, policy, tx);
    assert c[j - ab] == log[j];
    MarkerLast(Moved(d, policy, tx).retired, TxList(d, policy, tx), j - ab, t);
    forall x | x in ChildrenOf(Image(d, log[..j], s), t) ensures false {
      ChildPlanned(d, policy, tx, j, s, t, x);
      var i :| 0 <= i < j - ab && c[i] == DropChild(t, x);
      RemovalDurable(d, policy, tx, n, s, j, t, x, ab + i);
      assert false;
    }
  }

  lemma RemovalDurable(d: Disk, policy: Policy, tx: string, n: nat, s: set<nat>, j: nat, t: string, x: string, i: nat)
    requires n <= |PruneLog(d, policy, tx)| && Durable(PruneLog(d, policy, tx)[..n], s)
    requires i < j < n && j in s && PruneLog(d, policy, tx)[j] == DropMarker(t)
    requires PruneLog(d, policy, tx)[i] == DropChild(t, x)
    ensures x !in ChildrenOf(Image(d, PruneLog(d, policy, tx)[..j], s), t)
  {
    hide MoveOps, Drops, PhaseB, PruneLog, Image, ChildrenOf;
    var log := PruneLog(d, policy, tx);
    assert TxDir(t) in Touches(log[..n][i]) && TxDir(t) in Touches(log[..n][j]);
    assert i in s;
    forall m | i < m < j ensures !log[m].Retire? {
      MoveHasNone(d, policy, tx, m);
      MoveHasNone(d, policy, tx, i);
    }
    ChildGone(d, log[..j], s, t, x, i);
  }

  // ----- one operation more -----

  /** What an operation needs so that the journal check still accepts the result. */
  ghost predicate Orderly(e: Disk, op: Op) {
    && (op.MakeTx? || op.PutMarker? ==> TxNameOk(op.tx))
    && (op.Retire? && op.name in e.snapshots && HasTx(e, op.tx) ==>
          Canonical(op.name) && RetiredChildOk(e.snapshots[op.name]) && e.retired[op.tx].marker.Some?)
    && (op.DropMarker? ==> ChildrenOf(e, op.tx) == map[])
  }

  lemma ChildShrinks(node: SnapshotNode, file: string)
    requires RetiredChildOk(node)
    ensures RetiredChildOk(SnapshotDir(node.files - {file}))
  {
    forall f | f in node.files && f != file ensures FileExpected(node.files - {file}, SNAPSHOT_FILES, f) {
      assert FileExpected(node.files, SNAPSHOT_FILES, f);
    }
  }

  lemma TxStep(e: Disk, op: Op, t: string)
    requires HasTx(e, t) && TransactionOk(e.retired[t]) && Orderly(e, op) && HasTx(Apply(e, op), t)
    ensures TransactionOk(Apply(e, op).retired[t])
  {
    hide Canonical, TxNameOk, RetiredChildOk;
    var node := e.retired[t];
    if op.DropFile? && op.tx == t && op.name in node.children && node.children[op.name].SnapshotDir? {
      ChildShrinks(node.children[op.name], op.file);
    }
  }

  lemma PendingStep(e: Disk, op: Op)
    requires PendingOk(e) && Orderly(e, op)
    ensures PendingOk(Apply(e, op))
  {
    hide Canonical, TxNameOk, RetiredChildOk;
    var f := Apply(e, op);
    forall t | t in f.retired ensures TxNameOk(t) && TransactionOk(f.retired[t]) {
      if t in e.retired {
        assert TransactionOk(e.retired[t]);
        TxStep(e, op, t);
      }
    }
  }

  /** The marker of the new transaction is durable before anything is moved under it. */
  lemma {:induction false} MarkerFirst(d: Disk, drops: seq<string>, tx: string, m: nat, s: set<nat>)
    requires 3 in s && 3 < m <= |MoveOps(drops, tx)|
    ensures var e := Image(d, MoveOps(drops, tx)[..m], s); HasTx(e, tx) ==> e.retired[tx].marker.Some?
  {
    hide RetireOps;
    var ops := MoveOps(drops, tx);
    assert ops[..m][..m - 1] == ops[..m - 1];
    MarkerOp(drops, tx);
    if m > 4 {
      MarkerFirst(d, drops, tx, m - 1, s);
      RestOfMove(drops, tx, m - 1);
    } else {
      assert ops[3] == PutMarker(tx);
    }
  }

  lemma RestOfMove(drops: seq<string>, tx: string, i: nat)
    requires 4 <= i < |MoveOps(drops, tx)|
    ensures MoveOps(drops, tx)[i].Sync? || MoveOps(drops, tx)[i].Retire?
  {
    hide RetireOps;
    if i >= 6 {
      RetireOpsAt(drops, tx, (i - 6) / 3);
      assert MoveOps(drops, tx)[i] == RetireOps(drops, tx)[i - 6];
    }
  }

  lemma MoveOrderly(d: Disk, policy: Policy, tx: string, n: nat, s: set<nat>, m: nat)
    requires CanStart(d, policy, tx)
    requires n <= |PruneLog(d, policy, tx)| && Durable(PruneLog(d, policy, tx)[..n], s)
    requires m < n && m in s && m < |MoveOps(Drops(d, policy), tx)|
    ensures Orderly(Image(d, PruneLog(d, policy, tx)[..m], s), PruneLog(d, policy, tx)[m])
  {
    hide Ready, MoveOps, Drops, PruneLog, Image, PhaseB, Orderly, Durable, Touches;
    var log, drops := PruneLog(d, policy, tx), Drops(d, policy);
    var a := MoveOps(drops, tx);
    LogPhases(d, policy, tx);
    assert log[..m] == a[..m] && log[m] == a[m];
    MoveOpsAt(drops, tx, m);
    var e := Image(d, log[..m], s);
    if log[m].Retire? {
      PlanGivesReady(d, policy);
      ImageSnapshots(d, log[..m], s);
      MarkerDurable(drops, tx, log, n, s, m);
      MarkerFirst(d, drops, tx, m, s);
      RetireOrderly(d, e, log[m]);
    } else {
      MakeOrderly(e, log[m], drops, tx);
    }
  }

  lemma MarkerDurable(drops: seq<string>, tx: string, log: seq<Op>, n: nat, s: set<nat>, m: nat)
    requires MoveOps(drops, tx) <= log && n <= |log| && Durable(log[..n], s)
    requires m < n && m in s && m < |MoveOps(drops, tx)| && log[m].Retire?
    ensures m > 3 && 3 in s
  {
    hide MoveOps;
    MoveOpsAt(drops, tx, m);
    MarkerOp(drops, tx);
    assert log[3] == MoveOps(drops, tx)[..6][3];
    assert TxDir(tx) in Touches(log[..n][3]) && TxDir(tx) in Touches(log[..n][m]);
  }

  lemma RetireOrderly(d: Disk, e: Disk, op: Op)
    requires op.Retire? && forall n :: n in d.snapshots ==> Canonical(n) && RetiredChildOk(d.snapshots[n])
    requires forall n :: n in e.snapshots ==> n in d.snapshots && e.snapshots[n] == d.snapshots[n]
    requires HasTx(e, op.tx) ==> e.retired[op.tx].marker.Some?
    ensures Orderly(e, op)
  {
    hide Canonical, RetiredChildOk;
  }

  lemma MakeOrderly(e: Disk, op: Op, drops: seq<string>, tx: string)
    requires MoveOp(op, drops, tx) && !op.Retire? && TxNameOk(tx)
    ensures Orderly(e, op)
  {
  }

  lemma MarkerOp(drops: seq<string>, tx: string)
    requires drops != []
    ensures |MoveOps(drops, tx)| >= 6
    ensures MoveOps(drops, tx)[..6] ==
      [MakeRoot, Sync(RepoRoot), MakeTx(tx), PutMarker(tx), Sync(TxDir(tx)), Sync(RetiredRoot)]
  {
    hide RetireOps;
  }

  lemma PlanGivesReady(d: Disk, policy: Policy)
    requires Ready(d, policy)
    ensures forall n :: n in d.snapshots ==> Canonical(n) && RetiredChildOk(d.snapshots[n])
  {
    hide PendingOk, PlanOk, Keeps, ArchiveOk, Canonical, RetiredChildOk;
    PlanGives(d, PlanKeep(policy));
  }

  lemma {:induction false} ImagePending(d: Disk, policy: Policy, tx: string, n: nat, s: set<nat>, m: nat)
    requires CanStart(d, policy, tx)
    requires n <= |PruneLog(d, policy, tx)| && Durable(PruneLog(d, policy, tx)[..n], s) && m <= n
    ensures PendingOk(Image(d, PruneLog(d, policy, tx)[..m], s))
  {
    hide PlanOk, Keeps, ArchiveOk, MoveOps, Drops, PruneLog, PhaseB, Durable, PendingOk, Apply, Orderly, Moved,
      Protected;
    var log := PruneLog(d, policy, tx);
    if m > 0 {
      var j := m - 1;
      assert log[..m][..j] == log[..j];
      ImagePending(d, policy, tx, n, s, j);
      if j in s {
        LaterOrderly(d, policy, tx, n, s, j);
        PendingStep(Image(d, log[..j], s), log[j]);
      }
    }
  }

  lemma LaterOrderly(d: Disk, policy: Policy, tx: string, n: nat, s: set<nat>, j: nat)
    requires CanStart(d, policy, tx)
    requires n <= |PruneLog(d, policy, tx)| && Durable(PruneLog(d, policy, tx)[..n], s) && j < n && j in s
    ensures Orderly(Image(d, PruneLog(d, policy, tx)[..j], s), PruneLog(d, policy, tx)[j])
  {
    hide MoveOps, Drops, PruneLog, PhaseB, Durable, Moved, Protected, Image, Ready, ChildrenOf, HasTx;
    var log := PruneLog(d, policy, tx);
    LogShape(d, policy, tx, j);
    if j < |MoveOps(Drops(d, policy), tx)| {
      MoveOrderly(d, policy, tx, n, s, j);
    } else if log[j].DropMarker? {
      MarkerAlone(d, policy, tx, n, s, j, log[j].tx);
    }
  }
}
